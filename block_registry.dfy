/**
 * The run-time side of blocks: `$_l->blocks`, which maps each block name to the stack
 * of its implementations, most derived first, with the PHP array's internal pointer as
 * the cursor of parent calls; the prolog's registrations; `callBlock` and `callBlockParent`.
 */
module BlockRegistry {
  import opened Wrappers
  import opened PhpArray
  import opened Inheritance

  /**
   * `$_l->blocks[$name]`: implementations in registration order and the array's internal
   * pointer, which stands at `|impls|` once `next` has run past the last entry.
   */
  datatype Stack = Stack(impls: seq<Impl>, cursor: nat)

  /** The `InvalidStateException`s of the two dispatchers. */
  datatype RuntimeError = UndefinedBlock(name: string) | UndefinedParentBlock(name: string)

  predicate CursorInRange(s: Stack) {
    s.cursor <= |s.impls|
  }

  /** Every stack is created by an append, so none is empty. */
  predicate StackValid(s: Stack) {
    |s.impls| > 0 && CursorInRange(s)
  }

  /** The stack under `name`; an absent key reads as an empty array. */
  function StackOf(blocks: seq<(string, Stack)>, name: string): Stack {
    if HasKey(blocks, name) then Get(blocks, name) else Stack([], 0)
  }

  /** `$stack[] = $impl`: appending leaves the pointer where it is; a pointer past the end
      then stands on the new entry. */
  function Pushed(s: Stack, impl: Impl): (r: Stack)
    ensures |r.impls| == |s.impls| + 1 && r.impls[|s.impls|] == impl
    ensures r.cursor == s.cursor
    ensures forall i :: 0 <= i < |s.impls| ==> r.impls[i] == s.impls[i]
    ensures CursorInRange(s) ==> CursorInRange(r)
    ensures s.cursor < |s.impls| ==> r.cursor < |s.impls| && r.impls[r.cursor] == s.impls[s.cursor]
    ensures s.cursor == |s.impls| ==> r.cursor == |s.impls| && r.impls[r.cursor] == impl
  {
    Stack(s.impls + [impl], s.cursor)
  }

  /** `next($stack)`: the pointer moves one step, never beyond the end, and the entry now under
      it is returned, or FALSE past the end. */
  function Advance(s: Stack): (r: (Stack, Option<Impl>))
    requires CursorInRange(s)
    ensures r.0.impls == s.impls && CursorInRange(r.0)
    ensures r.0.cursor == if s.cursor < |s.impls| then s.cursor + 1 else |s.impls|
    ensures r.1.Some? <==> s.cursor + 1 < |s.impls|
    ensures r.1.Some? ==> r.1.value == s.impls[s.cursor + 1]
  {
    var c := if s.cursor < |s.impls| then s.cursor + 1 else s.cursor;
    (s.(cursor := c), if c < |s.impls| then Some(s.impls[c]) else None)
  }

  /** The stack after `k` calls of `next`. */
  function Walk(s: Stack, k: nat): (r: Stack)
    requires CursorInRange(s)
    ensures CursorInRange(r) && r.impls == s.impls
  {
    if k == 0 then s else Advance(Walk(s, k - 1)).0
  }

  /** What the `k`-th parent call (counting from 1) after `callBlock` rewound the stack returns. */
  function KthParent(impls: seq<Impl>, k: nat): Option<Impl>
    requires k > 0
  {
    Advance(Walk(Stack(impls, 0), k - 1)).1
  }

  /** From a rewound stack, `k` calls of `next` leave the pointer at `k`, or at the end. */
  lemma {:induction false} WalkFromFront(impls: seq<Impl>, k: nat)
    ensures Walk(Stack(impls, 0), k).cursor == if k < |impls| then k else |impls|
  {
    if k > 0 {
      WalkFromFront(impls, k - 1);
    }
  }

  /** The parent calls of one render walk the stack from the most derived implementation
      towards the oldest: the `k`-th returns the entry at position `k`, and every call after
      the last entry fails. */
  lemma ParentCallsWalkTheStack(impls: seq<Impl>, k: nat)
    requires k > 0
    ensures k < |impls| ==> KthParent(impls, k) == Some(impls[k])
    ensures k >= |impls| ==> KthParent(impls, k).None?
  {
    WalkFromFront(impls, k - 1);
  }

  /** The registry as `callBlock(name)` and then `k` calls of `callBlockParent(name)` leave it,
      each step as the two methods state for a non-empty stack: the stack under `name` is
      rewound and then walked `k` times, and every other stack is left alone. */
  function AfterParentCalls(blocks: seq<(string, Stack)>, name: string, k: nat): (b: seq<(string, Stack)>)
    requires WellFormed(blocks) && |StackOf(blocks, name).impls| > 0
    ensures WellFormed(b)
    ensures StackOf(b, name) == Walk(Stack(StackOf(blocks, name).impls, 0), k)
    ensures forall other :: other != name ==> StackOf(b, other) == StackOf(blocks, other)
    decreases k
  {
    var prev := if k == 0 then blocks else AfterParentCalls(blocks, name, k - 1);
    var s := if k == 0 then StackOf(blocks, name).(cursor := 0) else Advance(StackOf(prev, name)).0;
    PutWellFormed(prev, name, s);
    PutGetSame(prev, name, s);
    assert forall other :: other != name ==> StackOf(Put(prev, name, s), other) == StackOf(prev, other) by {
      forall other | other != name ensures StackOf(Put(prev, name, s), other) == StackOf(prev, other) {
        PutGetOther(prev, name, s, other);
      }
    }
    Put(prev, name, s)
  }

  /** Composed over the registry: after `callBlock(name)`, the `k`-th `callBlockParent(name)` finds
      the `k`-th older implementation of the stack, and every call from the `n`-th on fails. */
  lemma ParentCallsOnRegistry(blocks: seq<(string, Stack)>, name: string, k: nat)
    requires WellFormed(blocks) && |StackOf(blocks, name).impls| > 0 && k > 0
    ensures var s := StackOf(AfterParentCalls(blocks, name, k - 1), name);
            var impls := StackOf(blocks, name).impls;
            && CursorInRange(s)
            && (k < |impls| ==> Advance(s).1 == Some(impls[k]))
            && (k >= |impls| ==> Advance(s).1.None?)
  {
    ParentCallsWalkTheStack(StackOf(blocks, name).impls, k);
  }

  /** The registry after the prolog's registrations, in order. */
  function RegisterAll(blocks: seq<(string, Stack)>, regs: seq<Registration>): seq<(string, Stack)>
    decreases |regs|
  {
    if regs == [] then blocks
    else
      var name := regs[0].name;
      RegisterAll(Put(blocks, name, Pushed(StackOf(blocks, name), regs[0].impl)), regs[1..])
  }

  /** The implementations `regs` registers under `name`, in order. */
  function ImplsFor(regs: seq<Registration>, name: string): seq<Impl>
    decreases |regs|
  {
    if regs == [] then []
    else (if regs[0].name == name then [regs[0].impl] else []) + ImplsFor(regs[1..], name)
  }

  /** One registration appends to the stack of its own name and leaves every other stack alone. */
  lemma RegisterOne(blocks: seq<(string, Stack)>, n: string, impl: Impl, name: string)
    requires WellFormed(blocks)
    ensures WellFormed(Put(blocks, n, Pushed(StackOf(blocks, n), impl)))
    ensures StackOf(Put(blocks, n, Pushed(StackOf(blocks, n), impl)), name).impls
            == StackOf(blocks, name).impls + (if n == name then [impl] else [])
  {
    var s := Pushed(StackOf(blocks, n), impl);
    PutWellFormed(blocks, n, s);
    if n == name {
      PutGetSame(blocks, n, s);
    } else {
      PutGetOther(blocks, n, s, name);
    }
  }

  /** Registration only appends: each stack grows by exactly the implementations registered under
      its name, in registration order, however often a name recurs. */
  lemma {:induction false} RegisterAllAppends(blocks: seq<(string, Stack)>, regs: seq<Registration>, name: string)
    requires WellFormed(blocks)
    ensures WellFormed(RegisterAll(blocks, regs))
    ensures StackOf(RegisterAll(blocks, regs), name).impls == StackOf(blocks, name).impls + ImplsFor(regs, name)
    decreases |regs|
  {
    if regs != [] {
      var n := regs[0].name;
      var next := Put(blocks, n, Pushed(StackOf(blocks, n), regs[0].impl));
      assert RegisterAll(blocks, regs) == RegisterAll(next, regs[1..]);
      assert ImplsFor(regs, name) == (if n == name then [regs[0].impl] else []) + ImplsFor(regs[1..], name);
      RegisterOne(blocks, n, regs[0].impl, name);
      RegisterAllAppends(next, regs[1..], name);
    }
  }

  /** A compiled template registers each of its static blocks exactly once. */
  lemma {:induction false} RegisteredOnce(templateId: string, namedBlocks: seq<(string, BlockState)>, name: string)
    requires WellFormed(namedBlocks)
    ensures ImplsFor(Registrations(templateId, namedBlocks), name)
            == if HasKey(namedBlocks, name) then [Impl(templateId, name)] else []
    decreases |namedBlocks|
  {
    var regs := Registrations(templateId, namedBlocks);
    if namedBlocks != [] {
      var rest := namedBlocks[1..];
      assert Keys(rest) == Keys(namedBlocks)[1..];
      assert WellFormed(rest);
      assert regs[1..] == Registrations(templateId, rest);
      RegisteredOnce(templateId, rest, name);
      assert Keys(namedBlocks) == [namedBlocks[0].0] + Keys(rest);
      if namedBlocks[0].0 == name {
        forall j | 0 <= j < |Keys(rest)| ensures Keys(rest)[j] != name {
          assert Keys(rest)[j] == Keys(namedBlocks)[j + 1];
        }
        assert !HasKey(rest, name);
      }
    }
  }

  /** Running one template's prolog adds its own implementation to the stack of each block it declares. */
  lemma RegisterTemplate(blocks: seq<(string, Stack)>, templateId: string, namedBlocks: seq<(string, BlockState)>,
                         name: string)
    requires WellFormed(blocks) && WellFormed(namedBlocks)
    ensures var after := RegisterAll(blocks, Registrations(templateId, namedBlocks));
            && WellFormed(after)
            && StackOf(after, name).impls
               == StackOf(blocks, name).impls + (if HasKey(namedBlocks, name) then [Impl(templateId, name)] else [])
  {
    RegisterAllAppends(blocks, Registrations(templateId, namedBlocks), name);
    RegisteredOnce(templateId, namedBlocks, name);
  }

  /** Every template of the chain has distinct static block names, as a compiled template does. */
  predicate ChainWellFormed(chain: seq<(string, seq<(string, BlockState)>)>)
    decreases |chain|
  {
    chain == [] || (WellFormed(chain[0].1) && ChainWellFormed(chain[1..]))
  }

  /** A chain of templates, most derived first: each template's id and static blocks. */
  function RegisterChain(blocks: seq<(string, Stack)>, chain: seq<(string, seq<(string, BlockState)>)>): seq<(string, Stack)>
    decreases |chain|
  {
    if chain == [] then blocks
    else RegisterChain(RegisterAll(blocks, Registrations(chain[0].0, chain[0].1)), chain[1..])
  }

  /** The templates of `chain` that declare `name`, as implementations, most derived first. */
  function Declarers(chain: seq<(string, seq<(string, BlockState)>)>, name: string): seq<Impl>
    decreases |chain|
  {
    if chain == [] then []
    else (if HasKey(chain[0].1, name) then [Impl(chain[0].0, name)] else []) + Declarers(chain[1..], name)
  }

  /**
   * Rendering a chain of templates runs the descendant's prolog before its ancestor's, so the
   * stack of a block lists the templates that declare it from the most derived to the oldest:
   * `callBlock` reaches the most derived one and each parent call the next older.
   */
  lemma {:induction false} OverrideOrder(chain: seq<(string, seq<(string, BlockState)>)>, name: string)
    requires ChainWellFormed(chain)
    ensures WellFormed(RegisterChain([], chain))
    ensures StackOf(RegisterChain([], chain), name).impls == Declarers(chain, name)
  {
    RegisterChainAppends([], chain, name);
  }

  lemma {:induction false} RegisterChainAppends(blocks: seq<(string, Stack)>, chain: seq<(string, seq<(string, BlockState)>)>,
                                                name: string)
    requires WellFormed(blocks) && ChainWellFormed(chain)
    ensures WellFormed(RegisterChain(blocks, chain))
    ensures StackOf(RegisterChain(blocks, chain), name).impls == StackOf(blocks, name).impls + Declarers(chain, name)
    decreases |chain|
  {
    if chain != [] {
      var next := RegisterAll(blocks, Registrations(chain[0].0, chain[0].1));
      assert RegisterChain(blocks, chain) == RegisterChain(next, chain[1..]);
      var own := if HasKey(chain[0].1, name) then [Impl(chain[0].0, name)] else [];
      assert Declarers(chain, name) == own + Declarers(chain[1..], name);
      RegisterTemplate(blocks, chain[0].0, chain[0].1, name);
      RegisterChainAppends(next, chain[1..], name);
      assert StackOf(blocks, name).impls + own + Declarers(chain[1..], name)
             == StackOf(blocks, name).impls + (own + Declarers(chain[1..], name));
    }
  }

  /** `$_l`: the run-time context a template and its ancestors share during one render. */
  class RenderContext {
    var blocks: seq<(string, Stack)>

    ghost predicate Valid()
      reads this
    {
      WellFormed(blocks) && forall i :: 0 <= i < |blocks| ==> StackValid(blocks[i].1)
    }

    constructor ()
      ensures Valid() && blocks == []
    {
      blocks := [];
    }

    /** `$_l->blocks[name][] = impl` in the prolog. The `function_exists` guard around it only keeps
        the function from being defined twice: the append happens every time. */
    method Register(name: string, impl: Impl)
      requires Valid()
      modifies this
      ensures Valid()
      ensures blocks == Put(old(blocks), name, Pushed(StackOf(old(blocks), name), impl))
    {
      var s := StackOf(blocks, name);
      if HasKey(blocks, name) {
        var i :| 0 <= i < |Keys(blocks)| && Keys(blocks)[i] == name;
        GetAt(blocks, i);
      }
      PutWellFormed(blocks, name, Pushed(s, impl));
      PutSlots(blocks, name, Pushed(s, impl));
      blocks := Put(blocks, name, Pushed(s, impl));
    }

    /** The block section of the prolog, executed at the start of a render. */
    method RunPrologue(regs: seq<Registration>)
      requires Valid()
      modifies this
      ensures Valid()
      ensures blocks == RegisterAll(old(blocks), regs)
    {
      var i := 0;
      while i < |regs|
        invariant 0 <= i <= |regs|
        invariant Valid()
        invariant RegisterAll(blocks, regs[i..]) == RegisterAll(old(blocks), regs)
      {
        assert regs[i..][0] == regs[i] && regs[i..][1..] == regs[i + 1..];
        Register(regs[i].name, regs[i].impl);
        i := i + 1;
      }
    }

    /** `callBlock`: fails on an absent or empty stack; otherwise rewinds it and returns its front entry. */
    method CallBlock(name: string) returns (r: Result<Impl, RuntimeError>)
      requires Valid()
      modifies this
      ensures Valid()
      ensures StackOf(old(blocks), name).impls == [] ==> r == Err(UndefinedBlock(name)) && blocks == old(blocks)
      ensures StackOf(old(blocks), name).impls != [] ==>
                && r == Ok(StackOf(old(blocks), name).impls[0])
                && blocks == Put(old(blocks), name, StackOf(old(blocks), name).(cursor := 0))
    {
      var s := StackOf(blocks, name);
      if s.impls == [] {
        return Err(UndefinedBlock(name));
      }
      var i :| 0 <= i < |Keys(blocks)| && Keys(blocks)[i] == name;
      GetAt(blocks, i);
      PutWellFormed(blocks, name, s.(cursor := 0));
      PutSlots(blocks, name, s.(cursor := 0));
      blocks := Put(blocks, name, s.(cursor := 0));
      r := Ok(s.impls[0]);
    }

    /** `callBlockParent`: fails on an absent or empty stack; otherwise advances the pointer by one
        (even when that runs past the end) and returns the entry there, failing past the end. */
    method CallBlockParent(name: string) returns (r: Result<Impl, RuntimeError>)
      requires Valid()
      modifies this
      ensures Valid()
      ensures StackOf(old(blocks), name).impls == [] ==> r == Err(UndefinedParentBlock(name)) && blocks == old(blocks)
      ensures StackOf(old(blocks), name).impls != [] ==>
                && CursorInRange(StackOf(old(blocks), name))
                && blocks == Put(old(blocks), name, Advance(StackOf(old(blocks), name)).0)
                && (r.Ok? <==> Advance(StackOf(old(blocks), name)).1.Some?)
                && (r.Ok? ==> r.value == Advance(StackOf(old(blocks), name)).1.value)
                && (r.Err? ==> r.error == UndefinedParentBlock(name))
    {
      var s := StackOf(blocks, name);
      if s.impls == [] {
        return Err(UndefinedParentBlock(name));
      }
      var i :| 0 <= i < |Keys(blocks)| && Keys(blocks)[i] == name;
      GetAt(blocks, i);
      assert s == blocks[i].1 && StackValid(s);
      var (s', f) := Advance(s);
      assert StackValid(s');
      PutWellFormed(blocks, name, s');
      PutSlots(blocks, name, s');
      blocks := Put(blocks, name, s');
      if f.None? {
        return Err(UndefinedParentBlock(name));
      }
      r := Ok(f.value);
    }
  }
}
