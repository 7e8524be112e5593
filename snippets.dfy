/**
 * `renderSnippets`: on an AJAX request for an invalid control, the template renders only
 * the snippet blocks the control reports invalid into the presenter's payload, then renders
 * the control's invalid child controls.
 */
module Snippets {
  import opened PhpArray
  import opened Inheritance
  import opened BlockRegistry

  /** A node of the component tree, seen through what the sweep asks of it. */
  datatype Component = Component(
    isControl: bool,               // an instance of Nette\Application\UI\Control
    invalid: bool,                 // isControlInvalid() as the children loop asks it, after the block loop
    invalidSnippets: set<string>,  // the names for which isControlInvalid(name) holds when the sweep starts
    snippetPrefix: string,         // getSnippetId(name) is this prefix followed by the name
    children: seq<Component>)      // getComponents(FALSE), in order

  /** `$control->getSnippetId($name)` */
  function SnippetId(c: Component, name: string): string {
    c.snippetPrefix + name
  }

  /** Different snippet names of one control have different ids. */
  lemma SnippetIdInjective(c: Component, a: string, b: string)
    ensures SnippetId(c, a) == SnippetId(c, b) ==> a == b
  {
    assert a == SnippetId(c, a)[|c.snippetPrefix|..];
    assert b == SnippetId(c, b)[|c.snippetPrefix|..];
  }

  /** The sweep renders block `name`: its name starts with `_` and the control reports the rest invalid. */
  predicate Refreshes(invalid: set<string>, name: string) {
    IsSnippetName(name) && name[1..] in invalid
  }

  predicate NonEmptyStacks(blocks: seq<(string, Stack)>) {
    forall i :: 0 <= i < |blocks| ==> |blocks[i].1.impls| > 0
  }

  /**
   * The names the control still reports invalid once the sweep has visited the first block.
   * Rendering a snippet block validates its own name (the `validateControl` call at the head of
   * its function) and the names `nested` gives for the implementation: the snippets its body
   * renders, each of which validates itself in turn.
   */
  function InvalidAfter(blocks: seq<(string, Stack)>, nested: Impl -> set<string>, invalid: set<string>): set<string>
    requires |blocks| > 0 && |blocks[0].1.impls| > 0
  {
    var name := blocks[0].0;
    if Refreshes(invalid, name) then invalid - ({name[1..]} + nested(blocks[0].1.impls[0])) else invalid
  }

  /** What the control reports invalid when the sweep reaches block `i`. */
  function InvalidAt(blocks: seq<(string, Stack)>, nested: Impl -> set<string>, invalid: set<string>, i: nat): set<string>
    requires NonEmptyStacks(blocks) && i <= |blocks|
    decreases i
  {
    if i == 0 then invalid
    else
      assert |blocks[1..]| == |blocks| - 1 && forall j :: 0 <= j < |blocks| - 1 ==> blocks[1..][j] == blocks[j + 1];
      InvalidAt(blocks[1..], nested, InvalidAfter(blocks, nested, invalid), i - 1)
  }

  /** Some block of `blocks` is rendered under the payload key `id`. */
  predicate Produces(c: Component, blocks: seq<(string, Stack)>, nested: Impl -> set<string>, invalid: set<string>, id: string)
    requires NonEmptyStacks(blocks)
    decreases |blocks|
  {
    && blocks != []
    && ((Refreshes(invalid, blocks[0].0) && SnippetId(c, blocks[0].0[1..]) == id)
        || (assert forall j :: 0 <= j < |blocks| - 1 ==> blocks[1..][j] == blocks[j + 1];
            Produces(c, blocks[1..], nested, InvalidAfter(blocks, nested, invalid), id)))
  }

  /**
   * The payload's snippets after the block loop, from `snippets`. `render` gives the output of a
   * block implementation called with the template's variables; `invalid` is what the control
   * reports invalid when the loop reaches the first block.
   */
  function SweepBlocks(c: Component, blocks: seq<(string, Stack)>, render: Impl -> string,
                       nested: Impl -> set<string>, invalid: set<string>,
                       snippets: seq<(string, string)>): seq<(string, string)>
    requires NonEmptyStacks(blocks)
    decreases |blocks|
  {
    if blocks == [] then snippets
    else
      var name := blocks[0].0;
      var next := if Refreshes(invalid, name) then Put(snippets, SnippetId(c, name[1..]), render(blocks[0].1.impls[0]))
                  else snippets;
      assert forall j :: 0 <= j < |blocks| - 1 ==> blocks[1..][j] == blocks[j + 1];
      SweepBlocks(c, blocks[1..], render, nested, InvalidAfter(blocks, nested, invalid), next)
  }

  /** One block of the sweep: the payload entry of a refreshed snippet block is set, and the
      sweep goes on with the rest and with what the control still reports invalid. */
  lemma SweepStep(c: Component, blocks: seq<(string, Stack)>, render: Impl -> string,
                  nested: Impl -> set<string>, invalid: set<string>, snippets: seq<(string, string)>)
    requires NonEmptyStacks(blocks) && WellFormed(snippets) && |blocks| > 0
    ensures NonEmptyStacks(blocks[1..])
    ensures var next := if Refreshes(invalid, blocks[0].0)
                        then Put(snippets, SnippetId(c, blocks[0].0[1..]), render(blocks[0].1.impls[0]))
                        else snippets;
            && WellFormed(next)
            && SweepBlocks(c, blocks, render, nested, invalid, snippets)
               == SweepBlocks(c, blocks[1..], render, nested, InvalidAfter(blocks, nested, invalid), next)
  {
    var rest := blocks[1..];
    forall j | 0 <= j < |rest| ensures |rest[j].1.impls| > 0 {
      assert rest[j] == blocks[j + 1];
    }
    if Refreshes(invalid, blocks[0].0) {
      PutWellFormed(snippets, SnippetId(c, blocks[0].0[1..]), render(blocks[0].1.impls[0]));
    }
  }

  /** A block produces a key exactly when it is a snippet block the control still reports invalid
      when the sweep reaches it. */
  lemma {:induction false} ProducesAt(c: Component, blocks: seq<(string, Stack)>, nested: Impl -> set<string>,
                                      invalid: set<string>, id: string)
    requires NonEmptyStacks(blocks)
    ensures Produces(c, blocks, nested, invalid, id) <==>
            exists i :: 0 <= i < |blocks| && Refreshes(InvalidAt(blocks, nested, invalid, i), blocks[i].0)
                                         && SnippetId(c, blocks[i].0[1..]) == id
    decreases |blocks|
  {
    if blocks != [] {
      var rest := blocks[1..];
      var inv' := InvalidAfter(blocks, nested, invalid);
      assert NonEmptyStacks(rest) by {
        forall j | 0 <= j < |rest| ensures |rest[j].1.impls| > 0 {
          assert rest[j] == blocks[j + 1];
        }
      }
      ProducesAt(c, rest, nested, inv', id);
      forall i | 1 <= i < |blocks|
        ensures InvalidAt(blocks, nested, invalid, i) == InvalidAt(rest, nested, inv', i - 1)
        ensures blocks[i] == rest[i - 1]
      {
      }
      if Produces(c, blocks, nested, invalid, id) {
        if !(Refreshes(invalid, blocks[0].0) && SnippetId(c, blocks[0].0[1..]) == id) {
          var j :| 0 <= j < |rest| && Refreshes(InvalidAt(rest, nested, inv', j), rest[j].0)
                   && SnippetId(c, rest[j].0[1..]) == id;
          assert InvalidAt(blocks, nested, invalid, j + 1) == InvalidAt(rest, nested, inv', j);
        } else {
          assert InvalidAt(blocks, nested, invalid, 0) == invalid;
        }
      }
    }
  }

  /** What the control reports invalid only shrinks as the sweep goes on, and what a refreshed block
      validates, itself and the snippets nested in it, is not reported invalid at any later block. */
  lemma {:induction false} ValidatedStaysValid(blocks: seq<(string, Stack)>, nested: Impl -> set<string>,
                                               invalid: set<string>, i: nat, j: nat)
    requires NonEmptyStacks(blocks) && i < j <= |blocks|
    ensures InvalidAt(blocks, nested, invalid, j) <= InvalidAt(blocks, nested, invalid, i)
    ensures Refreshes(InvalidAt(blocks, nested, invalid, i), blocks[i].0) ==>
              var validated := {blocks[i].0[1..]} + nested(blocks[i].1.impls[0]);
              InvalidAt(blocks, nested, invalid, j) !! validated
    decreases |blocks|
  {
    var rest := blocks[1..];
    var inv' := InvalidAfter(blocks, nested, invalid);
    assert NonEmptyStacks(rest) by {
      forall k | 0 <= k < |rest| ensures |rest[k].1.impls| > 0 {
        assert rest[k] == blocks[k + 1];
      }
    }
    assert InvalidAt(blocks, nested, invalid, j) == InvalidAt(rest, nested, inv', j - 1);
    if i == 0 {
      if j > 1 {
        ValidatedStaysValid(rest, nested, inv', 0, j - 1);
      }
    } else {
      assert InvalidAt(blocks, nested, invalid, i) == InvalidAt(rest, nested, inv', i - 1);
      assert blocks[i] == rest[i - 1];
      ValidatedStaysValid(rest, nested, inv', i - 1, j - 1);
    }
  }

  /** The payload gains an entry for exactly the snippet blocks still invalid when reached, and keeps its other entries. */
  lemma {:induction false} SweepKeys(c: Component, blocks: seq<(string, Stack)>, render: Impl -> string,
                                     nested: Impl -> set<string>, invalid: set<string>,
                                     snippets: seq<(string, string)>, id: string)
    requires NonEmptyStacks(blocks) && WellFormed(snippets)
    ensures WellFormed(SweepBlocks(c, blocks, render, nested, invalid, snippets))
    ensures HasKey(SweepBlocks(c, blocks, render, nested, invalid, snippets), id)
            <==> HasKey(snippets, id) || Produces(c, blocks, nested, invalid, id)
    decreases |blocks|
  {
    if blocks != [] {
      var name := blocks[0].0;
      SweepStep(c, blocks, render, nested, invalid, snippets);
      var next := snippets;
      if Refreshes(invalid, name) {
        var k := SnippetId(c, name[1..]);
        next := Put(snippets, k, render(blocks[0].1.impls[0]));
        PutGetSame(snippets, k, render(blocks[0].1.impls[0]));
        if id != k {
          PutGetOther(snippets, k, render(blocks[0].1.impls[0]), id);
        }
      }
      SweepKeys(c, blocks[1..], render, nested, InvalidAfter(blocks, nested, invalid), next, id);
    }
  }

  /** Keys no block produces keep their old values. */
  lemma {:induction false} SweepKeepsOthers(c: Component, blocks: seq<(string, Stack)>, render: Impl -> string,
                                            nested: Impl -> set<string>, invalid: set<string>,
                                            snippets: seq<(string, string)>, id: string)
    requires NonEmptyStacks(blocks) && WellFormed(snippets)
    requires HasKey(snippets, id) && !Produces(c, blocks, nested, invalid, id)
    ensures HasKey(SweepBlocks(c, blocks, render, nested, invalid, snippets), id)
    ensures Get(SweepBlocks(c, blocks, render, nested, invalid, snippets), id) == Get(snippets, id)
    decreases |blocks|
  {
    if blocks != [] {
      var name := blocks[0].0;
      SweepStep(c, blocks, render, nested, invalid, snippets);
      var next := snippets;
      if Refreshes(invalid, name) {
        var k := SnippetId(c, name[1..]);
        next := Put(snippets, k, render(blocks[0].1.impls[0]));
        PutGetOther(snippets, k, render(blocks[0].1.impls[0]), id);
      }
      SweepKeepsOthers(c, blocks[1..], render, nested, InvalidAfter(blocks, nested, invalid), next, id);
    }
  }

  /** In a registry without repeated names, the key of the first block is produced by no later block. */
  lemma FirstKeyNotProducedLater(c: Component, blocks: seq<(string, Stack)>, nested: Impl -> set<string>, invalid: set<string>)
    requires WellFormed(blocks) && NonEmptyStacks(blocks) && |blocks| > 0 && IsSnippetName(blocks[0].0)
    ensures NonEmptyStacks(blocks[1..])
    ensures !Produces(c, blocks[1..], nested, invalid, SnippetId(c, blocks[0].0[1..]))
  {
    var name := blocks[0].0;
    var rest := blocks[1..];
    assert NonEmptyStacks(rest) by {
      forall k | 0 <= k < |rest| ensures |rest[k].1.impls| > 0 {
        assert rest[k] == blocks[k + 1];
      }
    }
    ProducesAt(c, rest, nested, invalid, SnippetId(c, name[1..]));
    forall j | 0 <= j < |rest| && IsSnippetName(rest[j].0) ensures SnippetId(c, rest[j].0[1..]) != SnippetId(c, name[1..]) {
      assert rest[j] == blocks[j + 1];
      assert Keys(blocks)[0] != Keys(blocks)[j + 1];
      assert rest[j].0 == [rest[j].0[0]] + rest[j].0[1..];
      assert name == [name[0]] + name[1..];
      SnippetIdInjective(c, rest[j].0[1..], name[1..]);
    }
  }

  /** Each snippet block still invalid when the sweep reaches it has its entry set to the output of
      the front implementation of its stack, the most derived one. */
  lemma {:induction false} SweepRendersFront(c: Component, blocks: seq<(string, Stack)>, render: Impl -> string,
                                             nested: Impl -> set<string>, invalid: set<string>,
                                             snippets: seq<(string, string)>, i: nat)
    requires NonEmptyStacks(blocks) && WellFormed(snippets) && WellFormed(blocks)
    requires i < |blocks| && Refreshes(InvalidAt(blocks, nested, invalid, i), blocks[i].0)
    ensures HasKey(SweepBlocks(c, blocks, render, nested, invalid, snippets), SnippetId(c, blocks[i].0[1..]))
    ensures Get(SweepBlocks(c, blocks, render, nested, invalid, snippets), SnippetId(c, blocks[i].0[1..]))
            == render(blocks[i].1.impls[0])
    decreases |blocks|
  {
    var name := blocks[0].0;
    var rest := blocks[1..];
    var inv' := InvalidAfter(blocks, nested, invalid);
    var next := if Refreshes(invalid, name) then Put(snippets, SnippetId(c, name[1..]), render(blocks[0].1.impls[0]))
                else snippets;
    SweepStep(c, blocks, render, nested, invalid, snippets);
    if i == 0 {
      PutGetSame(snippets, SnippetId(c, name[1..]), render(blocks[0].1.impls[0]));
      FirstKeyNotProducedLater(c, blocks, nested, inv');
      SweepKeepsOthers(c, rest, render, nested, inv', next, SnippetId(c, name[1..]));
    } else {
      assert Keys(rest) == Keys(blocks)[1..];
      assert rest[i - 1] == blocks[i];
      assert InvalidAt(blocks, nested, invalid, i) == InvalidAt(rest, nested, inv', i - 1);
      SweepRendersFront(c, rest, render, nested, inv', next, i - 1);
    }
  }

  /** A snippet rendered inside an earlier refreshed block gets no entry of its own: the outer
      block's rendering validated it before the sweep reached it. */
  lemma NestedSnippetNotRefreshed(c: Component, blocks: seq<(string, Stack)>, nested: Impl -> set<string>,
                                  invalid: set<string>, i: nat, j: nat)
    requires NonEmptyStacks(blocks) && i < j < |blocks|
    requires Refreshes(InvalidAt(blocks, nested, invalid, i), blocks[i].0)
    requires IsSnippetName(blocks[j].0) && blocks[j].0[1..] in nested(blocks[i].1.impls[0])
    ensures !Refreshes(InvalidAt(blocks, nested, invalid, j), blocks[j].0)
  {
    ValidatedStaysValid(blocks, nested, invalid, i, j);
  }

  /** The children a sweep renders: the direct child controls that are invalid, in order. */
  function InvalidChildren(cs: seq<Component>): seq<Component> {
    if cs == [] then []
    else
      var last := cs[|cs| - 1];
      InvalidChildren(cs[..|cs| - 1]) + (if last.isControl && last.invalid then [last] else [])
  }

  /** The sweep renders exactly the invalid child controls, each at most as often as it occurs. */
  lemma {:induction false} InvalidChildrenMembers(cs: seq<Component>)
    ensures |InvalidChildren(cs)| <= |cs|
    ensures forall x :: x in InvalidChildren(cs) <==> x in cs && x.isControl && x.invalid
    decreases |cs|
  {
    if cs != [] {
      var init := cs[..|cs| - 1];
      InvalidChildrenMembers(init);
      assert cs == init + [cs[|cs| - 1]];
    }
  }

  /** The presenter's payload, which the sweep fills in place. */
  class Payload {
    var snippets: seq<(string, string)>

    constructor ()
      ensures snippets == []
    {
      snippets := [];
    }
  }

  /** `renderSnippets`: returns the children it asks to render, in order. `nested` gives, for each
      block implementation, the snippets its body renders and thereby validates. */
  method RenderSnippets(control: Component, local: RenderContext, render: Impl -> string,
                        nested: Impl -> set<string>, payload: Payload)
    returns (rendered: seq<Component>)
    requires local.Valid() && WellFormed(payload.snippets)
    modifies payload
    ensures WellFormed(payload.snippets)
    ensures payload.snippets == SweepBlocks(control, local.blocks, render, nested, control.invalidSnippets, old(payload.snippets))
    ensures rendered == if control.isControl then InvalidChildren(control.children) else []
  {
    var blocks := local.blocks;
    assert NonEmptyStacks(blocks[0..]) by {
      assert blocks[0..] == blocks;
    }
    // what `isControlInvalid(name)` answers as the loop goes on
    var invalid := control.invalidSnippets;
    var i := 0;
    while i < |blocks|
      invariant 0 <= i <= |blocks|
      invariant WellFormed(payload.snippets) && NonEmptyStacks(blocks[i..])
      invariant SweepBlocks(control, blocks[i..], render, nested, invalid, payload.snippets)
                == SweepBlocks(control, blocks, render, nested, control.invalidSnippets, old(payload.snippets))
    {
      SweepStep(control, blocks[i..], render, nested, invalid, payload.snippets);
      assert blocks[i..][0] == blocks[i] && blocks[i..][1..] == blocks[i + 1..];
      var name := blocks[i].0;
      if IsSnippetName(name) && name[1..] in invalid {
        // `reset` works on the loop's copy of the stack: the registry's pointer does not move
        var front := blocks[i].1.impls[0];
        payload.snippets := Put(payload.snippets, SnippetId(control, name[1..]), render(front));
        invalid := invalid - ({name[1..]} + nested(front));
      }
      i := i + 1;
    }
    rendered := [];
    if control.isControl {
      rendered := CollectInvalidChildren(control.children);
    }
  }

  /** The second loop of `renderSnippets`: the invalid child controls, in order. */
  method CollectInvalidChildren(children: seq<Component>) returns (rendered: seq<Component>)
    ensures rendered == InvalidChildren(children)
  {
    rendered := [];
    var j := 0;
    while j < |children|
      invariant 0 <= j <= |children|
      invariant rendered == InvalidChildren(children[..j])
    {
      var child := children[j];
      assert children[..j + 1][..j] == children[..j];
      if child.isControl && child.invalid {
        rendered := rendered + [child];
      }
      j := j + 1;
    }
    assert children[..j] == children;
  }
}
