/**
 * Compile-time bookkeeping of `{block}`, `{define}`, `{snippet}`, `{extends}` and
 * `{include #block}` (class UIMacros). The emitted PHP code is a tagged `Emission`;
 * the compiler's fields `namedBlocks` and `extends` are the state of class `UIMacros`
 * below and, as a value, of datatype `State`, over which the step functions and the
 * lemmas about whole templates are stated.
 */
module BlockCompiler {
  import opened Wrappers
  import opened PhpString
  import opened PhpArray
  import opened Inheritance

  /** Which of the three macros `macroBlock` serves. */
  datatype Kind = BlockMacro | DefineMacro | SnippetMacro

  /** The `ParseException`s the macros throw. */
  datatype CompileError =
    | MissingExtendsDestination
    | ExtendsNotTopLevel
    | MultipleExtends
    | MissingBlockName
    | RedeclareStaticBlock(name: string)
    | InvalidIncludeName(name: string)
    | IncludeOutsideBlock(reference: string)

  /** What `macroBlock` leaves in `$node->data` for `macroBlockEnd`. */
  datatype NodeData = Anonymous | Named(name: string, dynamic: bool)

  /** The variables a block call passes: `$template->getParams()` for snippets, `get_defined_vars()` otherwise. */
  datatype ArgSource = TemplateParams | DefinedVars

  /** `call_user_func(reset($_l->blocks[name]), $_l, args)`; when `modified`, its output is captured
      and passed through the node's modifiers. */
  datatype BlockCall = BlockCall(name: string, args: ArgSource, modified: bool)

  /** The right-hand side of `$_l->extends = ...`: `$layout` for `auto`, else the formatted arguments. */
  datatype ExtendsTarget = LayoutVariable | Given(args: string)

  /**
   * How `{include #name}` calls a block: `reset` of the stack without a check (a static block
   * of this template), `callBlock` (checked), or `callBlockParent`.
   */
  datatype IncludeMode = FrontOfStack | Checked | ParentOfStack

  /** A block name in emitted code: a string literal, or a PHP variable when it starts with `$`. */
  datatype BlockRef = Literal(name: string) | Variable(expr: string)

  /** The PHP code a macro returns. */
  datatype Emission =
    | NotHandled                          // FALSE: the macro declines
    | Nothing                             // ''
    | StartCapture                        // `ob_start()` for an anonymous block with modifiers
    | ApplyModifiers                      // `echo %modify(ob_get_clean())` closing it
    | SetExtends(target: ExtendsTarget)   // `$_l->extends = ...`
    | DynamicBlockStart(name: string)     // append to `$_l->blocks[name]` and open the block's function
    | DynamicBlockEnd(name: string)       // close that function and call the front of the stack
    | SnippetWrap(tag: string, snippet: string, call: BlockCall)  // `<tag id="snippet id">call</tag>`
    | InlineCall(call: BlockCall)
    | ConditionalCall(call: BlockCall)    // `if (!$_l->extends) { call }`
    | IncludeCall(mode: IncludeMode, block: BlockRef, modified: bool)

  /** The compiler's fields `namedBlocks` and `extends` as a value. */
  datatype State = State(namedBlocks: seq<(string, BlockState)>, extending: Option<bool>)

  /** An enclosing macro node: its macro name and its `data->name`, if set. */
  datatype ScopeNode = ScopeNode(macro: string, dataName: Option<string>)

  /** A block-related directive, as the parser hands it to the macros, in source order. */
  datatype Directive =
    | ExtendsDirective(args: string, nested: bool)
    | BlockDirective(kind: Kind, word: Option<string>, tagWord: Option<string>, modifiers: string, nested: bool)
    | BlockEndDirective(data: NodeData, content: string, modifiers: string)

  // ---------------------------------------------------------------- {extends}

  /** `macroExtends`: a missing destination, a nested `{extends}` or a second one is an error;
      otherwise `extends` becomes whether the destination differs from `none`. */
  function ExtendsStep(st: State, args: string, nested: bool): (r: Result<(State, Emission), CompileError>)
    ensures r.Ok? <==> Truthy(args) && !nested && st.extending.None?
    ensures !Truthy(args) ==> r == Err(MissingExtendsDestination)
    ensures Truthy(args) && nested ==> r == Err(ExtendsNotTopLevel)
    ensures Truthy(args) && !nested && st.extending.Some? ==> r == Err(MultipleExtends)
    ensures r.Ok? ==> r.value.0 == st.(extending := Some(args != "none"))
    ensures r.Ok? ==> (r.value.1 == Nothing <==> args == "none")
    ensures r.Ok? && args != "none" ==> r.value.1 == SetExtends(if args == "auto" then LayoutVariable else Given(args))
  {
    if !Truthy(args) then Err(MissingExtendsDestination)
    else if nested then Err(ExtendsNotTopLevel)
    else if st.extending.Some? then Err(MultipleExtends)
    else if args == "none" then Ok((st.(extending := Some(false)), Nothing))
    else Ok((st.(extending := Some(true)), SetExtends(if args == "auto" then LayoutVariable else Given(args))))
  }

  // ---------------------------------------------------------------- {block}, {define}, {snippet}

  /** The name a named block declares: the word with its leading `#`s removed, after `_` for a snippet.
      A missing word counts as the empty word. */
  function BlockName(kind: Kind, word: Option<string>): string {
    (if kind == SnippetMacro then "_" else "") + TrimLeft(word.GetOr(""), '#')
  }

  /** A snippet's name is `_` followed by the rest; the rest is the word with every leading `#`
      dropped and nothing else changed; the name is empty exactly for a non-snippet whose word is all `#`s. */
  lemma BlockNameShape(kind: Kind, word: Option<string>)
    ensures var name := BlockName(kind, word);
            var p := if kind == SnippetMacro then 1 else 0;
            var w := word.GetOr("");
            && (kind == SnippetMacro ==> |name| > 0 && name[0] == '_')
            && p <= |name| && |name| - p <= |w|
            && w[|w| - (|name| - p)..] == name[p..]
            && (forall i :: 0 <= i < |w| - (|name| - p) ==> w[i] == '#')
            && (|name| == p || name[p] != '#')
            && (name == "" <==> kind != SnippetMacro && forall i :: 0 <= i < |w| ==> w[i] == '#')
  {
    TrimLeftShape(word.GetOr(""), '#');
  }

  /** The wrapping element of a snippet: the second word without angle brackets, `div` if that is falsy. */
  function SnippetTag(tagWord: Option<string>): (tag: string)
    ensures Truthy(tag)
    ensures tag == "div" || !IsAngle(tag[0])
    ensures Truthy(TrimAngles(tagWord.GetOr(""))) ==> tag == TrimAngles(tagWord.GetOr(""))
    ensures !Truthy(TrimAngles(tagWord.GetOr(""))) ==> tag == "div"
  {
    var t := TrimAngles(tagWord.GetOr(""));
    if Truthy(t) then t else "div"
  }

  /** The inline code of a newly declared static block: one of five cases. */
  function StaticEmission(st: State, kind: Kind, name: string, tagWord: Option<string>, modifiers: string, nested: bool): Emission
    requires |name| > 0
  {
    var call := BlockCall(name, if kind == SnippetMacro then TemplateParams else DefinedVars, Truthy(modifiers));
    if kind == SnippetMacro then SnippetWrap(SnippetTag(tagWord), name[1..], call)
    else if kind == DefineMacro then Nothing
    else if nested then InlineCall(call)
    else if st.extending == Some(true) then Nothing
    else ConditionalCall(call)
  }

  /** `macroBlock`: the node data it records and the code it emits, or the error it throws. */
  function OpenBlock(st: State, kind: Kind, word: Option<string>, tagWord: Option<string>, modifiers: string, nested: bool)
    : Result<(State, NodeData, Emission), CompileError>
  {
    if kind == BlockMacro && word.None? then
      Ok((st, Anonymous, if modifiers == "" then Nothing else StartCapture))
    else
      var name := BlockName(kind, word);
      if name == "" then Err(MissingBlockName)
      else if !MatchesIdentifier(name) then Ok((st, Named(name, true), DynamicBlockStart(name)))
      else if HasKey(st.namedBlocks, name) then Err(RedeclareStaticBlock(name))
      else
        Ok((st.(namedBlocks := Put(st.namedBlocks, name, Open)), Named(name, false),
            StaticEmission(st, kind, name, tagWord, modifiers, nested)))
  }

  /** What `macroBlock` does: an anonymous `{block}` only captures output for its modifiers; a name
      that is not an identifier opens a dynamic block and leaves `namedBlocks` alone; a new static
      name is appended as open; an empty name or a redeclared static name is an error. */
  lemma OpenBlockCases(st: State, kind: Kind, word: Option<string>, tagWord: Option<string>, modifiers: string, nested: bool)
    ensures var r := OpenBlock(st, kind, word, tagWord, modifiers, nested);
            && (r.Ok? ==> r.value.0.extending == st.extending)
            && (r.Ok? && r.value.1.Anonymous? ==> r.value.0 == st)
            && (kind == BlockMacro && word.None? ==>
                  r == Ok((st, Anonymous, if modifiers == "" then Nothing else StartCapture)))
            && (r.Ok? && r.value.1.Named? ==> r.value.1.name == BlockName(kind, word) != "")
            && (r.Ok? && r.value.1.Named? && r.value.1.dynamic ==>
                  && r.value.0 == st && !MatchesIdentifier(r.value.1.name)
                  && r.value.2 == DynamicBlockStart(r.value.1.name))
            && (r.Ok? && r.value.1.Named? && !r.value.1.dynamic ==>
                  && MatchesIdentifier(r.value.1.name)
                  && !HasKey(st.namedBlocks, r.value.1.name)
                  && r.value.0.namedBlocks == st.namedBlocks + [(r.value.1.name, Open)]
                  && r.value.2 == StaticEmission(st, kind, r.value.1.name, tagWord, modifiers, nested))
            && (!(kind == BlockMacro && word.None?) && BlockName(kind, word) == "" ==> r == Err(MissingBlockName))
            && (r.Err? <==> (!(kind == BlockMacro && word.None?) &&
                  (BlockName(kind, word) == "" ||
                   (MatchesIdentifier(BlockName(kind, word)) && HasKey(st.namedBlocks, BlockName(kind, word))))))
  {
  }

  /** `macroBlockEnd`: the new state, the emitted code and the node's new content. */
  function CloseBlock(st: State, data: NodeData, content: string, modifiers: string): (r: (State, Emission, string))
    ensures r.0.extending == st.extending
    ensures data.Named? && !data.dynamic ==>
              r.0.namedBlocks == Put(st.namedBlocks, data.name, Closed(content)) && r.1 == Nothing && r.2 == ""
    ensures !(data.Named? && !data.dynamic) ==> r.0 == st && r.2 == content
    ensures data.Named? && data.dynamic ==> r.1 == DynamicBlockEnd(data.name)
    ensures data.Anonymous? ==> (r.1 == ApplyModifiers <==> Truthy(modifiers)) && (r.1 == Nothing <==> !Truthy(modifiers))
  {
    match data
    case Named(name, dynamic) =>
      if !dynamic then (st.(namedBlocks := Put(st.namedBlocks, name, Closed(content))), Nothing, "")
      else (st, DynamicBlockEnd(name), content)
    case Anonymous =>
      (st, if Truthy(modifiers) then ApplyModifiers else Nothing, content)
  }

  // ---------------------------------------------------------------- {include #block}

  /** The loop at the parent walk stops at a `block` node (named or not) or at any node with a name. */
  predicate IsScope(n: ScopeNode) {
    n.macro == "block" || n.dataName.Some?
  }

  /** The nearest enclosing scope node; `ancestors` lists the enclosing nodes, nearest first. */
  function NearestScope(ancestors: seq<ScopeNode>): (r: Option<nat>)
    ensures r.Some? ==> r.value < |ancestors| && IsScope(ancestors[r.value])
    ensures r.Some? ==> forall j :: 0 <= j < r.value ==> !IsScope(ancestors[j])
    ensures r.None? ==> forall j :: 0 <= j < |ancestors| ==> !IsScope(ancestors[j])
  {
    if ancestors == [] then None
    else if IsScope(ancestors[0]) then Some(0)
    else match NearestScope(ancestors[1..])
      case None => None
      case Some(i) => Some(i + 1)
  }

  predicate StartsWithHash(word: Option<string>) {
    word.Some? && |word.value| > 0 && word.value[0] == '#'
  }

  /** The included name: the word with its leading `#`s removed. */
  function Destination(word: Option<string>): string {
    TrimLeft(word.GetOr(""), '#')
  }

  function RefOf(dest: string): BlockRef {
    if |dest| > 0 && dest[0] == '$' then Variable(dest) else Literal(dest)
  }

  /**
   * The call emitted for a resolved destination. An enclosing anonymous block has no name;
   * PHP then uses NULL, which as an array key is the empty string, so it is passed as "".
   */
  function IncludeEmission(namedBlocks: seq<(string, BlockState)>, dest: string, parent: bool, modifiers: string)
    : (e: Emission)
    ensures e.IncludeCall? && e.block == RefOf(dest) && (e.modified <==> Truthy(modifiers))
    ensures e.mode == ParentOfStack <==> parent
    ensures e.mode == FrontOfStack <==> !parent && HasKey(namedBlocks, dest)
  {
    var mode := if HasKey(namedBlocks, dest) && !parent then FrontOfStack
                else if parent then ParentOfStack
                else Checked;
    IncludeCall(mode, RefOf(dest), Truthy(modifiers))
  }

  /** `macroInclude` */
  function Include(namedBlocks: seq<(string, BlockState)>, word: Option<string>, modifiers: string, ancestors: seq<ScopeNode>)
    : Result<Emission, CompileError>
  {
    if !StartsWithHash(word) then Ok(NotHandled)
    else
      var d := Destination(word);
      if !MatchesVariableOrIdentifier(d) then Err(InvalidIncludeName(d))
      else if d == "parent" || d == "this" then
        match NearestScope(ancestors)
        case None => Err(IncludeOutsideBlock(d))
        case Some(i) => Ok(IncludeEmission(namedBlocks, ancestors[i].dataName.GetOr(""), d == "parent", modifiers))
      else Ok(IncludeEmission(namedBlocks, d, false, modifiers))
  }

  /** `{include}` declines anything but `#name`; an invalid name, or `#parent`/`#this` outside any
      block, is an error; `#parent` and `#this` name the nearest enclosing block, any other name itself. */
  lemma IncludeCases(namedBlocks: seq<(string, BlockState)>, word: Option<string>, modifiers: string, ancestors: seq<ScopeNode>)
    ensures var r := Include(namedBlocks, word, modifiers, ancestors);
            var d := Destination(word);
            && (r == Ok(NotHandled) <==> !StartsWithHash(word))
            && (r == Err(InvalidIncludeName(d)) <==> StartsWithHash(word) && !MatchesVariableOrIdentifier(d))
            && (r == Err(IncludeOutsideBlock(d)) <==>
                  && StartsWithHash(word) && MatchesVariableOrIdentifier(d)
                  && (d == "parent" || d == "this") && NearestScope(ancestors).None?)
            && (StartsWithHash(word) && MatchesVariableOrIdentifier(d) && d != "parent" && d != "this" ==>
                  r == Ok(IncludeEmission(namedBlocks, d, false, modifiers)))
            && (StartsWithHash(word) && MatchesVariableOrIdentifier(d) &&
                (d == "parent" || d == "this") && NearestScope(ancestors).Some? ==>
                  r == Ok(IncludeEmission(namedBlocks, ancestors[NearestScope(ancestors).value].dataName.GetOr(""),
                                          d == "parent", modifiers)))
  {
  }

  // ---------------------------------------------------------------- whole templates

  /** One directive's effect on the compiler state. */
  function Step(st: State, d: Directive): Result<State, CompileError> {
    match d
    case ExtendsDirective(args, nested) =>
      (match ExtendsStep(st, args, nested)
       case Ok(p) => Ok(p.0)
       case Err(e) => Err(e))
    case BlockDirective(kind, word, tagWord, modifiers, nested) =>
      (match OpenBlock(st, kind, word, tagWord, modifiers, nested)
       case Ok(p) => Ok(p.0)
       case Err(e) => Err(e))
    case BlockEndDirective(data, content, modifiers) =>
      Ok(CloseBlock(st, data, content, modifiers).0)
  }

  /** The directives of a template in source order; the first error stops compilation. */
  function Run(st: State, ds: seq<Directive>): Result<State, CompileError>
    decreases |ds|
  {
    if ds == [] then Ok(st)
    else match Step(st, ds[0])
      case Err(e) => Err(e)
      case Ok(st') => Run(st', ds[1..])
  }

  /** A compilation is its first step followed by the rest. */
  lemma RunFirst(st: State, ds: seq<Directive>)
    requires ds != []
    ensures Step(st, ds[0]).Err? ==> Run(st, ds).Err?
    ensures Step(st, ds[0]).Ok? ==> Run(st, ds) == Run(Step(st, ds[0]).value, ds[1..])
  {
  }

  /** The static name a directive declares, if it declares one. */
  function StaticNameOf(d: Directive): Option<string> {
    match d
    case BlockDirective(kind, word, _, _, _) =>
      if kind == BlockMacro && word.None? then None
      else
        var name := BlockName(kind, word);
        if name != "" && MatchesIdentifier(name) then Some(name) else None
    case _ => None
  }

  /** A step never forgets a declared static name and keeps `namedBlocks` well formed. */
  lemma StepKeepsNames(st: State, d: Directive, k: string)
    requires WellFormed(st.namedBlocks) && Step(st, d).Ok?
    ensures WellFormed(Step(st, d).value.namedBlocks)
    ensures HasKey(st.namedBlocks, k) ==> HasKey(Step(st, d).value.namedBlocks, k)
  {
    match d
    case ExtendsDirective(_, _) =>
    case BlockDirective(kind, word, tagWord, modifiers, nested) =>
      OpenBlockCases(st, kind, word, tagWord, modifiers, nested);
      var p := OpenBlock(st, kind, word, tagWord, modifiers, nested).value;
      if p.1.Named? && !p.1.dynamic {
        PutWellFormed(st.namedBlocks, p.1.name, Open);
        assert Keys(p.0.namedBlocks) == Keys(st.namedBlocks) + [p.1.name];
      }
    case BlockEndDirective(data, content, modifiers) =>
      if data.Named? && !data.dynamic {
        PutWellFormed(st.namedBlocks, data.name, Closed(content));
      }
  }

  /** A successful step leaves a set `extends` as it is. */
  lemma StepKeepsExtends(st: State, d: Directive)
    requires st.extending.Some? && Step(st, d).Ok?
    ensures Step(st, d).value.extending == st.extending
  {
    if d.BlockDirective? {
      OpenBlockCases(st, d.kind, d.word, d.tagWord, d.modifiers, d.nested);
    }
  }

  /** A directive declaring a known static name fails; one that succeeds adds its name. */
  lemma StaticDeclaration(st: State, d: Directive)
    requires StaticNameOf(d).Some?
    ensures HasKey(st.namedBlocks, StaticNameOf(d).value) ==> Step(st, d).Err?
    ensures Step(st, d).Ok? ==> HasKey(Step(st, d).value.namedBlocks, StaticNameOf(d).value)
  {
    var name := StaticNameOf(d).value;
    if Step(st, d).Ok? {
      var st' := Step(st, d).value;
      assert st'.namedBlocks == st.namedBlocks + [(name, Open)];
      assert Keys(st'.namedBlocks)[|st.namedBlocks|] == name;
    }
  }

  /** Once `extends` is set, no later directive of a successful compilation changes it. */
  lemma {:induction false} ExtendsIsNeverOverwritten(st: State, ds: seq<Directive>)
    requires st.extending.Some? && Run(st, ds).Ok?
    ensures Run(st, ds).value.extending == st.extending
    decreases |ds|
  {
    if ds != [] {
      RunFirst(st, ds);
      StepKeepsExtends(st, ds[0]);
      ExtendsIsNeverOverwritten(Step(st, ds[0]).value, ds[1..]);
    }
  }

  /** A compilation in which a static name is already declared fails when it is declared again. */
  lemma {:induction false} KnownStaticNameFails(st: State, ds: seq<Directive>, j: nat, name: string)
    requires WellFormed(st.namedBlocks) && HasKey(st.namedBlocks, name)
    requires j < |ds| && StaticNameOf(ds[j]) == Some(name)
    ensures Run(st, ds).Err?
    decreases j
  {
    RunFirst(st, ds);
    if j == 0 {
      StaticDeclaration(st, ds[0]);
    } else {
      var r := Step(st, ds[0]);
      if r.Ok? {
        var rest := ds[1..];
        assert rest[j - 1] == ds[j];
        StepKeepsNames(st, ds[0], name);
        KnownStaticNameFails(r.value, rest, j - 1, name);
      }
    }
  }

  /** In a template that compiles, no static block name is declared twice. */
  lemma {:induction false} StaticNamesAreUnique(st: State, ds: seq<Directive>, i: nat, j: nat)
    requires WellFormed(st.namedBlocks) && Run(st, ds).Ok?
    requires i < j < |ds| && StaticNameOf(ds[i]).Some?
    ensures StaticNameOf(ds[j]) != StaticNameOf(ds[i])
    decreases i
  {
    RunFirst(st, ds);
    var st' := Step(st, ds[0]).value;
    assert ds[1..][j - 1] == ds[j];
    StepKeepsNames(st, ds[0], "");
    if i == 0 {
      var name := StaticNameOf(ds[0]).value;
      StaticDeclaration(st, ds[0]);
      if StaticNameOf(ds[j]) == Some(name) {
        KnownStaticNameFails(st', ds[1..], j - 1, name);
      }
    } else {
      StaticNamesAreUnique(st', ds[1..], i - 1, j - 1);
    }
  }

  /** A dynamic name is never entered into `namedBlocks`, so it escapes the uniqueness check,
      even when it is opened twice or collides with a declared static name. */
  lemma DynamicNamesBypassUniqueness(st: State, kind: Kind, word: Option<string>, tagWord: Option<string>,
                                     modifiers: string, nested: bool)
    requires !(kind == BlockMacro && word.None?)
    requires BlockName(kind, word) != "" && !MatchesIdentifier(BlockName(kind, word))
    ensures OpenBlock(st, kind, word, tagWord, modifiers, nested)
            == Ok((st, Named(BlockName(kind, word), true), DynamicBlockStart(BlockName(kind, word))))
  {
  }

  /** Redeclaring a static name of the same template is the error "Cannot redeclare static block". */
  lemma RedeclaringStaticNameFails(st: State, kind: Kind, word: Option<string>, tagWord: Option<string>,
                                   modifiers: string, nested: bool)
    requires !(kind == BlockMacro && word.None?)
    requires MatchesIdentifier(BlockName(kind, word)) && HasKey(st.namedBlocks, BlockName(kind, word))
    ensures OpenBlock(st, kind, word, tagWord, modifiers, nested) == Err(RedeclareStaticBlock(BlockName(kind, word)))
  {
  }

  /** Closing a static block stores its body under its name; every other name keeps its slot. */
  lemma ClosingStoresBody(st: State, name: string, content: string, modifiers: string, other: string)
    requires WellFormed(st.namedBlocks) && other != name
    ensures var st' := CloseBlock(st, Named(name, false), content, modifiers).0;
            && WellFormed(st'.namedBlocks)
            && HasKey(st'.namedBlocks, name) && Get(st'.namedBlocks, name) == Closed(content)
            && (HasKey(st'.namedBlocks, other) <==> HasKey(st.namedBlocks, other))
            && (HasKey(st.namedBlocks, other) ==> Get(st'.namedBlocks, other) == Get(st.namedBlocks, other))
  {
    PutWellFormed(st.namedBlocks, name, Closed(content));
    PutGetSame(st.namedBlocks, name, Closed(content));
    PutGetOther(st.namedBlocks, name, Closed(content), other);
  }

  /** The five ways a static block is emitted at its declaration. A top-level `{block}` is
      dropped only when `{extends}` came before it; a later `{extends}` does not change it. */
  lemma StaticEmissionCases(st: State, kind: Kind, name: string, tagWord: Option<string>, modifiers: string, nested: bool)
    requires |name| > 0
    ensures var e := StaticEmission(st, kind, name, tagWord, modifiers, nested);
            && (kind == SnippetMacro ==>
                  && e.SnippetWrap? && e.tag == SnippetTag(tagWord) && e.snippet == name[1..]
                  && e.call == BlockCall(name, TemplateParams, Truthy(modifiers)))
            && (kind == DefineMacro ==> e == Nothing)
            && (kind == BlockMacro && nested ==> e == InlineCall(BlockCall(name, DefinedVars, Truthy(modifiers))))
            && (kind == BlockMacro && !nested ==> (e == Nothing <==> st.extending == Some(true)))
            && (kind == BlockMacro && !nested && st.extending != Some(true) ==>
                  e == ConditionalCall(BlockCall(name, DefinedVars, Truthy(modifiers))))
  {
  }

  // ---------------------------------------------------------------- the compiler object

  class UIMacros {
    /** Static block names in declaration order: `Open` while the block is open, its body once closed. */
    var namedBlocks: seq<(string, BlockState)>
    /** The source's `extends`: NULL before `{extends}`, then whether it names an ancestor. */
    var extending: Option<bool>

    ghost predicate Valid()
      reads this
    {
      WellFormed(namedBlocks)
    }

    function Snapshot(): State
      reads this
    {
      State(namedBlocks, extending)
    }

    constructor ()
      ensures Valid() && namedBlocks == [] && extending == None
    {
      namedBlocks := [];
      extending := None;
    }

    /** `initialize`: before a template is parsed. */
    method Initialize()
      modifies this
      ensures Valid() && namedBlocks == [] && extending == None
    {
      namedBlocks := [];
      extending := None;
    }

    /** `macroExtends` */
    method MacroExtends(args: string, nested: bool) returns (r: Result<Emission, CompileError>)
      requires Valid()
      modifies this
      ensures Valid()
      ensures match ExtendsStep(old(Snapshot()), args, nested)
              case Ok(p) => r == Ok(p.1) && Snapshot() == p.0
              case Err(e) => r == Err(e) && Snapshot() == old(Snapshot())
    {
      if !Truthy(args) {
        return Err(MissingExtendsDestination);
      }
      if nested {
        return Err(ExtendsNotTopLevel);
      }
      if extending.Some? {
        return Err(MultipleExtends);
      }
      extending := Some(args != "none");
      if args != "none" {
        r := Ok(SetExtends(if args == "auto" then LayoutVariable else Given(args)));
      } else {
        r := Ok(Nothing);
      }
    }

    /** `macroBlock` */
    method MacroBlock(kind: Kind, word: Option<string>, tagWord: Option<string>, modifiers: string, nested: bool)
      returns (r: Result<(NodeData, Emission), CompileError>)
      requires Valid()
      modifies this
      ensures Valid()
      ensures match OpenBlock(old(Snapshot()), kind, word, tagWord, modifiers, nested)
              case Ok(p) => r == Ok((p.1, p.2)) && Snapshot() == p.0
              case Err(e) => r == Err(e) && Snapshot() == old(Snapshot())
    {
      var st := Snapshot();
      if kind == BlockMacro && word.None? {
        return Ok((Anonymous, if modifiers == "" then Nothing else StartCapture));
      }
      var name := BlockName(kind, word);
      if name == "" {
        assert OpenBlock(st, kind, word, tagWord, modifiers, nested) == Err(MissingBlockName);
        return Err(MissingBlockName);
      }
      if !MatchesIdentifier(name) {
        assert OpenBlock(st, kind, word, tagWord, modifiers, nested) == Ok((st, Named(name, true), DynamicBlockStart(name)));
        return Ok((Named(name, true), DynamicBlockStart(name)));
      }
      if HasKey(namedBlocks, name) {
        assert OpenBlock(st, kind, word, tagWord, modifiers, nested) == Err(RedeclareStaticBlock(name));
        return Err(RedeclareStaticBlock(name));
      }
      var emission := StaticEmission(st, kind, name, tagWord, modifiers, nested);
      var st' := st.(namedBlocks := Put(st.namedBlocks, name, Open));
      assert OpenBlock(st, kind, word, tagWord, modifiers, nested) == Ok((st', Named(name, false), emission));
      PutWellFormed(namedBlocks, name, Open);
      namedBlocks := Put(namedBlocks, name, Open);
      r := Ok((Named(name, false), emission));
    }

    /** `macroBlockEnd`: returns the emitted code and the node's new content. */
    method MacroBlockEnd(data: NodeData, content: string, modifiers: string) returns (e: Emission, newContent: string)
      requires Valid()
      modifies this
      ensures Valid()
      ensures (Snapshot(), e, newContent) == CloseBlock(old(Snapshot()), data, content, modifiers)
    {
      newContent := content;
      match data {
        case Named(name, dynamic) =>
          if !dynamic {
            PutWellFormed(namedBlocks, name, Closed(content));
            namedBlocks := Put(namedBlocks, name, Closed(content));
            newContent := "";
            e := Nothing;
          } else {
            e := DynamicBlockEnd(name);
          }
        case Anonymous =>
          e := if Truthy(modifiers) then ApplyModifiers else Nothing;
      }
    }

    /** `macroInclude`: walks the enclosing nodes for `#parent` and `#this`. */
    method MacroInclude(word: Option<string>, modifiers: string, ancestors: seq<ScopeNode>)
      returns (r: Result<Emission, CompileError>)
      ensures r == Include(namedBlocks, word, modifiers, ancestors)
    {
      if !StartsWithHash(word) {
        return Ok(NotHandled);
      }
      var dest := Destination(word);
      if !MatchesVariableOrIdentifier(dest) {
        return Err(InvalidIncludeName(dest));
      }
      var parent := dest == "parent";
      var target := dest;
      if dest == "parent" || dest == "this" {
        var i := 0;
        while i < |ancestors| && !IsScope(ancestors[i])
          invariant 0 <= i <= |ancestors|
          invariant forall j :: 0 <= j < i ==> !IsScope(ancestors[j])
        {
          i := i + 1;
        }
        if i == |ancestors| {
          return Err(IncludeOutsideBlock(dest));
        }
        assert NearestScope(ancestors) == Some(i);
        target := ancestors[i].dataName.GetOr("");
      }
      r := Ok(IncludeEmission(namedBlocks, target, parent, modifiers));
    }

    /** The block section of `finalize`'s prolog and its choice of support code. */
    method Finalize(templateId: string) returns (plan: Plan)
      ensures plan == PlanOf(templateId, namedBlocks, extending)
    {
      var regs: seq<Registration> := [];
      var i := 0;
      while i < |namedBlocks|
        invariant 0 <= i <= |namedBlocks|
        invariant |regs| == i
        invariant forall j :: 0 <= j < i ==> regs[j] == RegistrationOf(templateId, namedBlocks[j])
      {
        var name := namedBlocks[i].0;
        regs := regs + [Registration(name, Impl(templateId, name), namedBlocks[i].1, IsSnippetName(name))];
        i := i + 1;
      }
      if namedBlocks != [] || extending == Some(true) {
        var init := if extending.Some? then Fixed(extending.value) else FromTemplate;
        plan := Plan(regs, Some(init));
      } else {
        plan := Plan(regs, None);
      }
    }
  }
}
