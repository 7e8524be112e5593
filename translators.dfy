/** The small directive translators: `{contentType}`, `{control}`/`{widget}` and `{ifset #block}`. */
module Translators {
  import opened Wrappers
  import opened PhpString

  // ---------------------------------------------------------------- {contentType}

  /** The parser context `macroContentType` selects: `[CONTEXT_TEXT]`, or `[CONTEXT_NONE]` with an optional sub-context. */
  datatype ParserContext = TextContext | NoneContext(sub: Option<string>)

  /** The effect of `{contentType}`: the new parser context, and whether a Content-Type header is set. */
  datatype ContentTypeEffect = ContentTypeEffect(context: ParserContext, setsHeader: bool)

  /** The tests of `macroContentType` in order: the first needle found in the arguments decides. */
  const ContextRules: seq<(string, ParserContext)> := [
    ("html", TextContext),
    ("xml", NoneContext(Some("xml"))),
    ("javascript", NoneContext(Some("js"))),
    ("css", NoneContext(Some("css"))),
    ("plain", NoneContext(Some("text")))
  ]

  /** The context of the first rule whose needle `args` contains; `[CONTEXT_NONE]` when none does. */
  function FirstMatch(args: string, rules: seq<(string, ParserContext)>): ParserContext
  {
    if rules == [] then NoneContext(None)
    else if Contains(args, rules[0].0) then rules[0].1
    else FirstMatch(args, rules[1..])
  }

  /** A `/` in front is the first occurrence. */
  lemma SlashAtFront(args: string)
    ensures |args| > 0 && args[0] == '/' ==> StrPos(args, "/") == Some(0)
  {
    if |args| > 0 && args[0] == '/' {
      assert OccursAt(args, "/", 0) by { assert args[0..1] == "/"; }
    }
  }

  /** `macroContentType`: `html` wins over `xml`, `xml` over `javascript`, and so on; a header is set
      when the arguments contain a `/` and do not start with one (`strpos` returning 0 is falsy). */
  function ContentType(args: string): (r: ContentTypeEffect)
    ensures r.setsHeader <==> Contains(args, "/") && args[0] != '/'
  {
    var context :=
      if Contains(args, "html") then TextContext
      else if Contains(args, "xml") then NoneContext(Some("xml"))
      else if Contains(args, "javascript") then NoneContext(Some("js"))
      else if Contains(args, "css") then NoneContext(Some("css"))
      else if Contains(args, "plain") then NoneContext(Some("text"))
      else NoneContext(None);
    var slash := StrPos(args, "/");
    SlashAtFront(args);
    ContentTypeEffect(context, slash.Some? && slash.value != 0)
  }

  /** The chain of tests in `ContentType` is the rule table read top to bottom. */
  lemma ContentTypeFollowsRules(args: string)
    ensures ContentType(args).context == FirstMatch(args, ContextRules)
  {
    var rules := ContextRules;
    assert rules[4..][1..] == [];
    assert FirstMatch(args, rules[4..]) ==
      if Contains(args, "plain") then NoneContext(Some("text")) else NoneContext(None);
    assert rules[3..][1..] == rules[4..];
    assert FirstMatch(args, rules[3..]) ==
      if Contains(args, "css") then NoneContext(Some("css")) else FirstMatch(args, rules[4..]);
    assert rules[2..][1..] == rules[3..];
    assert FirstMatch(args, rules[2..]) ==
      if Contains(args, "javascript") then NoneContext(Some("js")) else FirstMatch(args, rules[3..]);
    assert rules[1..][1..] == rules[2..];
    assert FirstMatch(args, rules[1..]) ==
      if Contains(args, "xml") then NoneContext(Some("xml")) else FirstMatch(args, rules[2..]);
  }

  // ---------------------------------------------------------------- {control}

  /** The render method called: `render<Method>` when the suffix is an identifier (or empty),
      otherwise the dynamic `{"render<Method>"}`. */
  datatype RenderMethod = StaticMethod(name: string) | DynamicMethod(name: string)

  /** `$_ctrl = $control->getWidget(control); ...; $_ctrl->method(params)`; `variable` adds the
      `is_object` test for a control given by a PHP variable; `namedParams` keeps the `array(...)`
      of parameters instead of unwrapping it into positional arguments. */
  datatype ControlCall = ControlCall(control: string, variable: bool, render: RenderMethod, namedParams: bool)

  datatype ControlError = MissingControlName

  /** `macroControl` for `{control name[:method] [params]}`; `args` are the whole arguments. */
  function MacroControl(word: Option<string>, args: string): (r: Result<ControlCall, ControlError>)
    ensures word.None? <==> r == Err(MissingControlName)
    ensures r.Ok? ==>
              var c := r.value;
              && ':' !in c.control
              && (c.variable <==> |c.control| > 0 && c.control[0] == '$')
              && (c.namedParams <==> Contains(args, "=>"))
              && (word.value == c.control ==> c.render.name == "render")
              && (word.value != c.control ==>
                    && |c.control| < |word.value| && word.value[..|c.control|] == c.control
                    && word.value[|c.control|] == ':'
                    && c.render.name == "render" + UcFirst(word.value[|c.control| + 1..]))
              && (c.render.StaticMethod? <==> MatchesIdentifierOrEmpty(c.render.name[6..]))
  {
    match word
    case None => Err(MissingControlName)
    case Some(pair) =>
      var (name, suffix) := SplitFirst(pair, ':');
      var m := if suffix.Some? then UcFirst(suffix.value) else "";
      var render := if MatchesIdentifierOrEmpty(m) then StaticMethod("render" + m) else DynamicMethod("render" + m);
      assert render.name[6..] == m;
      assert suffix.Some? ==> pair[..|name|] == name && pair[|name| + 1..] == suffix.value;
      Ok(ControlCall(name, |name| > 0 && name[0] == '$', render, Contains(args, "=>")))
  }

  // ---------------------------------------------------------------- {ifset #block}

  /** One argument of `isset(...)`: `$_l->blocks["name"]` for `#name`, the word itself otherwise. */
  datatype IssetTerm = BlockTerm(name: string) | ExpressionTerm(expr: string)

  function IssetTermOf(w: string): IssetTerm {
    if |w| > 0 && w[0] == '#' then BlockTerm(w[1..]) else ExpressionTerm(w)
  }

  /** The word a term was made from. */
  function WordOf(t: IssetTerm): string {
    match t
    case BlockTerm(name) => "#" + name
    case ExpressionTerm(expr) => expr
  }

  /** Every word is recoverable from its term: the translation loses nothing. */
  lemma IssetTermRoundTrip(w: string)
    ensures WordOf(IssetTermOf(w)) == w
  {
    if |w| > 0 && w[0] == '#' {
      assert w == [w[0]] + w[1..];
    }
  }

  /** `macroIfset`: declines (FALSE) when the arguments contain no `#`; otherwise the `isset` terms
      of the words, in order. */
  method MacroIfset(args: string, words: seq<string>) returns (r: Option<seq<IssetTerm>>)
    ensures r.None? <==> !Contains(args, "#")
    ensures r.Some? ==> |r.value| == |words|
    ensures r.Some? ==> forall i :: 0 <= i < |words| ==> WordOf(r.value[i]) == words[i]
    ensures r.Some? ==> forall i :: 0 <= i < |words| ==> (r.value[i].BlockTerm? <==> |words[i]| > 0 && words[i][0] == '#')
  {
    if !Contains(args, "#") {
      return None;
    }
    var list: seq<IssetTerm> := [];
    var i := 0;
    while i < |words|
      invariant 0 <= i <= |words|
      invariant |list| == i
      invariant forall j :: 0 <= j < i ==> list[j] == IssetTermOf(words[j])
    {
      var name := words[i];
      list := list + [if |name| > 0 && name[0] == '#' then BlockTerm(name[1..]) else ExpressionTerm(name)];
      i := i + 1;
    }
    forall j | 0 <= j < |words| ensures WordOf(list[j]) == words[j] {
      IssetTermRoundTrip(words[j]);
    }
    r := Some(list);
  }
}
