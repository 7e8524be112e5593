/**
 * What `finalize` decides: the block registrations of the prolog and the run-time
 * choice between rendering a template in place, handing over to its ancestor
 * (template extending) and handing over to the snippet sweep (AJAX requests).
 */
module Inheritance {
  import opened Wrappers
  import opened PhpArray

  /** A slot of `namedBlocks`: TRUE while the block is open, the captured body once it is closed. */
  datatype BlockState = Open | Closed(body: string)

  /**
   * The PHP function generated for a block. The source names it `_lb` followed by a hash
   * of the template id and the block name; the hash is abstracted to this injective pair.
   */
  datatype Impl = Impl(templateId: string, block: string)

  /** One block of the prolog: its function is defined and appended to `$_l->blocks[name]`. */
  datatype Registration = Registration(name: string, impl: Impl, body: BlockState, validatesSnippet: bool)

  /** How the prolog initialises `$_l->extends`. */
  datatype ExtendsInit =
    | Fixed(value: bool)   // `{extends}` was seen: TRUE, or FALSE for `{extends none}`
    | FromTemplate         // no `{extends}`: the layout the caller put in `$template->_extends`, if any

  /**
   * The prolog's plan: the registrations, and whether the "template extending and
   * snippets support" section is emitted (with its initialisation of `$_l->extends`)
   * or only the "snippets support" section.
   */
  datatype Plan = Plan(registrations: seq<Registration>, support: Option<ExtendsInit>)

  datatype Strategy = RenderInPlace | DelegateToAncestor | DelegateToSweep

  /** Static block names of snippets start with an underscore. */
  predicate IsSnippetName(name: string) {
    |name| > 0 && name[0] == '_'
  }

  function RegistrationOf(templateId: string, entry: (string, BlockState)): (r: Registration)
    ensures r.name == entry.0 && r.body == entry.1
    ensures r.impl == Impl(templateId, entry.0)
    ensures r.validatesSnippet <==> IsSnippetName(entry.0)
  {
    Registration(entry.0, Impl(templateId, entry.0), entry.1, IsSnippetName(entry.0))
  }

  /** The prolog's registrations: one per static block, in declaration order. */
  function Registrations(templateId: string, namedBlocks: seq<(string, BlockState)>): (regs: seq<Registration>)
    ensures |regs| == |namedBlocks|
    ensures forall i :: 0 <= i < |namedBlocks| ==> regs[i] == RegistrationOf(templateId, namedBlocks[i])
  {
    seq(|namedBlocks|, i requires 0 <= i < |namedBlocks| => RegistrationOf(templateId, namedBlocks[i]))
  }

  /** Whether the extending section is emitted, and how it initialises `$_l->extends`: it is left out
      only for a template without static blocks that is not known to extend; a template without
      `{extends}` takes the caller's layout; `{extends}` fixes the value. */
  function SupportOf(namedBlocks: seq<(string, BlockState)>, extending: Option<bool>): (s: Option<ExtendsInit>)
    ensures s.None? <==> namedBlocks == [] && extending != Some(true)
    ensures s == Some(FromTemplate) <==> namedBlocks != [] && extending.None?
    ensures forall b :: s == Some(Fixed(b)) <==> extending == Some(b) && (b || namedBlocks != [])
  {
    if namedBlocks != [] || extending == Some(true) then
      Some(if extending.Some? then Fixed(extending.value) else FromTemplate)
    else
      None
  }

  /** The plan `finalize` derives from the compiler's `namedBlocks` and `extends` (here `extending`, `extends` being a Dafny keyword). */
  function PlanOf(templateId: string, namedBlocks: seq<(string, BlockState)>, extending: Option<bool>): Plan {
    Plan(Registrations(templateId, namedBlocks), SupportOf(namedBlocks, extending))
  }

  /** The value of `$_l->extends` the prolog tests, given whether the caller supplied a layout. */
  function ExtendsAtRuntime(init: ExtendsInit, layout: bool): bool {
    match init
    case Fixed(b) => b
    case FromTemplate => layout
  }

  /**
   * The prolog's run-time decision. `layout` is `!empty($template->_extends)`;
   * `ajaxInvalid` is `isset($presenter, $control) && $presenter->isAjax() && $control->isControlInvalid()`.
   * Handing over to the ancestor comes first, the sweep second, rendering in place last.
   */
  function ChooseStrategy(plan: Plan, layout: bool, ajaxInvalid: bool): (s: Strategy)
    ensures s == DelegateToAncestor <==> plan.support.Some? && ExtendsAtRuntime(plan.support.value, layout)
    ensures s == DelegateToSweep <==> ajaxInvalid && s != DelegateToAncestor
    ensures s == RenderInPlace <==> !ajaxInvalid && s != DelegateToAncestor
  {
    match plan.support
    case None => if ajaxInvalid then DelegateToSweep else RenderInPlace
    case Some(init) =>
      if ExtendsAtRuntime(init, layout) then DelegateToAncestor
      else if ajaxInvalid then DelegateToSweep
      else RenderInPlace
  }

  /** A template with `{extends <something other than none>}` always hands over to its ancestor,
      even on an AJAX request for an invalid control. */
  lemma ExplicitExtendsAlwaysDelegates(templateId: string, namedBlocks: seq<(string, BlockState)>,
                                       layout: bool, ajaxInvalid: bool)
    ensures ChooseStrategy(PlanOf(templateId, namedBlocks, Some(true)), layout, ajaxInvalid) == DelegateToAncestor
  {
  }

  /** `{extends none}` suppresses the caller's layout. */
  lemma ExtendsNoneNeverDelegates(templateId: string, namedBlocks: seq<(string, BlockState)>,
                                  layout: bool, ajaxInvalid: bool)
    ensures ChooseStrategy(PlanOf(templateId, namedBlocks, Some(false)), layout, ajaxInvalid) != DelegateToAncestor
  {
  }

  /** Without `{extends}`, the caller's layout is used exactly when the template declares a static block. */
  lemma LayoutNeedsStaticBlocks(templateId: string, namedBlocks: seq<(string, BlockState)>,
                                layout: bool, ajaxInvalid: bool)
    ensures ChooseStrategy(PlanOf(templateId, namedBlocks, None), layout, ajaxInvalid) == DelegateToAncestor
            <==> layout && namedBlocks != []
  {
  }
}
