# UIMacros blocks, in Dafny

A model of the block machinery of the Latte template compiler's `UIMacros`
(`src/Latte/Macros/UIMacros.php`), with proofs about it.

- **Compile time.** The compiler object keeps `namedBlocks` (the static blocks of the
  template, in declaration order) and `extends`. `{block}`, `{define}`, `{snippet}`,
  `{extends}` and `{include #name}` read and update these fields. `finalize` turns them
  into the prolog's block registrations and the choice of support code.
- **Run time.** `$_l->blocks` maps each block name to a stack of implementations, most
  derived first. The stack carries the PHP array's internal pointer: `callBlock`
  rewinds it and `callBlockParent` advances it. The snippet sweep (`renderSnippets`)
  re-renders invalid snippet blocks into the presenter's payload.
- **Small translators.** `{contentType}`, `{control}` and `{ifset #block}`.

Modules:

| file | module | what it holds |
|---|---|---|
| `wrappers.dfy` | `Wrappers` | `Option`, `Result` |
| `php_string.dfy` | `PhpString` | the PHP string built-ins used: truthiness, `ltrim`, `trim`, `strpos`, `ucfirst`, `explode(…, 2)`; the `RE_IDENTIFIER` regex as a byte predicate |
| `php_array.dfy` | `PhpArray` | PHP arrays used as ordered dictionaries: `seq<(K, V)>` with distinct keys; `$a[$k]` and `$a[$k] = $v` |
| `inheritance.dfy` | `Inheritance` | the plan `finalize` derives (registrations, extends initialisation) and the run-time strategy |
| `block_compiler.dfy` | `BlockCompiler` | class `UIMacros` with its two fields and macros; pure step functions over the state; whole-template lemmas |
| `block_registry.dfy` | `BlockRegistry` | class `RenderContext` (`$_l`), stacks with a cursor, `callBlock`, `callBlockParent`, registration order across a chain of templates |
| `snippets.dfy` | `Snippets` | `renderSnippets` over an abstract component |
| `translators.dfy` | `Translators` | `macroContentType`, `macroControl`, `macroIfset` |

Modelling choices:

- **Emitted code is a value.** The PHP code a macro returns is the tagged value
  `Emission` (`NotHandled` for FALSE, `Nothing` for `''`, `ConditionalCall`,
  `SnippetWrap`, …). Each variant records what the code does.
- **Strings are byte strings.** `RE_IDENTIFIER`'s class `\x7F-\xFF` is code points 127
  to 255. The regex's `$` also matches before a final newline, as PCRE's does without
  the D modifier.
- **Truthiness follows PHP.** Where the source tests a string with `if ($x)` or `!$x`,
  only `""` and `"0"` are false. `$node->modifiers === ''` (line 234) is a strict
  comparison, so `"0"` counts as modifiers there. `if ($node->modifiers)` (lines 258,
  300) is a truthiness test, so `"0"` does not count.
- **An anonymous enclosing `{block}` gives the name `""`.** It stops the parent walk of
  `#parent`/`#this` but has no name. PHP then uses NULL, which as an array key is `""`.
- **Registration always appends.** The `function_exists` guard at line 105 only keeps
  the PHP function from being defined twice. The append `$_l->blocks[name][] = …` runs
  on every prolog run, so registering the same template twice pushes the same
  implementation twice. The model follows the code.
- **The pointer stops at the end.** `callBlockParent` advances the pointer even when
  that fails, and `next` never moves it beyond the end. A later append lands under a
  pointer that stands at the end.
- **A nested snippet is not rendered twice.** Each snippet's function starts by validating
  its own name (line 108). The sweep asks `isControlInvalid` again for every block. So a
  snippet rendered inside an earlier refreshed snippet is already valid when the sweep
  reaches it, and it gets no payload entry of its own.
- **`{snippet}` without a name is a static block named `_`.** `{define}` or
  `{block #}` without a name is the error "Missing block name".
- **The `Content-Type` header needs arguments that contain a `/` and do not start with
  one.** `{contentType}` emits the header only when `strpos(args, '/')` is truthy. For
  `/a/b` the first `/` is at position 0, so no header is emitted even though a later
  `/` follows.

## Model

| member | source | states |
|---|---|---|
| BlockCompiler.UIMacros.constructor | src/Latte/Macros/UIMacros.php:38-42 | a new compiler has no static blocks and `extends` NULL |
| BlockCompiler.UIMacros.Initialize | src/Latte/Macros/UIMacros.php:78-82 | resets `namedBlocks` to empty and `extends` to NULL |
| BlockCompiler.ExtendsStep | src/Latte/Macros/UIMacros.php:207-220 | success exactly when the arguments are truthy, the macro is top level and `extends` is NULL; each failure gives its own error; afterwards `extends` is `args != 'none'`; `{extends none}` emits nothing, `{extends auto}` assigns `$layout`, and any other destination assigns the arguments |
| BlockCompiler.UIMacros.MacroExtends | src/Latte/Macros/UIMacros.php:207-220 | the method's result and new fields are those of `ExtendsStep`; on error the fields are unchanged |
| BlockCompiler.StepKeepsExtends | src/Latte/Macros/UIMacros.php:215-218 | no successful directive changes an `extends` that is already set |
| BlockCompiler.ExtendsIsNeverOverwritten | src/Latte/Macros/UIMacros.php:215-218 | over a whole successful compilation, once `extends` is set it keeps its value |
| BlockCompiler.BlockNameShape | src/Latte/Macros/UIMacros.php:231-240 | a snippet's name is `_` plus the rest; the rest is the word with all leading `#` removed and nothing else changed; the name is empty exactly for a non-snippet whose word is all `#` |
| BlockCompiler.SnippetTag | src/Latte/Macros/UIMacros.php:263-264 | the wrapping tag is the second word with its angle brackets trimmed when that is truthy, and `div` otherwise |
| BlockCompiler.OpenBlockCases | src/Latte/Macros/UIMacros.php:229-255 | an anonymous `{block}` emits nothing, or starts capture when there are modifiers; a non-identifier name opens a dynamic block, emits its start and leaves `namedBlocks` alone; a new static name is appended as open and emits the static emission; an empty name is the error "Missing block name"; the result is an error exactly for an empty name or an already declared static name |
| BlockCompiler.StaticEmissionCases | src/Latte/Macros/UIMacros.php:254-280 | the five emission cases: a snippet is wrapped in its tag, carries its id and calls its block with the template parameters; a define emits nothing; a nested block is called inline with the defined variables; a top-level block emits nothing exactly when `extends` was already set; otherwise it is called under `if (!$_l->extends)` with the defined variables; each call captures its output exactly when the modifiers are truthy |
| BlockCompiler.DynamicNamesBypassUniqueness | src/Latte/Macros/UIMacros.php:242-249 | a name that fails the identifier grammar always opens a dynamic block, whatever `namedBlocks` holds |
| BlockCompiler.RedeclaringStaticNameFails | src/Latte/Macros/UIMacros.php:251-253 | redeclaring a static name is the error "Cannot redeclare static block" |
| BlockCompiler.UIMacros.MacroBlock | src/Latte/Macros/UIMacros.php:229-281 | the method's node data, emission, error and new fields are those of `OpenBlock`; `namedBlocks` stays well formed |
| BlockCompiler.StaticDeclaration | src/Latte/Macros/UIMacros.php:251-255 | a directive declaring a known static name fails; a successful one records its name |
| BlockCompiler.StepKeepsNames | src/Latte/Macros/UIMacros.php:255 | no directive removes a declared static name, and `namedBlocks` keeps distinct keys |
| BlockCompiler.KnownStaticNameFails | src/Latte/Macros/UIMacros.php:251-253 | a compilation that declares an already known static name again fails |
| BlockCompiler.StaticNamesAreUnique | src/Latte/Macros/UIMacros.php:251-255 | in a template that compiles, no two directives declare the same static name |
| BlockCompiler.CloseBlock | src/Latte/Macros/UIMacros.php:290-303 | closing a static block stores its body under its name and clears the node's content; closing a dynamic block leaves the state alone and calls the front of the stack; an anonymous block applies its modifiers exactly when they are truthy |
| BlockCompiler.ClosingStoresBody | src/Latte/Macros/UIMacros.php:292-295 | after closing, the name reads back the body, every other name keeps its presence and value, and keys stay distinct |
| BlockCompiler.UIMacros.MacroBlockEnd | src/Latte/Macros/UIMacros.php:290-303 | the method's emission, new content and new fields are those of `CloseBlock` |
| BlockCompiler.NearestScope | src/Latte/Macros/UIMacros.php:168-173 | the index found is the first enclosing node that is a `block` or has a name; none is found only when no enclosing node is one |
| BlockCompiler.IncludeEmission | src/Latte/Macros/UIMacros.php:177-188 | `#parent` calls the parent implementation; otherwise a static block of this template is called from the front of its stack unchecked, and any other name through the checked `callBlock`; modifiers capture the output |
| BlockCompiler.IncludeCases | src/Latte/Macros/UIMacros.php:155-189 | a word without `#` is declined; a name that is not `$?IDENT` is rejected; `#parent`/`#this` outside a block is an error, and inside one they name the nearest enclosing block; any other name is included as itself |
| BlockCompiler.UIMacros.MacroInclude | src/Latte/Macros/UIMacros.php:155-189 | the method, whose loop walks the enclosing nodes, returns exactly `Include` |
| Inheritance.SupportOf | src/Latte/Macros/UIMacros.php:114-121 | the extending section is left out exactly when there are no static blocks and `extends` is not TRUE; without `{extends}` the caller's layout decides; `{extends}` fixes the value |
| BlockCompiler.UIMacros.Finalize | src/Latte/Macros/UIMacros.php:98-141 | the method's loop produces exactly the plan `PlanOf` of the fields |
| Inheritance.ChooseStrategy | src/Latte/Macros/UIMacros.php:123-140 | delegation to the ancestor happens exactly when the extending section is present and `$_l->extends` is true; otherwise the sweep runs exactly on an AJAX request for an invalid control; otherwise the template renders in place |
| Inheritance.ExplicitExtendsAlwaysDelegates | src/Latte/Macros/UIMacros.php:114-128 | `{extends x}` with `x` not `none` always delegates, even on an AJAX request |
| Inheritance.ExtendsNoneNeverDelegates | src/Latte/Macros/UIMacros.php:117-128 | `{extends none}` never delegates, whatever layout the caller set |
| Inheritance.LayoutNeedsStaticBlocks | src/Latte/Macros/UIMacros.php:114-128 | without `{extends}`, the caller's layout is used exactly when the template has a static block |
| BlockRegistry.Pushed | src/Latte/Macros/UIMacros.php:105 | `[] =` appends the implementation and keeps the earlier entries; the pointer does not move, so the entry under the pointer stays the same, and a pointer that stood past the end now stands on the new entry |
| BlockRegistry.Advance | src/Latte/Macros/UIMacros.php:435 | `next` moves the pointer one step but never past the end, and yields the entry under it or FALSE past the end |
| BlockRegistry.RenderContext.Register | src/Latte/Macros/UIMacros.php:105 | appends the implementation to the stack of its name, creating the stack when absent; every stack stays non-empty with the pointer in range |
| BlockRegistry.RegisterOne | src/Latte/Macros/UIMacros.php:105 | one registration grows only the stack of its own name, by exactly one entry |
| BlockRegistry.RegisterAllAppends | src/Latte/Macros/UIMacros.php:100-111 | each stack grows by the implementations registered under its name, in order, however often a name recurs |
| BlockRegistry.RenderContext.RunPrologue | src/Latte/Macros/UIMacros.php:100-111 | the prolog's loop leaves the registry that `RegisterAll` describes |
| BlockRegistry.RegisteredOnce | src/Latte/Macros/UIMacros.php:100-111 | a compiled template registers each of its static blocks exactly once and nothing else |
| BlockRegistry.RegisterTemplate | src/Latte/Macros/UIMacros.php:100-111 | running one template's prolog adds its own implementation to exactly the stacks of the blocks it declares |
| BlockRegistry.RegisterChainAppends | src/Latte/Macros/UIMacros.php:100-111 | over a chain of templates, each stack lists the templates declaring that block in prolog order |
| BlockRegistry.OverrideOrder | src/Latte/Macros/UIMacros.php:100-111 | descendants run their prolog first, so a block's stack lists its declarers from the most derived to the oldest |
| BlockRegistry.RenderContext.CallBlock | src/Latte/Macros/UIMacros.php:415-422 | an absent or empty stack is the error "undefined block" and changes nothing; otherwise the front implementation is called and the pointer rewound to 0 |
| BlockRegistry.RenderContext.CallBlockParent | src/Latte/Macros/UIMacros.php:433-439 | an absent or empty stack is the error "undefined parent block"; otherwise the pointer advances as `next` does, and the call gets the entry there or fails past the end |
| BlockRegistry.WalkFromFront | src/Latte/Macros/UIMacros.php:435 | after a rewind, `k` calls of `next` leave the pointer at `k`, or at the end |
| BlockRegistry.ParentCallsWalkTheStack | src/Latte/Macros/UIMacros.php:420-439 | after `callBlock`, the `k`-th parent call gets the `k`-th older implementation; on a stack of `n` entries every call from the `n`-th on fails |
| BlockRegistry.AfterParentCalls | src/Latte/Macros/UIMacros.php:415-439 | after `callBlock` and `k` parent calls on a non-empty stack, the stack under the name is rewound and walked `k` times, keys stay distinct, and every other stack is unchanged |
| BlockRegistry.ParentCallsOnRegistry | src/Latte/Macros/UIMacros.php:415-439 | composed over the registry, after `callBlock` the `k`-th parent call finds the `k`-th older implementation, and on a stack of `n` entries every call from the `n`-th on fails |
| Snippets.SnippetIdInjective | src/Latte/Macros/UIMacros.php:454 | different snippet names of one control get different payload keys |
| Snippets.SweepStep | src/Latte/Macros/UIMacros.php:447-455 | one block of the sweep sets at most one payload entry, and the sweep goes on with the remaining blocks and what the control still reports invalid |
| Snippets.ProducesAt | src/Latte/Macros/UIMacros.php:447-454 | a payload key is produced exactly when some snippet block with that id is still reported invalid when the sweep reaches it |
| Snippets.ValidatedStaysValid | src/Latte/Macros/UIMacros.php:108 | what the control reports invalid only shrinks during the sweep, and a refreshed block's own name and the snippets nested in it are not reported invalid at any later block |
| Snippets.NestedSnippetNotRefreshed | src/Latte/Macros/UIMacros.php:108 | a snippet rendered inside an earlier refreshed block is not rendered again by the sweep |
| Snippets.SweepKeys | src/Latte/Macros/UIMacros.php:446-456 | after the sweep, the payload has an entry exactly for its old keys and the ids of the snippet blocks the control still reports invalid when the sweep reaches them |
| Snippets.SweepKeepsOthers | src/Latte/Macros/UIMacros.php:446-456 | payload entries that no refreshed block produces keep their values |
| Snippets.FirstKeyNotProducedLater | src/Latte/Macros/UIMacros.php:447-454 | two snippet blocks of one registry never write the same payload entry |
| Snippets.SweepRendersFront | src/Latte/Macros/UIMacros.php:451-454 | each snippet block still invalid when reached has its entry set to the output of the front, most derived, implementation of its stack |
| Snippets.InvalidChildrenMembers | src/Latte/Macros/UIMacros.php:457-463 | a direct child is rendered exactly when it is a control that is invalid |
| Snippets.CollectInvalidChildren | src/Latte/Macros/UIMacros.php:458-462 | the loop over the children collects exactly `InvalidChildren`, in order |
| Snippets.RenderSnippets | src/Latte/Macros/UIMacros.php:443-464 | the payload becomes the sweep `SweepBlocks` of the registry, with the invalid set shrinking by what each rendered block validates; the children rendered are the invalid child controls, and none when the component is not a control |
| Translators.ContentType | src/Latte/Macros/UIMacros.php:396-399 | the header is set exactly when the arguments contain a `/` and do not start with one |
| Translators.ContentTypeFollowsRules | src/Latte/Macros/UIMacros.php:377-394 | the chain of substring tests selects the context of the first matching rule of the table html, xml, javascript, css, plain |
| Translators.MacroControl | src/Latte/Macros/UIMacros.php:327-345 | a missing name is an error; the control name is the word up to the first `:` and the method `render` plus the rest with its first letter upper-cased; the method is static exactly when that rest is an identifier or empty; a variable control is tested with `is_object`; named parameters are kept exactly when the arguments contain `=>` |
| Translators.IssetTermRoundTrip | src/Latte/Macros/UIMacros.php:317 | every word can be recovered from its `isset` term |
| Translators.MacroIfset | src/Latte/Macros/UIMacros.php:310-320 | the macro declines exactly when the arguments contain no `#`; otherwise one term per word, in order, a block reference exactly for the words starting with `#` |
| PhpString.TrimLeftShape | src/Latte/Macros/UIMacros.php:162 | `ltrim` keeps a suffix of its input and drops only the given character |
| PhpString.TrimAngles | src/Latte/Macros/UIMacros.php:263 | `trim(…, '<>')` leaves no angle bracket at either end |
| PhpString.TrimAnglesShape | src/Latte/Macros/UIMacros.php:263 | `trim` keeps a contiguous piece of its input, drops only angle brackets before and after it, and keeps all of a word without angle brackets |
| PhpString.StrPos | src/Latte/Macros/UIMacros.php:312 | `strpos` finds the first occurrence, and FALSE exactly when there is none |
| PhpString.UcFirst | src/Latte/Macros/UIMacros.php:335 | `ucfirst` maps a lower-case first letter to the corresponding upper-case letter and changes nothing else |
| PhpString.SplitFirst | src/Latte/Macros/UIMacros.php:333 | `explode(':', s, 2)` splits at the first separator: the head contains none, and head, separator and tail give back the input |
| PhpArray.Put | src/Latte/Macros/UIMacros.php:255 | assigning to a present key keeps the key order; a new key is appended at the end |
| PhpArray.PutWellFormed | src/Latte/Macros/UIMacros.php:255 | an assignment keeps keys distinct |
| PhpArray.PutGetSame | src/Latte/Macros/UIMacros.php:294 | after `$a[$k] = $v`, `$a[$k]` is `$v` |
| PhpArray.PutGetOther | src/Latte/Macros/UIMacros.php:294 | after `$a[$k] = $v`, every other key keeps its presence and value |

## Left out

- The md5-derived function names (lines 102 and 244). They become the injective pair `Impl(templateId, block)`.
- The literal PHP code, `$writer->write`, `formatArgs`, `formatWord`, `formatArray`, the `%modify` expansion and the `PHP_VERSION_ID` branch. Emitted code is the tagged `Emission`. A `{control}` name is kept as written, and a variable control is recognised by its leading `$`, which is what `formatWord` keeps.
- Output buffering (`ob_start`, `ob_get_clean`, `ob_end_clean`). A rendered block's output is the parameter `render`, a function from implementation to string.
- What a block implementation, `$child->render()` and `includeTemplate(...)->render()` do. Their effects are outside this code. `RenderSnippets` returns the children it renders.
- `validateControl` in a snippet's function matters only to the sweep, where `InvalidAfter` models it. Outside the sweep, the registration carries only the flag `validatesSnippet`.
- `macroLink`, `@href`, `macroIfCurrent`, `{status}`, `{includeblock}` and `install`: thin wrappers over presenter links, the HTTP response, template loading and parser set-up.
- The automatic `{/block}` at the start of `finalize` (lines 93-96), which calls back into the parser.
- The regex engine behind `Strings::match`. It is replaced by byte predicates for the three patterns used.
- The macro node tree. `{include}` receives the enclosing nodes as a list, nearest first. Other macros receive the word they fetch and whether they are nested.
- The template body reassigning `$_l->extends` between prolog and epilog. `ChooseStrategy` uses the value the prolog sets.
- BlockCompiler.UIMacros.MacroInclude: the walk over enclosing nodes is a loop over that list, not over `parentNode` links.
- Snippets.RenderSnippets: a child's `invalid` flag is the answer `isControlInvalid()` gives in the children loop, after the block loop. A `{control}` rendered inside a refreshed snippet validates that child first (line 343). The model takes the flag as given and does not derive it from the snippets rendered.
- Snippets.SnippetId: `getSnippetId` is taken to be a control-specific prefix followed by the name, which makes it injective. The control class is not part of this model, and the sweep lemmas about distinct payload keys rely on this.
- Snippets.InvalidAfter: `validateControl(name)` is taken to make `isControlInvalid(name)` false. A control invalidated as a whole, whose named snippets stay invalid after validation, is not modelled. What a block body's nested snippets validate is the parameter `nested`.
- Translators.ContentType: the parser context it selects is stated by `ContentTypeFollowsRules`, not by its own contract.
