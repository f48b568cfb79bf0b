# Vue 3 template compiler and SSR buffer, modelled in Dafny

This project models the core of the Vue 3 template compiler and proves
properties of it. That core is the production build of `@vue/compiler-core`, and
the model covers these parts of it:

- **Positions.** The line/column/offset bookkeeping: `advancePositionWithMutation`,
  `getInnerRange`, `advanceBy`, `advanceSpaces` and `getSelection`.
- **Parser.** `baseParse` and `parseChildren` with the tag-open dispatch, then
  `parseElement`/`parseTag`/`parseAttributes`/`parseAttribute`, interpolations,
  text with the default entity decoder, comments, bogus comments and CDATA.
  Errors are an accumulated list of codes and positions.
- **Node list rules.** `pushNode` (comments dropped, adjacent text merged) and
  whitespace condensation, including the leading-newline rule of `<pre>`.
- **AST helpers.** `findDir`, `findProp`, `injectProp`, `toValidAssetId`,
  `hasScopeRef`, `isCoreComponent` and `isMemberExpression`.
- **Transform context and traversal.** Helpers as an insertion-ordered set,
  the reference-counted scope table, `hoist` and `cache`, and the plugin walk
  with replace/remove and reverse-order exit callbacks. Also
  `createStructuralDirectiveTransform` and the root codegen node.
- **Transforms.**
  - `v-if`/`v-else-if`/`v-else`, `v-for` (with `parseForExpression` and
    `createForLoopParams`), slots (`buildSlots`) and `v-model`.
  - Adjacent-text merging (`transformText`), `buildProps` with its patch
    flags, `dedupeProperties` and `buildDirectiveArgs`.
  - `stringifyDynamicPropNames`, `<slot>` outlets, static hoisting, and the
    `processExpression` fast path for single identifiers.
- **Code generator printer.** Literal text, property keys, nullable
  arguments, template literals, asset and hoist declarations, and the
  function/module preambles.

From `@vue/server-renderer`, the model covers the string buffer
(`createBuffer`/`unrollBuffer`), `isRenderableValue`, `ssrRenderAttr`, the
key filtering of `ssrRenderAttrs`, and `ssrRenderList`.

Strings are `seq<char>`, integers are unbounded, and patch flags are `bv32`.
Every regular expression of the source is restated as a scanner whose
behaviour is derived from the regex's backtracking semantics. The comments
in each module say how. Parse steps are methods over a parser state
`Ctx(original, offset, inPre, inVPre, errors)`. The cursor position is
always the one recomputed from the original text at `offset`.

Two bugs in the parser's flag handling are documented under "## Findings".
The parser methods take an `asWritten` switch that selects the program's
behaviour. The rest of the model uses the corrected behaviour
(`asWritten == false`).

Source paths below are relative to the repository root.

## Model

| member | source | states |
|---|---|---|
| Ast.VNodeCallHelpers | lib/vue3/compiler-core/dist/compiler-core.cjs.prod.js:167-192 | a block call registers openBlock and createBlock, a plain call createVNode, and withDirectives exactly when there are directives |
| AstUtils.FindDir | lib/vue3/compiler-core/dist/compiler-core.cjs.prod.js:392-401 | a directive is found iff some prop matches the name (with an expression unless empty ones are allowed), and the one found is the first match |
| AstUtils.FindProp | lib/vue3/compiler-core/dist/compiler-core.cjs.prod.js:402-416 | a prop is found iff some attribute or `v-bind:name` matches, it is the first such, and only a directive is found when dynamic ones are asked for |
| AstUtils.MemberExpressionOfIdentifier | lib/vue3/compiler-core/dist/compiler-core.cjs.prod.js:346-351 | text without `.` or `[` is a member expression exactly when it is a non-empty simple identifier |
| AstUtils.CoreComponent | lib/vue3/compiler-core/dist/compiler-core.cjs.prod.js:324-337 | a core component is recognised exactly for the eight camel-case and hyphenated tag names, and only the four built-ins are returned |
| AstUtils.ToValidAssetId | lib/vue3/compiler-core/dist/compiler-core.cjs.prod.js:489-492 | the identifier is `_kind_` followed by the name, one character per name character, with word characters kept and every other character replaced |
| AstUtils.InjectInto | lib/vue3/compiler-core/dist/compiler-core.cjs.prod.js:443-488 | missing or string props become a one-entry object; an object gains the prop in front unless it already has that key; a mergeProps call gains the prop in front of its first argument when that is an object, and otherwise a new one-entry object as its first argument; any other expression is wrapped as `mergeProps({ prop }, props)`, the only case needing the helper |
| AstUtils.InjectProp | lib/vue3/compiler-core/dist/compiler-core.cjs.prod.js:443-488 | a vnode call gets the prop injected into its props, a slot-render call into its third argument, and any other node is left unchanged |
| AstUtils.ScopeRefSound | lib/vue3/compiler-core/dist/compiler-core.cjs.prod.js:493-538 | hasScopeRef holds exactly when some identifier the node mentions is a scope variable |
| Positions.AdvancePosition | lib/vue3/compiler-core/dist/compiler-core.cjs.prod.js:369-385 | the offset grows by n, the line grows by the newlines among the first n characters, and the column stays at least 1 |
| Positions.AdvanceCompose | lib/vue3/compiler-core/dist/compiler-core.cjs.prod.js:364-385 | advancing by a and then by b over the rest equals advancing by a+b |
| Positions.AdvanceReadsPrefix | lib/vue3/compiler-core/dist/compiler-core.cjs.prod.js:369-385 | advancing reads only the first n characters of the source |
| Positions.InnerRange | lib/vue3/compiler-core/dist/compiler-core.cjs.prod.js:352-363 | the inner range starts offset characters in and ends at the given length, or at the outer end when none is given |
| Positions.InnerRangeConsistent | lib/vue3/compiler-core/dist/compiler-core.cjs.prod.js:352-363 | an inner range of a consistent location is again consistent with the template: its positions and source agree with the text |
| Strings.TrimFacts | lib/vue3/compiler-core/dist/compiler-core.cjs.prod.js:1083 | a trimmed string is empty exactly when the input is all whitespace, and is the slice after the leading whitespace |
| Strings.IndexOf | lib/vue3/compiler-core/dist/compiler-core.cjs.prod.js:2804 | the result is the first occurrence at or after the clamped start, or -1 when there is none |
| Strings.JsonRoundTrip | lib/vue3/compiler-core/dist/compiler-core.cjs.prod.js:2051-2057 | the JSON string literal of any string reads back as that string |
| Strings.SplitJoin | lib/vue3/compiler-core/dist/compiler-core.cjs.prod.js:1022 | splitting the join of separator-free pieces gives back the pieces |
| Strings.JoinSplit | lib/vue3/compiler-core/dist/compiler-core.cjs.prod.js:1022 | joining the pieces of a split with the separator gives back the string |
| Strings.ParseIntOfIntToString | lib/vue3/compiler-core/dist/compiler-core.cjs.prod.js:1368-1372 | parseInt of a decimal numeral, followed by anything that is not a digit, reads back the number |
| Entities.Decode | lib/vue3/compiler-core/dist/compiler-core.cjs.prod.js:539-546 | decoding never lengthens the text and leaves text without `&` unchanged |
| Entities.DecodeEscape | lib/vue3/compiler-core/dist/compiler-core.cjs.prod.js:539-546 | decoding the escaped form of any text gives back the text |
| Entities.EscapedAmpersandsOpenReferences | lib/vue3/compiler-core/dist/compiler-core.cjs.prod.js:539-546 | in escaped text every `&` starts one of the five default named references |
| ParserContext.Start | lib/vue3/compiler-core/dist/compiler-core.cjs.prod.js:562-576 | a fresh context is valid, holds the whole template and sits at line 1, column 1, offset 0 |
| ParserContext.AdvanceBy | lib/vue3/compiler-core/dist/compiler-core.cjs.prod.js:1159-1163 | advancing consumes exactly n characters and changes neither the errors nor the flags |
| ParserContext.AdvanceByCursor | lib/vue3/compiler-core/dist/compiler-core.cjs.prod.js:1159-1163 | the cursor after advancing is the old cursor moved over the n consumed characters |
| ParserContext.AdvanceSpaces | lib/vue3/compiler-core/dist/compiler-core.cjs.prod.js:1164-1169 | exactly the leading run of HTML whitespace is consumed |
| ParserContext.EmitError | lib/vue3/compiler-core/dist/compiler-core.cjs.prod.js:1173-1183 | one error is appended at the cursor shifted by the given column offset, and nothing is consumed |
| ParserContext.Selection | lib/vue3/compiler-core/dist/compiler-core.cjs.prod.js:1145-1152 | the selection runs from the given offset to the cursor and is consistent with the template |
| ParserContext.ParseTextData | lib/vue3/compiler-core/dist/compiler-core.cjs.prod.js:1128-1140 | n characters are consumed, and raw text, CDATA or text without `&` is returned verbatim |
| Parser.TopLevelEnd | lib/vue3/compiler-core/dist/compiler-core.cjs.prod.js:1184-1212 | at the top level in DATA mode, parsing ends exactly at the end of input |
| Parser.EndTagOpenIsTagOpen | lib/vue3/compiler-core/dist/compiler-core.cjs.prod.js:1213-1218 | text that starts with a matching end tag also opens an end tag |
| Parser.Classify | lib/vue3/compiler-core/dist/compiler-core.cjs.prod.js:581-651 | an interpolation is read exactly at the open delimiter in DATA/RCDATA outside v-pre, and markup only in DATA at `<`; each move's guard holds, and anything else is text |
| Parser.DelimiterInVPre | lib/vue3/compiler-core/dist/compiler-core.cjs.prod.js:585-587 | the same `{{ a }}` is an interpolation outside v-pre and plain text inside it |
| Parser.TextEnd | lib/vue3/compiler-core/dist/compiler-core.cjs.prod.js:1104-1127 | text runs to the first point where `<`, the open delimiter (or `]]>` in CDATA) starts, and is never empty |
| Parser.ParseText | lib/vue3/compiler-core/dist/compiler-core.cjs.prod.js:1104-1127 | the text node covers exactly the consumed characters and holds them verbatim when nothing needs decoding |
| Parser.FindClose | lib/vue3/compiler-core/dist/compiler-core.cjs.prod.js:746 | the result is the first `-->` or `--!>` at or after the start, or -1 when there is none |
| Parser.ParseComment | lib/vue3/compiler-core/dist/compiler-core.cjs.prod.js:742-777 | an unclosed comment consumes the rest and reports EOF_IN_COMMENT; a closed one reports abrupt closing, `--!>` and each nested `<!--` at its own position |
| Parser.ParseBogusComment | lib/vue3/compiler-core/dist/compiler-core.cjs.prod.js:778-796 | a bogus comment runs to the first `>` (or the end), its content skips `<!`/`<?`/`</`, and no error is added |
| Parser.TrimOffsets | lib/vue3/compiler-core/dist/compiler-core.cjs.prod.js:1082-1089 | the trimmed expression sits at the located start offset and ends before the raw end |
| Parser.ParseInterpolation | lib/vue3/compiler-core/dist/compiler-core.cjs.prod.js:1069-1103 | a missing close delimiter reports X_MISSING_INTERPOLATION_END and yields no node; otherwise the expression location matches its trimmed content in the template |
| Attributes.AttrNameLength | lib/vue3/compiler-core/dist/compiler-core.cjs.prod.js:945 | an attribute name takes at least one character, then runs to the first whitespace, `/`, `>` or `=` |
| Attributes.MatchDirective | lib/vue3/compiler-core/dist/compiler-core.cjs.prod.js:975 | a directive name, an argument without `.` and a non-empty modifier tail are matched as the directive syntax demands |
| Attributes.ArgContent | lib/vue3/compiler-core/dist/compiler-core.cjs.prod.js:980-988 | an argument is static unless it starts with `[`; a dynamic one loses its brackets and is flagged when it does not end in `]` |
| Attributes.DirectiveRoundTrip | lib/vue3/compiler-core/dist/compiler-core.cjs.prod.js:974-1024 | writing a directive in long or shorthand form and parsing the name gives back the directive, its argument and its modifiers |
| Attributes.ParseAttributeValue | lib/vue3/compiler-core/dist/compiler-core.cjs.prod.js:1037-1068 | a value exists iff the text starts with a quote or an unquoted value character; it is quoted iff it starts with a quote, and its location covers what was consumed |
| Attributes.DirectiveArg | lib/vue3/compiler-core/dist/compiler-core.cjs.prod.js:977-996 | a static argument keeps its text and is constant; an unclosed `[` adds exactly one error |
| Attributes.BuildDirective | lib/vue3/compiler-core/dist/compiler-core.cjs.prod.js:1004-1024 | the directive carries the matched name and modifiers, and has an expression iff there was a value and an argument iff one was matched |
| Attributes.ParseAttribute | lib/vue3/compiler-core/dist/compiler-core.cjs.prod.js:942-1036 | an attribute consumes its name and value; inside v-pre it is always a plain attribute, otherwise a directive exactly when the name has directive syntax |
| Attributes.SkipSolidus | lib/vue3/compiler-core/dist/compiler-core.cjs.prod.js:922-927 | a stray `/` is consumed together with the whitespace after it |
| Attributes.ParseAttributes | lib/vue3/compiler-core/dist/compiler-core.cjs.prod.js:916-941 | reading stops at `>` or `/>` (or the end); an end tag yields no props, and inside v-pre every prop is a plain attribute |
| ParserTree.TagName | lib/vue3/compiler-core/dist/compiler-core.cjs.prod.js:843-844 | the tag name starts with a letter and runs to the first whitespace, `/` or `>` |
| ParserTree.WithoutName | lib/vue3/compiler-core/dist/compiler-core.cjs.prod.js:865 | removing `v-pre` keeps every other prop and nothing else |
| ParserTree.ClassifyTag | lib/vue3/compiler-core/dist/compiler-core.cjs.prod.js:879-903 | an element inside v-pre or a custom element is plain; `slot` is an outlet; a template is a wrapper exactly with a structural directive; otherwise the component rules apply |
| ParserTree.PreAfterTag | lib/vue3/compiler-core/dist/compiler-core.cjs.prod.js:854-856 | only a start tag that is a pre tag turns pre mode on; an end tag leaves it alone |
| ParserTree.StrayPreEndTagAsWritten | lib/vue3/compiler-core/dist/compiler-core.cjs.prod.js:854-856 | as written, a stray `</pre>` outside any pre element turns pre mode on, which the corrected rule does not |
| ParserTree.ParseTag | lib/vue3/compiler-core/dist/compiler-core.cjs.prod.js:840-915 | the element has the scanned tag name, its namespace and a classification from its props; the pre flag follows the chosen rule, and v-pre turns on only once the `v-pre` attribute is dropped |
| ParserTree.LeaveElementRestores | lib/vue3/compiler-core/dist/compiler-core.cjs.prod.js:799-833 | leaving an element restores whatever pre and v-pre state was in force before it |
| ParserTree.SelfClosingVPreAsWritten | lib/vue3/compiler-core/dist/compiler-core.cjs.prod.js:805-807 | as written, a self-closing element carrying v-pre leaves v-pre on for the rest of the template, which the corrected rule does not |
| ParserTree.CloseElement | lib/vue3/compiler-core/dist/compiler-core.cjs.prod.js:815-826 | a matching end tag is consumed; otherwise X_MISSING_END_TAG is reported, at the start tag, or with EOF_IN_SCRIPT_HTML_COMMENT_LIKE_TEXT for a script whose body opens a comment |
| ParserTree.ParseElement | lib/vue3/compiler-core/dist/compiler-core.cjs.prod.js:797-835 | the element covers its text, its children lie in order inside it, and a void or self-closing one has none; with the corrected rules the parser flags are restored afterwards, and as written a void or self-closing element leaves its own flags on |
| ParserTree.ParseCData | lib/vue3/compiler-core/dist/compiler-core.cjs.prod.js:731-741 | the CDATA children lie between `<![CDATA[` and the consumed `]]>`, or the section runs to the end with EOF_IN_CDATA |
| ParserTree.ParseChildren | lib/vue3/compiler-core/dist/compiler-core.cjs.prod.js:577-709 | parsing stops where isEnd holds; the children hold no comments, lie in order in the template, and outside pre their text is condensed |
| ParserTree.BaseParse | lib/vue3/compiler-core/dist/compiler-core.cjs.prod.js:557-561 | the root spans the whole template, and its children lie in order from offset 0 to the end |
| Whitespace.PushNode | lib/vue3/compiler-core/dist/compiler-core.cjs.prod.js:710-730 | a comment is dropped; a text node that starts where the previous text ends is merged into it (contents, sources and end joined); anything else is appended |
| Whitespace.PushAllText | lib/vue3/compiler-core/dist/compiler-core.cjs.prod.js:710-730 | after pushing every node, the concatenated text content is unchanged |
| Whitespace.CollapseKeepsVisible | lib/vue3/compiler-core/dist/compiler-core.cjs.prod.js:693 | collapsing whitespace runs keeps the non-whitespace characters in order |
| Whitespace.CollapseCondensed | lib/vue3/compiler-core/dist/compiler-core.cjs.prod.js:693 | collapsed text has no two whitespace characters in a row and no whitespace other than a space |
| Whitespace.CondenseCharacterised | lib/vue3/compiler-core/dist/compiler-core.cjs.prod.js:661-694 | a blank text node is dropped exactly when first, last, next to a comment or between two elements with a line break; other blank nodes become `" "`, and other text is collapsed |
| Whitespace.CondensedSlotsAgree | lib/vue3/compiler-core/dist/compiler-core.cjs.prod.js:661-694 | condensing each slot in place and then removing the dropped ones gives the same list as the in-order rules |
| Whitespace.StripLeadingNewline | lib/vue3/compiler-core/dist/compiler-core.cjs.prod.js:696-704 | under a pre tag, only a leading `\n` or `\r\n` of the first text child is removed |
| Whitespace.FinishChildrenLaid | lib/vue3/compiler-core/dist/compiler-core.cjs.prod.js:661-708 | condensation and newline stripping keep the children in order and inside their original ranges |
| PatchFlags.Annotated | lib/vue3/compiler-core/dist/compiler-core.cjs.prod.js:3719 | a patch flag printed with its name comment reads back as the flag |
| PatchFlags.Plain | lib/vue3/compiler-core/dist/compiler-core.cjs.prod.js:3186 | a patch flag printed as a number reads back as the flag |
| TransformContext.AddOnce | lib/vue3/compiler-core/dist/compiler-core.cjs.prod.js:1407-1411 | adding a helper keeps the earlier ones in order, adds it once, and keeps the list duplicate-free |
| TransformContext.AddId | lib/vue3/compiler-core/dist/compiler-core.cjs.prod.js:1474-1480 | the count of the added name goes up by one, and every other count is unchanged |
| TransformContext.RemoveId | lib/vue3/compiler-core/dist/compiler-core.cjs.prod.js:1481-1484 | the count of the removed name goes down by one, and every other count is unchanged |
| TransformContext.ScopeRestored | lib/vue3/compiler-core/dist/compiler-core.cjs.prod.js:1474-1484 | removing the names a scope added restores every count, so the same names are in scope as before |
| TransformContext.ScopeOthers | lib/vue3/compiler-core/dist/compiler-core.cjs.prod.js:1474-1484 | opening a scope leaves every name it does not declare as it was |
| TransformContext.Hoist | lib/vue3/compiler-core/dist/compiler-core.cjs.prod.js:1466-1469 | the expression is appended to the hoists and replaced by a constant reference `_hoisted_N`, where N is its 1-based position |
| TransformContext.HoistTwice | lib/vue3/compiler-core/dist/compiler-core.cjs.prod.js:1466-1469 | two hoists get different names |
| TransformContext.CacheAllFresh | lib/vue3/compiler-core/dist/compiler-core.cjs.prod.js:1470-1473 | successive caches get consecutive fresh indices starting after the current count |
| TransformContext.AddComponent | lib/vue3/compiler-core/dist/compiler-core.cjs.prod.js:3219-3221 | the element refers to the component by its asset id; the tag is added once to the components, in order, and `resolveComponent` to the helpers, and nothing else changes |
| Traverse.RemoveSiblingKeepsCursor | lib/vue3/compiler-core/dist/compiler-core.cjs.prod.js:1417-1437 | removing another sibling leaves the cursor on the same node, with the index corrected when the removed one was before it |
| Traverse.RunPlugins | lib/vue3/compiler-core/dist/compiler-core.cjs.prod.js:1548-1575 | plugins run until one removes the node; a kept node is still at the cursor and every plugin saw it |
| Traverse.PluginsSeeRebound | lib/vue3/compiler-core/dist/compiler-core.cjs.prod.js:1548-1575 | each plugin sees the node as the previous plugin left it, so a replacement is seen by later plugins |
| Traverse.RunExits | lib/vue3/compiler-core/dist/compiler-core.cjs.prod.js:1598-1603 | exit callbacks run in reverse registration order |
| Traverse.TraverseNode | lib/vue3/compiler-core/dist/compiler-core.cjs.prod.js:1548-1604 | a removed node is entered but neither descended into nor exited; a kept node runs its exits in reverse, and comments and interpolations register their helpers |
| Traverse.TraverseChildren | lib/vue3/compiler-core/dist/compiler-core.cjs.prod.js:1533-1547 | siblings are visited in increasing original order, never twice, and every surviving sibling was visited |
| Traverse.UnhandledMembers | lib/vue3/compiler-core/dist/compiler-core.cjs.prod.js:1605-1635 | after a structural transform, a prop remains exactly when it is not a directive the transform handles |
| Traverse.CallsCoverMatches | lib/vue3/compiler-core/dist/compiler-core.cjs.prod.js:1605-1635 | the handler is called once per matching directive, in order, and for nothing else |
| Traverse.SpliceAll | lib/vue3/compiler-core/dist/compiler-core.cjs.prod.js:1605-1635 | the loop removes every handled directive and records exactly those calls and their exits |
| Traverse.RootCodegen | lib/vue3/compiler-core/dist/compiler-core.cjs.prod.js:1504-1532 | no children give no codegen node; a single element root whose codegen is a vnode call becomes that call as a block and registers openBlock and createBlock; a single element root with another codegen node returns that node and registers nothing; any other single child is returned itself; several children become a stable fragment block |
| Expressions.ProcessExpression | lib/vue3/compiler-core/dist/compiler-core.cjs.prod.js:2364-2383 | without prefixing or for blank content nothing changes; otherwise the fast path applies exactly to simple identifiers and only adds `_ctx.` |
| Expressions.Fast | lib/vue3/compiler-core/dist/compiler-core.cjs.prod.js:2358-2383 | only simple expressions change, keeping location and staticness; the content is the original or `_ctx.` before it, never for parameters, and a simple identifier is prefixed exactly when the name is neither in scope nor whitelisted |
| Expressions.FastPathIff | lib/vue3/compiler-core/dist/compiler-core.cjs.prod.js:2364-2383 | a simple identifier is rewritten to `_ctx.name` exactly when it is neither in scope nor whitelisted (Prefixed); it is marked constant exactly when it is neither prefixed nor in scope |
| Expressions.PrefixedOnce | lib/vue3/compiler-core/dist/compiler-core.cjs.prod.js:2364-2383 | a prefixed result is no longer a simple identifier, so a second pass does not prefix again |
| Expressions.ScopeNameNotPrefixed | lib/vue3/compiler-core/dist/compiler-core.cjs.prod.js:2371-2381 | a name declared by an enclosing scope is never prefixed |
| Expressions.ScopeClosedAgain | lib/vue3/compiler-core/dist/compiler-core.cjs.prod.js:2371-2381 | once the scope is closed again the name is processed as before it opened |
| Expressions.TransformProps | lib/vue3/compiler-core/dist/compiler-core.cjs.prod.js:2327-2354 | attributes and `v-for` are untouched, other directives have their expression processed, and a dynamic argument is processed as well |
| Expressions.TransformExpression | lib/vue3/compiler-core/dist/compiler-core.cjs.prod.js:2327-2354 | interpolations and element props are processed, and every other node is left alone |
| Expressions.SlotPropsNeverPrefixed | lib/vue3/compiler-core/dist/compiler-core.cjs.prod.js:2344-2346 | the expression of `v-slot` is never rewritten |
| StaticHoist.PatchFlagReadsBack | lib/vue3/compiler-core/dist/compiler-core.cjs.prod.js:1368-1372 | getPatchFlag reads back the flag that was printed, and a node has no flag exactly when it is 0 |
| StaticHoist.HoistedFlagReadsBack | lib/vue3/compiler-core/dist/compiler-core.cjs.prod.js:1368-1372 | a hoisted call reads back as flag -1 |
| StaticHoist.IsStaticNode | lib/vue3/compiler-core/dist/compiler-core.cjs.prod.js:1285-1340 | text and comments are static; if, branch, for and root nodes are not; a static element has no patch flag, dynamic key or ref |
| StaticHoist.Unblock | lib/vue3/compiler-core/dist/compiler-core.cjs.prod.js:1306-1313 | a static element hoisted keeps its tag, props, patch flag, dynamic props and directives, its children are cleared the same way, and its call and every call below it are no longer blocks |
| StaticHoist.UnblockElements | lib/vue3/compiler-core/dist/compiler-core.cjs.prod.js:1285-1340 | the elements of a cleared subtree are exactly the cleared elements of the original subtree, and none of them is a block |
| StaticHoist.StaticSubtree | lib/vue3/compiler-core/dist/compiler-core.cjs.prod.js:1285-1340 | every element inside a static node is static itself |
| StaticHoist.HoistedNotStatic | lib/vue3/compiler-core/dist/compiler-core.cjs.prod.js:1285-1340 | an element whose call was already hoisted is not static again |
| StaticHoist.HoistProps | lib/vue3/compiler-core/dist/compiler-core.cjs.prod.js:1250-1262 | a non-static element with hoistable props gets them hoisted, and other elements are unchanged |
| StaticHoist.WalkListHoists | lib/vue3/compiler-core/dist/compiler-core.cjs.prod.js:1231-1284 | every hoisted child is replaced by a reference to its own entry in the hoists, the entry being the child's call with no block left in it, and the children keep their number |
| StaticHoist.SingleRootKept | lib/vue3/compiler-core/dist/compiler-core.cjs.prod.js:1219-1230 | the single element root of a template is never hoisted and keeps its vnode call |
| VIf.CheckCondition | lib/vue3/compiler-core/dist/compiler-core.cjs.prod.js:2572-2580 | a missing or blank condition reports X_V_IF_NO_EXPRESSION and is replaced by `true` |
| VIf.ProcessedCondition | lib/vue3/compiler-core/dist/compiler-core.cjs.prod.js:2572-2583 | a `v-if` or `v-else-if` always has a condition after the check, and without prefixing it is the checked condition unchanged |
| VIf.ConditionPrefixed | lib/vue3/compiler-core/dist/compiler-core.cjs.prod.js:2579-2583 | with prefixing, a simple identifier condition keeps its location and becomes `_ctx.name` exactly when the name is neither in scope nor whitelisted, and a name in scope stays as written |
| VIf.CreateIfBranch | lib/vue3/compiler-core/dist/compiler-core.cjs.prod.js:2625-2632 | the branch has the directive's condition (none for else), and a template contributes its children |
| VIf.ProcessIf | lib/vue3/compiler-core/dist/compiler-core.cjs.prod.js:2572-2624 | `v-if` opens a new chain; an else branch joins the chain of the sibling just before it, or reports X_V_ELSE_NO_ADJACENT_IF; the new branch's condition is the checked condition run through processExpression |
| VIf.KeyProperty | lib/vue3/compiler-core/dist/compiler-core.cjs.prod.js:2633-2646 | the injected key reads back as the branch index |
| VIf.KeyedFragment | lib/vue3/compiler-core/dist/compiler-core.cjs.prod.js:2647-2683 | several children are wrapped in a keyed stable fragment block |
| VIf.BranchCodegen | lib/vue3/compiler-core/dist/compiler-core.cjs.prod.js:2633-2646 | a branch with a condition becomes a conditional whose fallback is a comment, and one without becomes its children's codegen |
| VIf.IfChainArms | lib/vue3/compiler-core/dist/compiler-core.cjs.prod.js:2551-2571 | the arms of the chained conditional are the branches' codegen nodes in order |
| VIf.IfChainClosing | lib/vue3/compiler-core/dist/compiler-core.cjs.prod.js:2551-2571 | a chain without an else ends in the comment fallback, and a chain with one ends in the else branch |
| VIf.IfCodegenGrows | lib/vue3/compiler-core/dist/compiler-core.cjs.prod.js:2551-2571 | attaching a branch replaces only the chain's last fallback |
| VFor.MatchAlias | lib/vue3/compiler-core/dist/compiler-core.cjs.prod.js:2796-2801 | a match exists exactly when some ` in ` or ` of ` separator occurs, and it splits at the first one |
| VFor.StripParens | lib/vue3/compiler-core/dist/compiler-core.cjs.prod.js:2812-2814 | a leading `(` and a trailing `)` are removed, and other text is unchanged |
| VFor.MatchForExpression | lib/vue3/compiler-core/dist/compiler-core.cjs.prod.js:2796-2809 | a raw parse exists exactly when the separator occurs, and its source is the trimmed right-hand side |
| VFor.ParseForLocations | lib/vue3/compiler-core/dist/compiler-core.cjs.prod.js:2796-2847 | the source and every alias carry the location of their own text in the template |
| VFor.TrimmedParts | lib/vue3/compiler-core/dist/compiler-core.cjs.prod.js:2812-2835 | the value, key and index aliases are trimmed non-empty pieces |
| VFor.ParseForExpression | lib/vue3/compiler-core/dist/compiler-core.cjs.prod.js:2796-2847 | a parse exists exactly when the raw one does; its source is the raw source run through processExpression at the raw location, and the aliases keep their text and location (they are processed as parameters); with prefixing, a simple identifier source becomes `_ctx.name` exactly when the name is neither in scope nor whitelisted |
| VFor.SourceInKeyword | lib/vue3/compiler-core/dist/compiler-core.cjs.prod.js:2804 | as written, the source of `i in n` is located inside the keyword `in`, while the corrected parse places it at `n` |
| VFor.KeyPropertyOf | lib/vue3/compiler-core/dist/compiler-core.cjs.prod.js:2692 | a key property exists exactly when findProp finds `key`, and it is keyed `key` |
| VFor.ProcessFor | lib/vue3/compiler-core/dist/compiler-core.cjs.prod.js:2744-2790 | a missing expression reports X_V_FOR_NO_EXPRESSION, a malformed one X_V_FOR_MALFORMED_EXPRESSION; a valid one replaces the node by a loop over the parsed source and registers the list helpers; the source is located with the corrected offset, not the program's `indexOf` (see "## Findings"); the loop's source and aliases are those of the processed parse |
| VFor.ForScope | lib/vue3/compiler-core/dist/compiler-core.cjs.prod.js:2775-2785 | the loop's aliases are in scope inside the loop, and exactly the outer scope holds after it |
| VFor.ForLoopParams | lib/vue3/compiler-core/dist/compiler-core.cjs.prod.js:2851-2873 | parameters keep the order value, key, index up to the last given one, with `_` placeholders for missing ones |
| VFor.ChildBlock | lib/vue3/compiler-core/dist/compiler-core.cjs.prod.js:2715-2742 | a slot outlet child is used as is, several children are wrapped in a keyed fragment, and a single element child becomes a block |
| VFor.ForExitAgrees | lib/vue3/compiler-core/dist/compiler-core.cjs.prod.js:2702 | as written an empty template loop has no result (the program throws), and otherwise the program agrees with the corrected exit |
| VSlot.SlotFn | lib/vue3/compiler-core/dist/compiler-core.cjs.prod.js:2927 | a slot function takes the given params and returns the children |
| VSlot.DynamicSlot | lib/vue3/compiler-core/dist/compiler-core.cjs.prod.js:3078-3086 | a dynamic slot is the object `{ name, fn }` |
| VSlot.ImplicitDefaultOnly | lib/vue3/compiler-core/dist/compiler-core.cjs.prod.js:2930-3077 | a component without template slots gets exactly one default slot built from its children, followed by the compiled marker |
| VSlot.SlotNamesDistinct | lib/vue3/compiler-core/dist/compiler-core.cjs.prod.js:2930-3077 | the slots object ends with the compiled marker, and the static slot names before it are distinct |
| VSlot.OnComponentSlotOnly | lib/vue3/compiler-core/dist/compiler-core.cjs.prod.js:2930-3077 | a `v-slot` on the component yields exactly its default slot, plus X_V_SLOT_MIXED_SLOT_USAGE at the first template slot when there is one |
| VSlot.NoMixedUsageWithoutComponentSlot | lib/vue3/compiler-core/dist/compiler-core.cjs.prod.js:2930-3077 | without `v-slot` on the component, the only errors are the template-slot ones and extraneous default children, never X_V_SLOT_MIXED_SLOT_USAGE |
| VSlot.CreateSlotsIsDynamic | lib/vue3/compiler-core/dist/compiler-core.cjs.prod.js:2930-3077 | a createSlots call is marked dynamic and registers createSlots, and slots that start dynamic stay dynamic |
| VSlot.ReadySlotsBuild | lib/vue3/compiler-core/dist/compiler-core.cjs.prod.js:2930-3077 | building the slots does not throw when each `v-if` template carries its slot directive and each `v-for` slot has a simple source |
| TransformText.MergeTextsSeparates | lib/vue3/compiler-core/dist/compiler-core.cjs.prod.js:3665-3694 | after merging, no two text-like children are adjacent |
| TransformText.MergeTextsUnmerge | lib/vue3/compiler-core/dist/compiler-core.cjs.prod.js:3665-3694 | splitting the compound expressions of the merged list back into pieces gives the original children |
| TransformText.MergeTextsIdempotent | lib/vue3/compiler-core/dist/compiler-core.cjs.prod.js:3665-3694 | merging twice is the same as merging once |
| TransformText.TextCallArgs | lib/vue3/compiler-core/dist/compiler-core.cjs.prod.js:3710-3720 | the child is passed unless it is the single-space text, and the TEXT flag is added exactly for non-text children outside SSR |
| TransformText.WrappedTexts | lib/vue3/compiler-core/dist/compiler-core.cjs.prod.js:3706-3728 | every text-like child is wrapped in a createTextVNode call, and the other children are kept |
| TransformText.SingleRunKept | lib/vue3/compiler-core/dist/compiler-core.cjs.prod.js:3695-3705 | an element whose children are all text keeps them as one compound expression and is not wrapped |
| Dedupe.MergeAsArray | lib/vue3/compiler-core/dist/compiler-core.cjs.prod.js:3437-3444 | merging yields an array holding the existing value (or, when it is already an array, its elements) followed by the incoming value; an existing array keeps its location |
| Dedupe.DedupeDescribed | lib/vue3/compiler-core/dist/compiler-core.cjs.prod.js:3412-3436 | the result keeps exactly the first property of each static name and every dynamic one, in order, and merges later class, style and `on*` values into arrays |
| Dedupe.DedupeDistinct | lib/vue3/compiler-core/dist/compiler-core.cjs.prod.js:3412-3436 | each static name occurs at most once in the result, and exactly when it occurs in the input |
| Dedupe.MergedValue | lib/vue3/compiler-core/dist/compiler-core.cjs.prod.js:3418-3429 | a later mergeable duplicate appends its value to the kept property's array |
| ElementProps.AnalyzeAllFlag | lib/vue3/compiler-core/dist/compiler-core.cjs.prod.js:3238-3290 | the class, style, ref, hydration and dynamic-key flags are set exactly when some bound prop calls for them |
| ElementProps.AnalyzeAllNames | lib/vue3/compiler-core/dist/compiler-core.cjs.prod.js:3238-3290 | the dynamic prop names are exactly the names of the bound props that need patching, without duplicates |
| ElementProps.AttributeProperty | lib/vue3/compiler-core/dist/compiler-core.cjs.prod.js:3280-3290 | a static attribute becomes a static key with its value, or the empty string |
| ElementProps.Flushed | lib/vue3/compiler-core/dist/compiler-core.cjs.prod.js:3360-3376 | pending properties become one deduplicated object argument, and nothing is added when there are none |
| ElementProps.PropsExpression | lib/vue3/compiler-core/dist/compiler-core.cjs.prod.js:3360-3376 | there are props exactly when some property or merge argument exists, and mergeProps is registered exactly for a merge call |
| ElementProps.PatchFlagFor | lib/vue3/compiler-core/dist/compiler-core.cjs.prod.js:3378-3397 | FULL_PROPS exactly with dynamic keys, which suppress CLASS, STYLE, PROPS and HYDRATE_EVENTS; NEED_PATCH only on flag 0 or 32 with a ref or runtime directive; no other bit |
| ElementProps.BuildPropsFlags | lib/vue3/compiler-core/dist/compiler-core.cjs.prod.js:3224-3397 | the built patch flag has each bit exactly when some prop of the element calls for it |
| ElementProps.BuildPropsNeedPatch | lib/vue3/compiler-core/dist/compiler-core.cjs.prod.js:3378-3397 | NEED_PATCH appears exactly when a ref or runtime directive exists and none of CLASS, STYLE, PROPS and FULL_PROPS is set |
| ElementProps.BuildPropsNames | lib/vue3/compiler-core/dist/compiler-core.cjs.prod.js:3224-3397 | the dynamic prop names are exactly those of the bound props that need patching |
| ElementProps.BuildPropsLists | lib/vue3/compiler-core/dist/compiler-core.cjs.prod.js:3224-3359 | the runtime directives and errors are those of the props, in order |
| ElementProps.BuildPropsObject | lib/vue3/compiler-core/dist/compiler-core.cjs.prod.js:3224-3376 | without spreads, the props are one deduplicated object of all the properties |
| ElementProps.BuildPropsSpreads | lib/vue3/compiler-core/dist/compiler-core.cjs.prod.js:3224-3376 | with more than one spread, mergeProps is called and registered |
| ElementArgs.BuildDirectiveArgs | lib/vue3/compiler-core/dist/compiler-core.cjs.prod.js:3445-3477 | the directive's arguments form an array at the directive's location, and only helpers are added to the context |
| ElementArgs.DirectiveArgsRoundTrip | lib/vue3/compiler-core/dist/compiler-core.cjs.prod.js:3445-3477 | the array gives back the directive's expression, argument and modifiers, in their slots, with `void 0` padding before later ones |
| ElementArgs.ModifiersRoundTrip | lib/vue3/compiler-core/dist/compiler-core.cjs.prod.js:3466-3473 | the modifiers object lists each modifier, in order |
| ElementArgs.DirectivesArrayEntries | lib/vue3/compiler-core/dist/compiler-core.cjs.prod.js:3134 | each runtime directive contributes its own argument array at its own location |
| ElementArgs.DynamicPropNamesRoundTrip | lib/vue3/compiler-core/dist/compiler-core.cjs.prod.js:3478-3487 | the stringified prop names read back as the list of names |
| SlotOutlet.NameIndex | lib/vue3/compiler-core/dist/compiler-core.cjs.prod.js:3508-3538 | the index is of the first name prop, or -1 when there is none |
| SlotOutlet.SlotNameRead | lib/vue3/compiler-core/dist/compiler-core.cjs.prod.js:3508-3538 | the slot name is the quoted static name, the bound expression, or `"default"` without a name prop |
| SlotOutlet.PropsPassedOn | lib/vue3/compiler-core/dist/compiler-core.cjs.prod.js:3508-3538 | every prop but the name is passed on to the slot |
| SlotOutlet.TransformSlotOutlet | lib/vue3/compiler-core/dist/compiler-core.cjs.prod.js:3488-3507 | a `<slot>` becomes a renderSlot call, and any other node is unchanged |
| SlotOutlet.SlotArgsRoundTrip | lib/vue3/compiler-core/dist/compiler-core.cjs.prod.js:3488-3507 | the renderSlot arguments give back the slot name, props and fallback in their slots |
| VModel.EventKey | lib/vue3/compiler-core/dist/compiler-core.cjs.prod.js:3762-3767 | the update key is `onUpdate:` plus the static name or `modelValue`, or a run-time concatenation for a dynamic argument |
| VModel.UpdateProp | lib/vue3/compiler-core/dist/compiler-core.cjs.prod.js:3768-3780 | the handler is cached in a fresh slot exactly when prefixing and handler caching are on and it mentions no scope variable |
| VModel.TransformModel | lib/vue3/compiler-core/dist/compiler-core.cjs.prod.js:3744-3794 | the checks run in order (missing, malformed, scope variable), and the first failure is the only error, with no props; a valid binding yields value, update and modifiers props |
| VModel.ModifierKeyRoundTrip | lib/vue3/compiler-core/dist/compiler-core.cjs.prod.js:3784 | each modifier key reads back as the modifier |
| Codegen.Newline | lib/vue3/compiler-core/dist/compiler-core.cjs.prod.js:1691-1693 | a newline is one `\n` followed by two spaces per indent level |
| Codegen.NullableArgsRoundTrip | lib/vue3/compiler-core/dist/compiler-core.cjs.prod.js:2114-2122 | trailing missing arguments are trimmed, the last printed one is present, and reading back pads them again |
| Codegen.SimpleKeyRoundTrip | lib/vue3/compiler-core/dist/compiler-core.cjs.prod.js:2075-2092 | an identifier key prints bare, another static key as a JSON string that reads back, and a dynamic key in brackets |
| Codegen.StaticTextRoundTrip | lib/vue3/compiler-core/dist/compiler-core.cjs.prod.js:2051-2057 | printed text reads back as the text |
| Codegen.TemplateTextRoundTrip | lib/vue3/compiler-core/dist/compiler-core.cjs.prod.js:2260-2281 | template-literal text escaped in full reads back as the text |
| Codegen.BacktickAfterBackslashAsWritten | lib/vue3/compiler-core/dist/compiler-core.cjs.prod.js:2260-2281 | as written, the text `` \` `` reads back as a single backslash |
| Codegen.SubstitutionAsWritten | lib/vue3/compiler-core/dist/compiler-core.cjs.prod.js:2260-2281 | as written, the text `${x}` does not read back as text |
| CodegenProgram.HelperNameInjective | lib/vue3/compiler-core/dist/compiler-core.cjs.prod.js:104-136 | different helpers have different names |
| CodegenProgram.EntriesExactlyUsed | lib/vue3/compiler-core/dist/compiler-core.cjs.prod.js:1801-1846 | a helper's import entry appears exactly when the helper was used |
| CodegenProgram.UsedOfExactly | lib/vue3/compiler-core/dist/compiler-core.cjs.prod.js:1822-1832 | the hoisted helpers bound at the top are exactly the static ones that were used |
| CodegenProgram.PreambleBindsUsed | lib/vue3/compiler-core/dist/compiler-core.cjs.prod.js:1801-1892 | both the function and the module preamble bind exactly the used helpers |
| CodegenProgram.HoistedNameDeclared | lib/vue3/compiler-core/dist/compiler-core.cjs.prod.js:1903-1925 | every name `hoist` hands out is declared in the generated hoists with that expression |
| CodegenProgram.AssetDeclared | lib/vue3/compiler-core/dist/compiler-core.cjs.prod.js:1893-1902 | every asset is declared under its asset id by a resolve call on its quoted name |
| CodegenProgram.DirectiveHeadDeclared | lib/vue3/compiler-core/dist/compiler-core.cjs.prod.js:1893-1902 | a user directive's reference in the arguments is declared by the generated assets |
| CodegenProgram.Generate | lib/vue3/compiler-core/dist/compiler-core.cjs.prod.js:1715-1800 | the generated code begins with the preamble and ends with the return of the printed tree (`null` without one) and the closing braces |
| CodegenProgram.AssetsInInsertionOrder | lib/vue3/compiler-core/dist/compiler-core.cjs.prod.js:1893-1902 | recording one more asset name adds its declaration after the existing ones on a new line, and recording a known name changes nothing |
| CodegenProgram.WithBindsHelpers | lib/vue3/compiler-core/dist/compiler-core.cjs.prod.js:1739-1750 | in `with` mode the generated code destructures from the runtime object the entry of a helper exactly when the program uses it |
| CodegenProgram.ComponentDeclared | lib/vue3/compiler-core/dist/compiler-core.cjs.prod.js:1753-1758 | every component of the program is declared in the generated code before the return, under its asset id, by a `resolveComponent` call whose argument reads back as its name |
| CodegenProgram.DirectiveDeclared | lib/vue3/compiler-core/dist/compiler-core.cjs.prod.js:1759-1764 | every user directive of the program is declared in the generated code before the return by a `resolveDirective` call whose argument reads back as its name |
| CodegenProgram.HoistDeclared | lib/vue3/compiler-core/dist/compiler-core.cjs.prod.js:1903-1925 | every hoisted expression is declared as `_hoisted_N`, N its 1-based position, in the preamble, and so in the generated code before the return |
| CodegenProgram.ResolvedComponentDeclared | lib/vue3/compiler-core/dist/compiler-core.cjs.prod.js:3219-3221 | a component met while transforming makes the program use `resolveComponent`, and the generated code declares the id the element refers to by resolving the component's own name |
| Ssr.Push | lib/vue3/server-renderer/dist/server-renderer.cjs.prod.js:104-130 | a string after a string is appended to the last entry; anything else is a new entry; the async flag is set exactly by a pending item |
| Ssr.GetBuffer | lib/vue3/server-renderer/dist/server-renderer.cjs.prod.js:124-127 | the buffer is ready exactly when nothing asynchronous was pushed |
| Ssr.PushKeepsApart | lib/vue3/server-renderer/dist/server-renderer.cjs.prod.js:115-123 | pushing never leaves two string entries next to each other |
| Ssr.PushUnroll | lib/vue3/server-renderer/dist/server-renderer.cjs.prod.js:115-143 | coalescing does not change the unrolled output: pushing adds exactly the item's text |
| Ssr.PushAll | lib/vue3/server-renderer/dist/server-renderer.cjs.prod.js:104-143 | a buffer built by pushes has no adjacent strings, unrolls to the items' concatenated text, and is async exactly with a pending item |
| Ssr.UnrollAppend | lib/vue3/server-renderer/dist/server-renderer.cjs.prod.js:131-143 | unrolling distributes over concatenation of entries |
| Ssr.RenderAttr | lib/vue3/server-renderer/dist/server-renderer.cjs.prod.js:52-64 | the attribute text is empty exactly for a non-renderable value, in particular null and undefined |
| Ssr.RenderAttrRoundTrip | lib/vue3/server-renderer/dist/server-renderer.cjs.prod.js:52-57 | a rendered attribute reads back as its key and escaped value |
| Ssr.KeptExactly | lib/vue3/server-renderer/dist/server-renderer.cjs.prod.js:9-17 | a prop is rendered exactly when it is not key, ref, innerHTML, textContent, an `on*` key, or value on a textarea |
| Ssr.RenderAttrsOfKept | lib/vue3/server-renderer/dist/server-renderer.cjs.prod.js:9-30 | rendering all props equals rendering only the kept ones |
| Ssr.RenderList | lib/vue3/server-renderer/dist/server-renderer.cjs.prod.js:367-393 | arrays and strings call the renderer per element with its index, a number n calls it with 1..n, an object per key in order, and anything else not at all |
| Ssr.RenderListRebuilds | lib/vue3/server-renderer/dist/server-renderer.cjs.prod.js:367-393 | the items passed to the renderer rebuild the source, and the indices count from 0 |

## Left out

- The general path of `processExpression` is not modelled: it parses with `@babel/parser` and walks with `estree-walker`. An expression that is not a single identifier passes through unchanged, marked as needing the general path.
- Source maps are not modelled (`SourceMapGenerator`, `addMapping`), and neither is the printer's indentation layout beyond `Newline`.
- The helpers from `@vue/shared` are parameters or fixed tables, because that package is not part of this model. They include `isGloballyWhitelisted`, `makeMap`, `escapeHtml`, `normalizeClass`/`normalizeStyle`, `isBooleanAttr`, `propsToAttrMap`, `camelize`, `hyphenate` and `capitalize`.
- `onError`/`defaultOnError` and the error messages are not modelled: errors are accumulated as (code, position) pairs and nothing is thrown.
- User plugin extension points are not modelled. `registerRuntimeHelpers` is omitted; helpers are a fixed enumeration in place of `Symbol`s. Node and directive transforms are plugin parameters of the traversal.
- The directive transforms `transformOn` and `transformBind` are a parameter of `buildProps`, because their bodies are outside this core.
- The server-renderer runtime is not modelled: `renderToString`, `renderComponentVNode`, `renderVNode`, `renderElementVNode`, teleports, `resolveTeleports`, `ssrRenderSuspense`, `ssrCompile` and `console.warn`. They need the `vue` runtime, promises and `Function()`.
- Promises in the SSR buffer are an opaque pending entry. `unrollBuffer` is modelled for a buffer whose promises have resolved; a pending entry unrolls to the empty string.
- Numbers in the SSR helpers are integers. Floating point, `NaN` and the string form of non-integral numbers are not modelled.
- `ssrRenderDynamicAttr`, `ssrRenderClass`, `ssrRenderStyle`, `ssrRenderSlot`, `ssrInterpolate` and the `v-model` SSR helpers are not modelled: they are beyond the buffer and attribute-filtering helpers.
- VSlot.KindOf: parses a template's loop in the scope `buildSlots` sees. With prefixed identifiers the program parses it earlier, on entering the template (`trackVForSlotScopes`), when the component's own `v-slot` props are also in scope. The two differ only for a component with both its own `v-slot` and template slots, which is reported as X_V_SLOT_MIXED_SLOT_USAGE.
- The memo cache of `isStaticNode` is not modelled. The function is recomputed instead, which gives the same result. Its side effect, clearing `isBlock` on each element it finds static, is done when `walk` hoists the element, on the whole hoisted subtree (`StaticHoist.Unblock`). Every element that `isStaticNode` finds static during `walk` is either hoisted or inside a hoisted subtree, so the same calls are cleared.
- JavaScript object identity is modelled only for an element's own children list. Aliasing between a codegen node and AST arrays elsewhere is not modelled.
- `ParserContext.ValidOptions`: both delimiters empty is excluded, because the program never terminates on such options.
- Every location built with `locStub` is the fixed stub location `LocStub`, as in the program.
- Strings.ToLower: folds only ASCII letters. JavaScript's `toLowerCase` is Unicode-aware, so `startsWithEndTagOpen` in the program accepts an end tag spelled with, for example, the Kelvin sign `K` (U+212A) for `k`, and the model does not.
- Positions.AdvancePosition: counts Dafny characters (Unicode scalar values), whereas JavaScript counts UTF-16 code units. Offsets and columns after a character outside the Basic Multilingual Plane therefore differ by one per such character.
- Ssr.RenderList: walks a string by Dafny character (Unicode scalar value). The program loops over `source.length` and reads `source[i]`, which are UTF-16 code units, so a character outside the Basic Multilingual Plane gives two calls with lone surrogates there and one call in the model.
- AstUtils.ToValidAssetId: replaces a character outside the Basic Multilingual Plane by one `_`, where the program replaces each of its two UTF-16 code units and so writes `__`.
- TransformContext.AddId: models the scope table as a map from names to counts. The program uses a plain object, where `constructor`, `toString` or `__proto__` are found on the prototype. A scope variable with such a name is counted from the inherited value there, and the `processExpression` fast path (`identifiers[content]`) treats those names as always in scope; the model does not.
- TransformContext.RemoveId: requires the name to be in the table. The program would store `NaN` for a name it never added, and that case never arises in the compiler.
- AstUtils.InjectProp: leaves a `renderSlot` call with fewer than two arguments unchanged. The program assigns `arguments[2]`, leaving a hole at index 1.
- Attributes.MatchDirective: accepts U+2028 and U+2029 inside a directive name. In the program's regular expression `.` does not match these two line terminators, so such a name fails to match there.
- Traverse.TraverseNode: the branches of an `if` node are traversed as a sibling list of their own. The program keeps the `if` node's parent and child index while it walks the branches, so a branch that removes itself through the context would act on the `if`'s siblings in the program.
- Traverse.TraverseNode: `fuel` bounds the nesting depth that is traversed. No lemma states that fuel beyond the tree's depth reaches every node; the contracts state only that a node with fuel 0 is entered but its children are not visited.
- Traverse.TraverseChildren: a `RemoveSibling` action with an index outside the list is ignored. In the program `indexOf` returns -1 there and `splice(-1, 1)` removes the last child.
- Traverse.TraverseChildren: states that the visited siblings are increasing and cover the survivors, but not the plugins' effects on each child.
- Codegen.Gen: the printer for vnode calls, conditionals, cache expressions, calls, objects and arrays is modelled. Its contracts are the round trips of the literal pieces listed above, not a full parse-back of the printed JavaScript.
- Codegen.TemplateTextRoundTrip: the printer uses the corrected escaping, which escapes backslash, backtick and `$`. The program escapes backticks only; that behaviour is kept as `EscapeTemplateAsWritten` (see "## Findings").

## Findings

| source | as written | input that shows it | evidently intended | confidence | as-written member | corrected member |
|---|---|---|---|---|---|---|
| lib/vue3/compiler-core/dist/compiler-core.cjs.prod.js:805-807 | `parseElement` returns early for a self-closing or void element before restoring `inPre`/`inVPre`, so a flag that element turned on stays on | `<div v-pre/>{{ a }}` parses `{{ a }}` as plain text | an element's flags are reset when it ends, however it ends | not executed | ParserTree.SelfClosingVPreAsWritten | ParserTree.LeaveElementRestores |
| lib/vue3/compiler-core/dist/compiler-core.cjs.prod.js:854-856 | `parseTag` turns on pre mode for an end tag as well as a start tag, and a stray end tag is parsed for its flags and dropped | `</pre>a  b` keeps `a  b` uncondensed, and pre mode lasts to the end | only a `<pre>` start tag enters pre mode | not executed | ParserTree.StrayPreEndTagAsWritten | ParserTree.PreAfterTag |
| lib/vue3/compiler-core/dist/compiler-core.cjs.prod.js:2804 | the source's offset is `exp.indexOf(RHS, LHS.length)`, and this search can find the right-hand side inside the separator | `i in n`: the source `n` is located at the `n` of `in` | the source is located where the right-hand side starts | not executed | VFor.SourceInKeyword | VFor.ParseForLocations |
| lib/vue3/compiler-core/dist/compiler-core.cjs.prod.js:2702 | `children.length > 1 \|\| children[0].type !== 1` reads `children[0].type` of an empty list | `<template v-for="x in xs"></template>` throws a TypeError | an empty template loop renders a fragment of no children | not executed | VFor.ForExitAgrees | VFor.ForExit |
| lib/vue3/compiler-core/dist/compiler-core.cjs.prod.js:2260-2281 | `genTemplateLiteral` escapes only backticks in text parts | `` \` `` reads back as `\`, and `${x}` is evaluated as a substitution | text parts read back verbatim: backslash and `$` are escaped too | not executed | Codegen.BacktickAfterBackslashAsWritten | Codegen.TemplateTextRoundTrip |
