/** The code generator's outer layer (`generate`): the preamble that
    brings the runtime helpers into scope, the hoisted constants, the asset
    resolutions and the render function around the printed tree. */
module CodegenProgram {
  import opened Wrappers
  import opened Strings
  import opened Ast
  import opened AstUtils
  import opened TransformContext
  import opened Codegen
  import ElementProps
  import ElementArgs

  /** What `generate` reads from the root after the transforms: the helpers
      in the order they were first asked for, the components and directives
      to resolve, the hoisted expressions, the number of temporaries and the
      render tree. */
  datatype Program = Program(helpers: seq<Helper>, components: seq<string>, directives: seq<string>,
                             hoists: seq<Node>, temps: nat, codegenNode: Option<Node>)

  /** The length, first and second-to-last character of a name as one
      number: enough to tell the helper names apart. */
  function NameKey(n: string): int {
    if |n| >= 2 then |n| * 65536 * 256 + (n[0] as int) * 256 + n[|n| - 2] as int else 0
  }

  /** The key of each helper's name. */
  function KeyOf(h: Helper): int {
    match h
    case Fragment => 134235758
    case Teleport => 134239346
    case Suspense => 134239091
    case KeepAlive => 151014262
    case BaseTransition => 234898031
    case OpenBlock => 151023459
    case CreateBlock => 184574819
    case CreateVNode => 184574820
    case CreateComment => 302015332
    case CreateText => 251683684
    case CreateStatic => 285238116
    case ResolveComponent => 268464750
    case ResolveDynamicComponent => 385905262
    case ResolveDirective => 268464758
    case WithDirectives => 234911589
    case RenderList => 167801459
    case RenderSlot => 167801455
    case CreateSlots => 184574836
    case ToDisplayString => 251688046
    case MergeProps => 167800176
    case ToHandlers => 167801970
    case Camelize => 134243194
    case SetBlockTracking => 268465006
    case PushScopeId => 184578121
    case PopScopeId => 167800905
    case WithScopeId => 184579913
    case WithCtx => 117471092
  }

  /** The helper a key belongs to. */
  function HelperOfKey(k: int): Helper {
    if k == 134235758 then Fragment
    else if k == 134239346 then Teleport
    else if k == 134239091 then Suspense
    else if k == 151014262 then KeepAlive
    else if k == 234898031 then BaseTransition
    else if k == 151023459 then OpenBlock
    else if k == 184574819 then CreateBlock
    else if k == 184574820 then CreateVNode
    else if k == 302015332 then CreateComment
    else if k == 251683684 then CreateText
    else if k == 285238116 then CreateStatic
    else if k == 268464750 then ResolveComponent
    else if k == 385905262 then ResolveDynamicComponent
    else if k == 268464758 then ResolveDirective
    else if k == 234911589 then WithDirectives
    else if k == 167801459 then RenderList
    else if k == 167801455 then RenderSlot
    else if k == 184574836 then CreateSlots
    else if k == 251688046 then ToDisplayString
    else if k == 167800176 then MergeProps
    else if k == 167801970 then ToHandlers
    else if k == 134243194 then Camelize
    else if k == 268465006 then SetBlockTracking
    else if k == 184578121 then PushScopeId
    else if k == 167800905 then PopScopeId
    else if k == 184579913 then WithScopeId
    else WithCtx
  }

  lemma KeyOfName(h: Helper)
    ensures NameKey(HelperName(h)) == KeyOf(h)
  {
  }

  lemma KeyOfInverse(h: Helper)
    ensures HelperOfKey(KeyOf(h)) == h
  {
  }

  /** Distinct helpers are exported under distinct names. */
  lemma HelperNameInjective(a: Helper, b: Helper)
    requires HelperName(a) == HelperName(b)
    ensures a == b
  {
    KeyOfName(a);
    KeyOfName(b);
    KeyOfInverse(a);
    KeyOfInverse(b);
  }

  // ---------------------------------------------------------------------
  // Helper bindings
  // ---------------------------------------------------------------------

  /** The entry binding a helper to its alias: `name: _name` in a
      destructuring, `name as _name` in an import. */
  function Entry(h: Helper, sep: string): string {
    HelperName(h) + sep + HelperText(h)
  }

  /** A name written twice around a fixed separator can be read back. */
  lemma DoubledInjective(n: string, m: string, sep: string)
    requires n + sep + ("_" + n) == m + sep + ("_" + m)
    ensures n == m
  {
    var x, y := n + sep + ("_" + n), m + sep + ("_" + m);
    assert |x| == 2 * |n| + 1 + |sep| && |y| == 2 * |m| + 1 + |sep|;
    assert x[..|n|] == n && y[..|m|] == m;
  }

  /** An entry names one helper only. */
  lemma EntryInjective(a: Helper, b: Helper, sep: string)
    requires Entry(a, sep) == Entry(b, sep)
    ensures a == b
  {
    DoubledInjective(HelperName(a), HelperName(b), sep);
    HelperNameInjective(a, b);
  }

  /** One entry per helper, in order. */
  function Entries(hs: seq<Helper>, sep: string): (r: seq<string>)
    ensures |r| == |hs|
    ensures forall i :: 0 <= i < |hs| ==> r[i] == Entry(hs[i], sep)
  {
    seq(|hs|, i requires 0 <= i < |hs| => Entry(hs[i], sep))
  }

  /** A helper gets an entry exactly when the program uses it: no helper is
      bound that the program did not ask for, and none it asked for is
      missing. */
  lemma EntriesExactlyUsed(hs: seq<Helper>, h: Helper, sep: string)
    ensures Entry(h, sep) in Entries(hs, sep) <==> h in hs
  {
    if Entry(h, sep) in Entries(hs, sep) {
      var i :| 0 <= i < |hs| && Entries(hs, sep)[i] == Entry(h, sep);
      EntryInjective(h, hs[i], sep);
    }
  }

  /** The helpers of `candidates` the program uses, in the order of
      `candidates`. */
  function UsedOf(candidates: seq<Helper>, hs: seq<Helper>): (r: seq<Helper>)
    decreases |candidates|
  {
    if |candidates| == 0 then []
    else (if candidates[0] in hs then [candidates[0]] else []) + UsedOf(candidates[1..], hs)
  }

  /** The filter keeps a candidate exactly when the program uses it. */
  lemma {:induction false} UsedOfExactly(candidates: seq<Helper>, hs: seq<Helper>, h: Helper)
    ensures h in UsedOf(candidates, hs) <==> h in candidates && h in hs
    decreases |candidates|
  {
    if |candidates| > 0 {
      UsedOfExactly(candidates[1..], hs, h);
      assert h in candidates <==> h == candidates[0] || h in candidates[1..];
    }
  }

  // ---------------------------------------------------------------------
  // Hoisted constants
  // ---------------------------------------------------------------------

  /** The declaration of the hoisted expression at position `i`. */
  function HoistLine(i: nat, e: Node, c: Config): string {
    "const " + HoistName(i + 1) + " = " + Gen(e, c, 0) + Newline(0)
  }

  /** The declaration lines of the hoisted expressions. */
  function Lines(hs: seq<Node>, c: Config): (r: seq<string>)
    ensures |r| == |hs|
  {
    seq(|hs|, i requires 0 <= i < |hs| => HoistLine(i, hs[i], c))
  }

  /** The declarations of the hoisted expressions, in order. */
  function HoistLines(hs: seq<Node>, c: Config): string {
    Join(Lines(hs, c), "")
  }

  /** `genHoists`: nothing without hoists; otherwise the declarations,
      between `pushScopeId` and `popScopeId` when a scope id applies. */
  function GenHoists(hs: seq<Node>, c: Config): string {
    if |hs| == 0 then ""
    else
      var scoped := c.scopeId.Some? && c.mode != FunctionMode;
      Newline(0)
      + (if scoped then HelperText(PushScopeId) + "(\"" + c.scopeId.value + "\")" + Newline(0) else "")
      + HoistLines(hs, c)
      + (if scoped then HelperText(PopScopeId) + "()" + Newline(0) else "")
  }

  /** Every hoisted expression is declared, under the name of its position. */
  lemma HoistLineAt(hs: seq<Node>, c: Config, i: nat)
    requires i < |hs|
    ensures exists a, b :: HoistLines(hs, c) == a + HoistLine(i, hs[i], c) + b
  {
    JoinPartAt(Lines(hs, c), "", i);
  }

  /** A hoist added at the end adds its line at the end. */
  lemma LinesSnoc(hs: seq<Node>, e: Node, c: Config)
    ensures Lines(hs + [e], c) == Lines(hs, c) + [HoistLine(|hs|, e, c)]
  {
    var l, r := Lines(hs + [e], c), Lines(hs, c) + [HoistLine(|hs|, e, c)];
    forall i | 0 <= i < |l|
      ensures l[i] == r[i]
    {
      if i < |hs| { assert (hs + [e])[i] == hs[i]; }
    }
  }

  /** A hoist added at the end adds its declaration at the end. */
  lemma HoistLinesSnoc(hs: seq<Node>, e: Node, c: Config)
    ensures HoistLines(hs + [e], c) == HoistLines(hs, c) + HoistLine(|hs|, e, c)
  {
    LinesSnoc(hs, e, c);
    JoinSnoc(Lines(hs, c), HoistLine(|hs|, e, c), "");
  }

  /** The name `hoist` hands out for an expression is the name its
      declaration gets: hoisting adds exactly that declaration after the
      existing ones. */
  lemma HoistedNameDeclared(s: State, exp: Node, c: Config)
    ensures var (s1, ref) := Hoist(s, exp);
            HoistLines(s1.hoists, c) == HoistLines(s.hoists, c) + ("const " + ref.content + " = " + Gen(exp, c, 0) + Newline(0))
  {
    HoistLinesSnoc(s.hoists, exp, c);
  }

  // ---------------------------------------------------------------------
  // Assets
  // ---------------------------------------------------------------------

  /** The helper that resolves an asset of the given kind. */
  function Resolver(kind: string): string {
    HelperText(if kind == "component" then ResolveComponent else ResolveDirective)
  }

  /** The declaration resolving one asset. */
  function AssetDecl(id: string, kind: string): string {
    "const " + ToValidAssetId(id, kind) + " = " + Resolver(kind) + "(" + JsonQuote(id) + ")"
  }

  /** `genAssets`: the declarations, one per line. */
  function GenAssets(ids: seq<string>, kind: string, level: nat): string {
    Join(Decls(ids, kind), Newline(level))
  }

  /** The declaration of each asset, in order. */
  function Decls(ids: seq<string>, kind: string): (r: seq<string>)
    ensures |r| == |ids|
  {
    seq(|ids|, i requires 0 <= i < |ids| => AssetDecl(ids[i], kind))
  }

  lemma DeclsSnoc(ids: seq<string>, x: string, kind: string)
    ensures Decls(ids + [x], kind) == Decls(ids, kind) + [AssetDecl(x, kind)]
  {
    var l, r := Decls(ids + [x], kind), Decls(ids, kind) + [AssetDecl(x, kind)];
    forall i | 0 <= i < |l|
      ensures l[i] == r[i]
    {
      if i < |ids| { assert (ids + [x])[i] == ids[i]; }
    }
  }

  /** Every asset is declared under its valid identifier, resolved by the
      string literal that reads back as its name. */
  lemma AssetDeclared(ids: seq<string>, kind: string, level: nat, i: nat)
    requires i < |ids|
    ensures exists a, b, q :: GenAssets(ids, kind, level)
                              == a + ("const " + ToValidAssetId(ids[i], kind) + " = " + Resolver(kind) + "(" + q + ")") + b
                              && JsonUnquote(q) == Some(ids[i])
  {
    JoinPartAt(Decls(ids, kind), Newline(level), i);
    JsonRoundTrip(ids[i]);
    var a, b :| GenAssets(ids, kind, level) == a + AssetDecl(ids[i], kind) + b;
    var q := JsonQuote(ids[i]);
    assert GenAssets(ids, kind, level)
           == a + ("const " + ToValidAssetId(ids[i], kind) + " = " + Resolver(kind) + "(" + q + ")") + b;
  }

  /** Resolving an asset adds its declaration after every earlier one, so
      the declarations come in the order the assets were first met; an asset
      met again adds nothing. */
  lemma AssetsInInsertionOrder(ids: seq<string>, x: string, kind: string, level: nat)
    ensures GenAssets(AddOnce(ids, x), kind, level)
            == if x in ids then GenAssets(ids, kind, level)
               else if |ids| == 0 then AssetDecl(x, kind)
               else GenAssets(ids, kind, level) + Newline(level) + AssetDecl(x, kind)
  {
    if x !in ids {
      assert AddOnce(ids, x) == ids + [x];
      DeclsSnoc(ids, x, kind);
      JoinSnoc(Decls(ids, kind), AssetDecl(x, kind), Newline(level));
    }
  }

  /** A user directive on an element is referred to by the constant the
      render function declares for it: the name its argument list starts
      with is the name `resolveDirective` is assigned to, for the directive's
      own name. */
  lemma DirectiveHeadDeclared(rd: ElementProps.RuntimeDirective, s: State, ids: seq<string>, level: nat, i: nat)
    requires rd.dir.Directive? && rd.helper.None? && i < |ids| && ids[i] == rd.dir.name
    ensures exists a, b, q :: GenAssets(ids, "directive", level)
                              == a + ("const " + ElementArgs.DirectiveHead(rd, s).0.code + " = "
                                      + HelperText(ResolveDirective) + "(" + q + ")") + b
                              && JsonUnquote(q) == Some(rd.dir.name)
  {
    assert "directive"[0] != "component"[0];
    assert Resolver("directive") == HelperText(ResolveDirective);
    AssetDeclared(ids, "directive", level, i);
    var a, b, q :| GenAssets(ids, "directive", level)
                   == a + ("const " + ToValidAssetId(ids[i], "directive") + " = " + Resolver("directive") + "(" + q + ")") + b
                   && JsonUnquote(q) == Some(ids[i]);
    assert ElementArgs.DirectiveHead(rd, s).0.code == ToValidAssetId(ids[i], "directive");
  }

  // ---------------------------------------------------------------------
  // Preambles and the render function
  // ---------------------------------------------------------------------

  /** Where the helpers come from: the runtime module, required, for server
      rendering, or the global runtime object. */
  function VueBinding(c: Config): string {
    if c.ssr then "require(" + JsonQuote(c.runtimeModuleName) + ")" else c.runtimeGlobalName
  }

  /** The helpers hoisted vnodes may call before the render function's
      `with` block binds the rest. */
  const StaticHelpers := [CreateVNode, CreateComment, CreateText, CreateStatic]

  /** The bindings `genFunctionPreamble` writes before the hoists: the
      helpers destructured from the runtime, or the runtime object itself
      and, with hoists, the helpers hoisted vnodes call. */
  function FunctionBindings(p: Program, c: Config): string {
    if |p.helpers| > 0 then
      if c.prefixIdentifiers then "const { " + Join(Entries(p.helpers, ": "), ", ") + " } = " + VueBinding(c) + "\n"
      else
        "const _Vue = " + VueBinding(c) + "\n"
        + (if |p.hoists| > 0 then "const { " + Join(Entries(UsedOf(StaticHelpers, p.helpers), ": "), ", ") + " } = _Vue\n"
           else "")
    else ""
  }

  /** `genFunctionPreamble`. */
  function FunctionPreamble(p: Program, c: Config): string {
    FunctionBindings(p, c) + GenHoists(p.hoists, c) + (Newline(0) + "return ")
  }

  /** The helpers a module imports: those the program uses, then the scope
      id helpers when a scope id applies. */
  function ModuleHelpers(p: Program, scoped: bool): seq<Helper> {
    if scoped then p.helpers + [WithScopeId] + (if |p.hoists| > 0 then [PushScopeId, PopScopeId] else [])
    else p.helpers
  }

  /** The imports `genModulePreamble` writes before the hoists, and the
      `_withId` binding when a scope id applies. */
  function ModuleBindings(p: Program, c: Config): string {
    var scoped := c.scopeId.Some?;
    var hs := ModuleHelpers(p, scoped);
    (if |hs| > 0 then
       if c.optimizeBindings then
         "import { " + Join(seq(|hs|, i requires 0 <= i < |hs| => HelperName(hs[i])), ", ") + " } from "
         + JsonQuote(c.runtimeModuleName) + "\n"
         + "\n// Binding optimization for webpack code-split\nconst "
         + Join(seq(|hs|, i requires 0 <= i < |hs| => HelperText(hs[i]) + " = " + HelperName(hs[i])), ", ") + "\n"
       else "import { " + Join(Entries(hs, " as "), ", ") + " } from " + JsonQuote(c.runtimeModuleName) + "\n"
     else "")
    + (if scoped then "const _withId = " + HelperText(WithScopeId) + "(\"" + c.scopeId.value + "\")" + Newline(0) else "")
  }

  /** `genModulePreamble`. */
  function ModulePreamble(p: Program, c: Config): string {
    ModuleBindings(p, c) + GenHoists(p.hoists, c) + (Newline(0) + "export ")
  }

  /** Without a `with` block the render function binds no helpers itself:
      a module imports exactly the helpers the program uses (plus the scope
      id helpers), and a function preamble with prefixed identifiers
      destructures exactly those; in `with` mode the hoisting preamble binds
      exactly the used helpers among the four that hoisted vnodes call. */
  lemma PreambleBindsUsed(p: Program, c: Config, h: Helper)
    ensures Entry(h, " as ") in Entries(ModuleHelpers(p, false), " as ") <==> h in p.helpers
    ensures Entry(h, ": ") in Entries(p.helpers, ": ") <==> h in p.helpers
    ensures Entry(h, ": ") in Entries(UsedOf(StaticHelpers, p.helpers), ": ") <==> h in StaticHelpers && h in p.helpers
  {
    EntriesExactlyUsed(p.helpers, h, " as ");
    EntriesExactlyUsed(p.helpers, h, ": ");
    EntriesExactlyUsed(UsedOf(StaticHelpers, p.helpers), h, ": ");
    UsedOfExactly(StaticHelpers, p.helpers, h);
  }

  /** `let _temp0, _temp1, ...`. */
  function TempsText(n: nat): string {
    "let " + Join(seq(n, i requires 0 <= i < n => "_temp" + NatToString(i)), ", ")
  }

  /** The preamble `generate` writes for the mode. */
  function Preamble(p: Program, c: Config): string {
    if c.mode == ModuleMode then ModulePreamble(p, c) else FunctionPreamble(p, c)
  }

  /** The render function's opening line. */
  function RenderHeader(c: Config, scoped: bool): string {
    (if scoped && !c.ssr then "const render = _withId(" else "")
    + (if !c.ssr then "function render(_ctx, _cache) {" else "function ssrRender(_ctx, _push, _parent) {")
    + Newline(1)
  }

  /** In `with` mode: the `with (_ctx)` block's opening and the helpers it
      destructures from the runtime object. */
  function WithBlock(p: Program, useWith: bool): string {
    if useWith then
      "with (_ctx) {" + Newline(2)
      + (if |p.helpers| > 0 then "const { " + Join(Entries(p.helpers, ": "), ", ") + " } = _Vue" + "\n" + Newline(2) else "")
    else ""
  }

  /** The component resolutions, and the line break to what follows them. */
  function ComponentsPart(p: Program, level: nat): string {
    if |p.components| > 0 then
      GenAssets(p.components, "component", level)
      + (if |p.directives| > 0 || p.temps > 0 then Newline(level) else "")
    else ""
  }

  /** The directive resolutions, and the line break to the temporaries. */
  function DirectivesPart(p: Program, level: nat): string {
    if |p.directives| > 0 then GenAssets(p.directives, "directive", level) + (if p.temps > 0 then Newline(level) else "")
    else ""
  }

  /** The temporaries, and the blank line closing the block when it has
      anything at all. */
  function TempsPart(p: Program, level: nat): string {
    (if p.temps > 0 then TempsText(p.temps) else "")
    + (if |p.components| > 0 || |p.directives| > 0 || p.temps > 0 then "\n" + Newline(level) else "")
  }

  /** The component and directive resolutions and the temporaries, followed
      by a blank line when there is any. */
  function AssetsBlock(p: Program, level: nat): string {
    ComponentsPart(p, level) + DirectivesPart(p, level) + TempsPart(p, level)
  }

  /** The render function's body sits in a `with (_ctx)` block when
      identifiers are not prefixed and the output is not a module. */
  predicate UsesWith(c: Config) {
    !c.prefixIdentifiers && c.mode != ModuleMode
  }

  /** The indentation of the render function's statements. */
  function BodyLevel(c: Config): nat {
    if UsesWith(c) then 2 else 1
  }

  /** The statement returning the printed tree, or `null` without one; a
      server render function pushes its output and returns nothing. */
  function RenderReturn(p: Program, c: Config): string {
    (if !c.ssr then "return " else "")
    + (if p.codegenNode.Some? then Gen(p.codegenNode.value, c, BodyLevel(c)) else "null")
  }

  /** The closing braces of the `with` block and the render function. */
  function RenderClose(c: Config): string {
    (if UsesWith(c) then Newline(1) + "}" else "") + Newline(0) + "}"
    + (if c.scopeId.Some? && c.mode == ModuleMode && !c.ssr then ")" else "")
  }

  /** The program `transform` leaves on the root: the context's helpers,
      components and directives copied in insertion order, its hoists and
      temporaries, and the render tree. */
  function ProgramOf(s: State, codegenNode: Option<Node>): Program {
    Program(s.helpers, s.components, s.directives, s.hoists, s.temps, codegenNode)
  }

  /** `generate`: the preamble, then the render function: in `with` mode a
      `with (_ctx)` block binding the helpers, the asset resolutions and
      temporaries, and `return` of the printed tree (`null` without one).
      The output starts with the preamble and ends with the return of the
      printed tree and the closing braces; in `with` mode the block
      destructures every helper the program uses from the runtime object. */
  function Generate(p: Program, c: Config): (r: string)
    ensures |Preamble(p, c)| <= |r| && r[..|Preamble(p, c)|] == Preamble(p, c)
    ensures var tail := RenderReturn(p, c) + RenderClose(c);
            |tail| <= |r| && r[|r| - |tail|..] == tail
  {
    var scoped := c.scopeId.Some? && c.mode == ModuleMode;
    var pre, hw, ab := Preamble(p, c), RenderHeader(c, scoped) + WithBlock(p, UsesWith(c)), AssetsBlock(p, BodyLevel(c));
    var tail := RenderReturn(p, c) + RenderClose(c);
    Ends(pre, hw, ab, tail);
    pre + hw + ab + tail
  }

  /** The first and the last of four pieces are a prefix and a suffix of
      their concatenation. */
  lemma Ends(a: string, b: string, c: string, d: string)
    ensures |a| <= |a + b + c + d| && (a + b + c + d)[..|a|] == a
    ensures |d| <= |a + b + c + d| && (a + b + c + d)[|a + b + c + d| - |d|..] == d
  {
    var s := a + b + c + d;
    assert s == a + (b + c + d);
    assert s == (a + b + c) + d;
  }

  /** `m` occurs in `s`. */
  ghost predicate Contains(s: string, m: string) {
    exists a, b :: s == a + m + b
  }

  lemma ContainsSelf(m: string)
    ensures Contains(m, m)
  {
    assert m == [] + m + [];
  }

  /** What occurs in a text occurs in the text extended on either side. */
  lemma ContainsAppend(s: string, t: string, m: string)
    requires Contains(s, m)
    ensures Contains(s + t, m) && Contains(t + s, m)
  {
    var a, b :| s == a + m + b;
    assert s + t == a + m + (b + t);
    assert t + s == (t + a) + m + b;
  }

  /** What occurs in `x` occurs before `y` and `z` in `x + (y + z)`. */
  lemma ContainsBefore(x: string, y: string, z: string, m: string)
    requires Contains(x, m)
    ensures exists a, b :: x + (y + z) == a + m + b + y + z
  {
    var a, b :| x == a + m + b;
    assert x + (y + z) == a + m + b + y + z;
  }

  /** In `with` mode the render function destructures from the runtime
      object every helper the program uses, and no other. */
  lemma {:induction false} WithBindsHelpers(p: Program, c: Config, h: Helper)
    requires UsesWith(c) && |p.helpers| > 0
    ensures exists a, b :: Generate(p, c) == a + ("const { " + Join(Entries(p.helpers, ": "), ", ") + " } = _Vue") + b
    ensures Entry(h, ": ") in Entries(p.helpers, ": ") <==> h in p.helpers
  {
    EntriesExactlyUsed(p.helpers, h, ": ");
    var scoped := c.scopeId.Some? && c.mode == ModuleMode;
    var bind := "const { " + Join(Entries(p.helpers, ": "), ", ") + " } = _Vue";
    var pre, hd, ab := Preamble(p, c), RenderHeader(c, scoped), AssetsBlock(p, BodyLevel(c));
    ContainsSelf(bind);
    ContainsAppend(bind, "\n", bind);
    ContainsAppend(bind + "\n", Newline(2), bind);
    ContainsAppend(bind + "\n" + Newline(2), "with (_ctx) {" + Newline(2), bind);
    assert WithBlock(p, UsesWith(c)) == "with (_ctx) {" + Newline(2) + (bind + "\n" + Newline(2));
    ContainsAppend(WithBlock(p, UsesWith(c)), hd, bind);
    ContainsAppend(hd + WithBlock(p, UsesWith(c)), pre, bind);
    ContainsAppend(pre + (hd + WithBlock(p, UsesWith(c))), ab, bind);
    ContainsAppend(pre + (hd + WithBlock(p, UsesWith(c))) + ab, RenderReturn(p, c) + RenderClose(c), bind);
  }

  /** Every component the program resolves is declared inside the render
      function, before its return, under its asset id, by a
      `resolveComponent` call whose argument reads back as the component's
      name. */
  lemma {:induction false} ComponentDeclared(p: Program, c: Config, i: nat)
    requires i < |p.components|
    ensures exists a, b, q :: Generate(p, c)
                              == a + ("const " + ToValidAssetId(p.components[i], "component") + " = "
                                      + HelperText(ResolveComponent) + "(" + q + ")") + b
                                 + RenderReturn(p, c) + RenderClose(c)
                              && JsonUnquote(q) == Some(p.components[i])
  {
    var level := BodyLevel(c);
    var scoped := c.scopeId.Some? && c.mode == ModuleMode;
    AssetDeclared(p.components, "component", level, i);
    var g := GenAssets(p.components, "component", level);
    assert Resolver("component") == HelperText(ResolveComponent);
    var a, b, q :| g == a + ("const " + ToValidAssetId(p.components[i], "component") + " = " + HelperText(ResolveComponent) + "(" + q + ")") + b
                   && JsonUnquote(q) == Some(p.components[i]);
    var m := "const " + ToValidAssetId(p.components[i], "component") + " = " + HelperText(ResolveComponent) + "(" + q + ")";
    assert Contains(g, m);
    ContainsAppend(g, if |p.directives| > 0 || p.temps > 0 then Newline(level) else "", m);
    ContainsAppend(ComponentsPart(p, level), DirectivesPart(p, level), m);
    ContainsAppend(ComponentsPart(p, level) + DirectivesPart(p, level), TempsPart(p, level), m);
    var x := Preamble(p, c) + (RenderHeader(c, scoped) + WithBlock(p, UsesWith(c)));
    ContainsAppend(AssetsBlock(p, level), x, m);
    ContainsBefore(x + AssetsBlock(p, level), RenderReturn(p, c), RenderClose(c), m);
  }

  /** Every user directive the program resolves is declared inside the
      render function, before its return, by a `resolveDirective` call whose
      argument reads back as the directive's name. */
  lemma {:induction false} DirectiveDeclared(p: Program, c: Config, i: nat)
    requires i < |p.directives|
    ensures exists a, b, q :: Generate(p, c)
                              == a + ("const " + ToValidAssetId(p.directives[i], "directive") + " = "
                                      + HelperText(ResolveDirective) + "(" + q + ")") + b
                                 + RenderReturn(p, c) + RenderClose(c)
                              && JsonUnquote(q) == Some(p.directives[i])
  {
    var level := BodyLevel(c);
    var scoped := c.scopeId.Some? && c.mode == ModuleMode;
    assert "directive"[0] != "component"[0];
    AssetDeclared(p.directives, "directive", level, i);
    var g := GenAssets(p.directives, "directive", level);
    assert Resolver("directive") == HelperText(ResolveDirective);
    var a, b, q :| g == a + ("const " + ToValidAssetId(p.directives[i], "directive") + " = " + HelperText(ResolveDirective) + "(" + q + ")") + b
                   && JsonUnquote(q) == Some(p.directives[i]);
    var m := "const " + ToValidAssetId(p.directives[i], "directive") + " = " + HelperText(ResolveDirective) + "(" + q + ")";
    assert Contains(g, m);
    ContainsAppend(g, if p.temps > 0 then Newline(level) else "", m);
    ContainsAppend(DirectivesPart(p, level), ComponentsPart(p, level), m);
    ContainsAppend(ComponentsPart(p, level) + DirectivesPart(p, level), TempsPart(p, level), m);
    var x := Preamble(p, c) + (RenderHeader(c, scoped) + WithBlock(p, UsesWith(c)));
    ContainsAppend(AssetsBlock(p, level), x, m);
    ContainsBefore(x + AssetsBlock(p, level), RenderReturn(p, c), RenderClose(c), m);
  }

  /** Every hoisted expression is declared in the preamble, before the
      render function, under the name of its position; in the whole output
      that declaration comes before the render function's return. */
  lemma {:induction false} HoistDeclared(p: Program, c: Config, k: nat)
    requires k < |p.hoists|
    ensures exists a, b :: Preamble(p, c) == a + HoistLine(k, p.hoists[k], c) + b
    ensures exists a, b :: Generate(p, c) == a + HoistLine(k, p.hoists[k], c) + b + RenderReturn(p, c) + RenderClose(c)
  {
    HoistLineAt(p.hoists, c, k);
    var line := HoistLine(k, p.hoists[k], c);
    var hl := HoistLines(p.hoists, c);
    assert Contains(hl, line);
    var scoped := c.scopeId.Some? && c.mode != FunctionMode;
    var push := if scoped then HelperText(PushScopeId) + "(\"" + c.scopeId.value + "\")" + Newline(0) else "";
    var pop := if scoped then HelperText(PopScopeId) + "()" + Newline(0) else "";
    ContainsAppend(hl, Newline(0) + push, line);
    ContainsAppend(Newline(0) + push + hl, pop, line);
    assert GenHoists(p.hoists, c) == Newline(0) + push + hl + pop;
    var bind := if c.mode == ModuleMode then ModuleBindings(p, c) else FunctionBindings(p, c);
    var lead := if c.mode == ModuleMode then "export " else "return ";
    ContainsAppend(GenHoists(p.hoists, c), bind, line);
    ContainsAppend(bind + GenHoists(p.hoists, c), Newline(0) + lead, line);
    assert Preamble(p, c) == bind + GenHoists(p.hoists, c) + (Newline(0) + lead);
    var scoped1 := c.scopeId.Some? && c.mode == ModuleMode;
    ContainsAppend(Preamble(p, c), RenderHeader(c, scoped1) + WithBlock(p, UsesWith(c)), line);
    ContainsAppend(Preamble(p, c) + (RenderHeader(c, scoped1) + WithBlock(p, UsesWith(c))), AssetsBlock(p, BodyLevel(c)), line);
    ContainsBefore(Preamble(p, c) + (RenderHeader(c, scoped1) + WithBlock(p, UsesWith(c))) + AssetsBlock(p, BodyLevel(c)),
                   RenderReturn(p, c), RenderClose(c), line);
  }

  /** A user component met while transforming ends up declared by the
      generated code: the render function resolves it under the id the
      element refers to, and the runtime helper doing so is among those the
      program binds. */
  lemma ResolvedComponentDeclared(s: State, tag: string, tree: Option<Node>, c: Config)
    ensures var (id, s1) := AddComponent(s, tag);
            && ResolveComponent in ProgramOf(s1, tree).helpers
            && exists a, b, q :: Generate(ProgramOf(s1, tree), c)
                                 == a + ("const " + id + " = " + HelperText(ResolveComponent) + "(" + q + ")") + b
                                    + RenderReturn(ProgramOf(s1, tree), c) + RenderClose(c)
                                 && JsonUnquote(q) == Some(tag)
  {
    var (id, s1) := AddComponent(s, tag);
    var p := ProgramOf(s1, tree);
    var i :| 0 <= i < |p.components| && p.components[i] == tag;
    ComponentDeclared(p, c, i);
  }
}
