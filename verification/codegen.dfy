/** The code generator's printer: how each node of the JavaScript AST the
    transforms build is written out as source text (`genNode` and the
    functions it dispatches to). The printer appends to one string, so each
    function here returns the text its counterpart pushes. A newline is
    followed by two spaces per indentation level; every printer function
    leaves the level as it found it, so the level is a parameter. */
module Codegen {
  import opened Wrappers
  import opened Strings
  import opened Ast
  import opened AstUtils

  /** `mode` of the compile: a function body to evaluate, or an ES module. */
  datatype Mode = FunctionMode | ModuleMode

  /** The options the printer reads. */
  datatype Config = Config(mode: Mode, prefixIdentifiers: bool, scopeId: Option<string>, optimizeBindings: bool,
                           runtimeGlobalName: string, runtimeModuleName: string, ssr: bool)

  /** `n` copies of `s`. */
  function Repeat(s: string, n: nat): (r: string)
    ensures |r| == n * |s|
  {
    if n == 0 then "" else s + Repeat(s, n - 1)
  }

  /** `newline(n)`: a line break and the indentation of level `n`. */
  function Newline(level: nat): (r: string)
    ensures |r| == 1 + 2 * level && r[0] == '\n'
  {
    "\n" + Repeat("  ", level)
  }

  /** `context.helper(h)` of the code generator: the local alias of a
      helper. */
  function HelperText(h: Helper): string {
    "_" + HelperName(h)
  }

  // ---------------------------------------------------------------------
  // genNullableArgs
  // ---------------------------------------------------------------------

  /** One past the position of the last present argument. */
  function PresentCount<T>(args: seq<Option<T>>): (k: nat)
    ensures k <= |args|
    ensures k > 0 ==> args[k - 1].Some?
    ensures forall j :: k <= j < |args| ==> args[j].None?
    decreases |args|
  {
    if |args| == 0 then 0
    else if args[|args| - 1].Some? then |args|
    else PresentCount(args[..|args| - 1])
  }

  /** `genNullableArgs`: the arguments up to the last present one, each
      absent one before it written as `nul`. */
  function NullableArgs<T>(args: seq<Option<T>>, nul: T): (r: seq<T>)
    ensures |r| == PresentCount(args)
  {
    seq(PresentCount(args), i requires 0 <= i < PresentCount(args) => if args[i].Some? then args[i].value else nul)
  }

  /** How a callee reads a positional argument list back: a missing
      position and `nul` both mean "absent". */
  function ReadArgs<T(==)>(r: seq<T>, n: nat, nul: T): seq<Option<T>> {
    seq(n, i requires 0 <= i < n => if i < |r| && r[i] != nul then Some(r[i]) else None)
  }

  /** Trimming the trailing absent arguments loses nothing: reading the list
      back at the original arity gives the original arguments, and the list
      never ends in `nul`. */
  lemma NullableArgsRoundTrip<T>(args: seq<Option<T>>, nul: T)
    requires forall i :: 0 <= i < |args| && args[i].Some? ==> args[i].value != nul
    ensures ReadArgs(NullableArgs(args, nul), |args|, nul) == args
    ensures |NullableArgs(args, nul)| > 0 ==> NullableArgs(args, nul)[|NullableArgs(args, nul)| - 1] != nul
  {
    var r := NullableArgs(args, nul);
    var k := PresentCount(args);
    forall i | 0 <= i < |args|
      ensures ReadArgs(r, |args|, nul)[i] == args[i]
    {
      if i < k {
        assert r[i] == if args[i].Some? then args[i].value else nul;
      }
    }
  }

  // ---------------------------------------------------------------------
  // Expressions and keys
  // ---------------------------------------------------------------------

  /** `genExpression`: a static expression as a string literal, any other
      as its code. */
  function ExpressionText(content: string, isStatic: bool): string {
    if isStatic then JsonQuote(content) else content
  }

  /** `genExpressionAsPropertyKey` for a key that is not compound: a static
      key bare when it is an identifier and quoted otherwise, a dynamic key
      computed in brackets. */
  function SimpleKeyText(key: Node): string {
    if key.SimpleExpression? && key.isStatic then
      if IsSimpleIdentifier(key.content) then key.content else JsonQuote(key.content)
    else if key.SimpleExpression? then "[" + key.content + "]"
    else "[undefined]"
  }

  /** A static key reads back as its name: an identifier stands as it is,
      anything else through its string literal; a dynamic key is its
      expression in brackets. */
  lemma SimpleKeyRoundTrip(key: Node)
    requires key.SimpleExpression?
    ensures key.isStatic && IsSimpleIdentifier(key.content) ==> SimpleKeyText(key) == key.content
    ensures key.isStatic && !IsSimpleIdentifier(key.content) ==> JsonUnquote(SimpleKeyText(key)) == Some(key.content)
    ensures !key.isStatic ==> SimpleKeyText(key) == "[" + key.content + "]"
  {
    if key.isStatic && !IsSimpleIdentifier(key.content) {
      JsonRoundTrip(key.content);
    }
  }

  /** A static expression or a text node reads back as its content through
      the string literal printed for it. */
  lemma StaticTextRoundTrip(n: Node, c: Config, level: nat)
    requires n.Text? || (n.SimpleExpression? && n.isStatic)
    ensures JsonUnquote(Gen(n, c, level)) == Some(n.content)
  {
    JsonRoundTrip(n.content);
  }

  /** `isText$1`: a node `genNodeListAsArray` keeps on one line. */
  predicate IsTextLike(n: Node) {
    n.Raw? || n.SimpleExpression? || n.Text? || n.Interpolation? || n.CompoundExpression?
  }

  /** A callee: code as it is, a helper by its alias. */
  function CalleeText(callee: Node): string {
    if callee.Raw? then callee.code else if callee.HelperRef? then HelperText(callee.helper) else "_undefined"
  }

  // ---------------------------------------------------------------------
  // Template literals (server rendering)
  // ---------------------------------------------------------------------

  /** The escaping `genTemplateLiteral` applies to a string part as written:
      only backticks get a backslash. */
  function EscapeTemplateAsWritten(s: string): (r: string)
    decreases |s|
  {
    if |s| == 0 then "" else (if s[0] == '`' then "\\`" else [s[0]]) + EscapeTemplateAsWritten(s[1..])
  }

  /** The escaping a template literal needs so that its text reads back as
      the string: a backslash before every backslash, backtick and dollar
      sign. */
  function EscapeTemplate(s: string): (r: string)
    decreases |s|
  {
    if |s| == 0 then ""
    else (if s[0] == '\\' || s[0] == '`' || s[0] == '$' then ['\\', s[0]] else [s[0]]) + EscapeTemplate(s[1..])
  }

  /** How JavaScript reads the text part of a template literal up to its
      closing backtick: `\\`, `` \` ``, `\$` and `\{` stand for the second
      character; the part ends at an unescaped backtick, and `${` starts a
      substitution instead (`None`, as does an escape this reading does not
      cover or a missing closing backtick). */
  function ReadTemplateText(t: string): Option<string>
    decreases |t|
  {
    if |t| == 0 then None
    else if t[0] == '`' then Some("")
    else if t[0] == '$' && |t| > 1 && t[1] == '{' then None
    else if t[0] == '\\' then
      if |t| >= 2 && (t[1] == '\\' || t[1] == '`' || t[1] == '$' || t[1] == '{') then
        match ReadTemplateText(t[2..]) case Some(v) => Some([t[1]] + v) case None => None
      else None
    else
      match ReadTemplateText(t[1..]) case Some(v) => Some([t[0]] + v) case None => None
  }

  /** With the corrected escaping, a string part followed by the closing
      backtick reads back as the string itself. */
  lemma {:induction false} TemplateTextRoundTrip(s: string)
    ensures ReadTemplateText(EscapeTemplate(s) + "`") == Some(s)
    decreases |s|
  {
    if |s| > 0 {
      TemplateTextRoundTrip(s[1..]);
      var tail := EscapeTemplate(s[1..]) + "`";
      if s[0] == '\\' || s[0] == '`' || s[0] == '$' {
        assert EscapeTemplate(s) + "`" == ['\\', s[0]] + tail;
        assert (['\\', s[0]] + tail)[2..] == tail;
      } else {
        assert EscapeTemplate(s) + "`" == [s[0]] + tail;
        assert ([s[0]] + tail)[1..] == tail;
      }
      assert [s[0]] + s[1..] == s;
    }
  }

  /** As written, a backslash before a backtick escapes the inserted
      backslash instead, so the backtick closes the literal early: the text
      `` \` `` reads back as a lone backslash. */
  lemma BacktickAfterBackslashAsWritten()
    ensures ReadTemplateText(EscapeTemplateAsWritten("\\`") + "`") == Some("\\")
  {
    var bt: string := "`";
    assert EscapeTemplateAsWritten(bt[1..]) == "";
    assert EscapeTemplateAsWritten(bt) == "\\`";
    assert "\\`"[1..] == bt;
    assert EscapeTemplateAsWritten("\\`") == "\\\\`";
    var t := "\\\\`" + "`";
    assert t[2..] == "``";
    assert ReadTemplateText("``") == Some("");
    assert ReadTemplateText(t) == Some(['\\'] + "");
    assert EscapeTemplateAsWritten("\\`") + "`" == t;
    assert ['\\'] + "" == "\\";
  }

  /** As written, `${` in a string part is left alone and starts a
      substitution when the literal is evaluated. */
  lemma SubstitutionAsWritten()
    ensures ReadTemplateText(EscapeTemplateAsWritten("${x}") + "`") == None
  {
    assert EscapeTemplateAsWritten("${x}") == "${x}";
  }

  // ---------------------------------------------------------------------
  // genNode
  // ---------------------------------------------------------------------

  /** `genNode`. Template nodes print their code generation node; a comment
      and the node kinds the dispatch does not list print nothing. */
  function Gen(n: Node, c: Config, level: nat): string
    decreases n, 2
  {
    match n
    case Raw(code) => code
    case HelperRef(h) => HelperText(h)
    case Element(_, _, _, _, _, _, _, cg) => if cg.Some? then Gen(cg.value, c, level) else ""
    case If(_, _, cg) => if cg.Some? then Gen(cg.value, c, level) else ""
    case For(_, _, _, _, _, _, cg) => if cg.Some? then Gen(cg.value, c, level) else ""
    case TextCall(_, _, cg) => if cg.Some? then Gen(cg.value, c, level) else ""
    case Text(content, _) => JsonQuote(content)
    case SimpleExpression(content, isStatic, _, _) => ExpressionText(content, isStatic)
    case Interpolation(inner, _) => HelperText(ToDisplayString) + "(" + Gen(inner, c, level) + ")"
    case CompoundExpression(children, _) => GenCompound(children, c, level)
    case VNodeCall(tag, props, children, patchFlag, dynamicProps, directives, isBlock, isForBlock, _) =>
      var args := NullableArgs([Some(Item(tag, c, level)),
                                if props.Some? then Some(Item(props.value, c, level)) else None,
                                if children.Some? then Some(Item(children.value, c, level)) else None,
                                if patchFlag.Some? then Some(if patchFlag.value == "" then "null" else patchFlag.value) else None,
                                if dynamicProps.Some? then Some(if dynamicProps.value == "" then "null" else dynamicProps.value) else None],
                               "null");
      (if directives.Some? then HelperText(WithDirectives) + "(" else "")
      + (if isBlock then "(" + HelperText(OpenBlock) + "(" + (if isForBlock then "true" else "") + "), " else "")
      + HelperText(if isBlock then CreateBlock else CreateVNode) + "(" + Join(args, ", ") + ")"
      + (if isBlock then ")" else "")
      + (if directives.Some? then ", " + Gen(directives.value, c, level) + ")" else "")
    case CallExpression(callee, args, _) => CalleeText(callee) + "(" + GenList(args, c, level, false, true) + ")"
    case ObjectExpression(properties, _) =>
      if |properties| == 0 then "{}"
      else
        var ml := |properties| > 1 || exists i :: 0 <= i < |properties| && !properties[i].value.SimpleExpression?;
        var inner := if ml then level + 1 else level;
        (if ml then "{" + Newline(inner) else "{ ")
        + GenProperties(properties, c, inner)
        + (if ml then Newline(level) + "}" else " }")
    case ArrayExpression(elements, _) => GenAsArray(elements, c, level)
    case FunctionExpression(params, result, newline, isSlot, _) =>
      var withId := isSlot && c.scopeId.Some? && c.mode != FunctionMode;
      var inner := if newline then level + 1 else level;
      (if withId then "_withId(" else if isSlot then "_" + HelperName(WithCtx) + "(" else "")
      + "("
      + (if params.Some? then
           (if params.value.NodeList? then GenList(params.value.items, c, level, false, true) else Gen(params.value, c, level))
         else "")
      + ") => "
      + (if newline then "{" + Newline(inner) else "")
      + (if result.Some? then
           (if newline then "return " else "")
           + (if result.value.NodeList? then GenAsArray(result.value.items, c, inner) else Gen(result.value, c, inner))
         else "")
      + (if newline then Newline(level) + "}" else "")
      + (if withId || isSlot then ")" else "")
    case ConditionalExpression(test, consequent, alternate, newline) =>
      var l1 := if newline then level + 1 else level;
      (if test.SimpleExpression? then
         if IsSimpleIdentifier(test.content) then ExpressionText(test.content, test.isStatic)
         else "(" + ExpressionText(test.content, test.isStatic) + ")"
       else "(" + Gen(test, c, level) + ")")
      + (if newline then Newline(l1) else " ") + "? " + Gen(consequent, c, l1 + 1)
      + (if newline then Newline(l1) else " ") + ": "
      + Gen(alternate, c, if alternate.ConditionalExpression? then l1 else l1 + 1)
    case CacheExpression(index, value, isVNode) =>
      var slot := "_cache[" + NatToString(index) + "]";
      slot + " || ("
      + (if isVNode then Newline(level + 1) + HelperText(SetBlockTracking) + "(-1)," + Newline(level + 1) else "")
      + slot + " = " + Gen(value, c, if isVNode then level + 1 else level)
      + (if isVNode then
           "," + Newline(level + 1) + HelperText(SetBlockTracking) + "(1)," + Newline(level + 1) + slot + Newline(level)
         else "")
      + ")"
    case BlockStatement(body) => GenList(body, c, level, true, false)
    case TemplateLiteral(elements) => "`" + GenTemplateParts(elements, c, level, |elements| > 3) + "`"
    case IfStatement(test, consequent, alternate) =>
      "if (" + Gen(test, c, level) + ") {" + Newline(level + 1) + Gen(consequent, c, level + 1) + Newline(level) + "}"
      + (if alternate.Some? then
           " else "
           + (if alternate.value.IfStatement? then Gen(alternate.value, c, level)
              else "{" + Newline(level + 1) + Gen(alternate.value, c, level + 1) + Newline(level) + "}")
         else "")
    case AssignmentExpression(left, right) => Gen(left, c, level) + " = " + Gen(right, c, level)
    case SequenceExpression(expressions) => "(" + GenList(expressions, c, level, false, true) + ")"
    case ReturnStatement(returned) =>
      "return " + (if returned.NodeList? then GenAsArray(returned.items, c, level) else Gen(returned, c, level))
    case Root(_, _) => ""
    case Comment(_, _) => ""
    case IfBranch(_, _, _) => ""
    case NodeList(_) => ""
  }

  /** An entry of `genNodeList`: code as it is, an array as an array
      literal, a node through `genNode`. */
  function Item(n: Node, c: Config, level: nat): string
    decreases n, 3
  {
    if n.NodeList? then GenAsArray(n.items, c, level) else Gen(n, c, level)
  }

  /** `genNodeList`: the entries, separated by a comma (when `comma`) and a
      newline (when `multilines`) or by `, `. */
  function GenList(ns: seq<Node>, c: Config, level: nat, multilines: bool, comma: bool): string
    decreases ns, 1
  {
    if |ns| == 0 then ""
    else
      Item(ns[0], c, level)
      + (if |ns| > 1 then
           if multilines then (if comma then "," else "") + Newline(level) else (if comma then ", " else "")
         else "")
      + GenList(ns[1..], c, level, multilines, comma)
  }

  /** `genNodeListAsArray`: one line for up to three text-like entries, one
      entry per line otherwise. */
  function GenAsArray(ns: seq<Node>, c: Config, level: nat): string
    decreases ns, 2
  {
    var ml := |ns| > 3 || exists i :: 0 <= i < |ns| && (ns[i].NodeList? || !IsTextLike(ns[i]));
    "[" + (if ml then Newline(level + 1) else "")
    + GenList(ns, c, if ml then level + 1 else level, ml, true)
    + (if ml then Newline(level) else "") + "]"
  }

  /** `genCompoundExpression`: the parts one after the other. */
  function GenCompound(ns: seq<Node>, c: Config, level: nat): string
    decreases ns, 1
  {
    if |ns| == 0 then "" else Gen(ns[0], c, level) + GenCompound(ns[1..], c, level)
  }

  /** The properties of a multi-line or one-line object literal, each
      `key: value`, separated by a comma and a newline. */
  function GenProperties(ps: seq<Property>, c: Config, level: nat): string
    decreases ps, 1
  {
    if |ps| == 0 then ""
    else
      GenProperty(ps[0], c, level)
      + (if |ps| > 1 then "," + Newline(level) else "")
      + GenProperties(ps[1..], c, level)
  }

  /** One property: a computed key in brackets, a simple one as a name or a
      string literal, then the value. */
  function GenProperty(p: Property, c: Config, level: nat): string
    decreases p, 0
  {
    (if p.key.CompoundExpression? then "[" + GenCompound(p.key.children, c, level) + "]"
     else SimpleKeyText(p.key))
    + ": " + Gen(p.value, c, level)
  }

  /** The parts of a template literal: string parts escaped, the others as
      substitutions. */
  function GenTemplateParts(es: seq<Node>, c: Config, level: nat, multilines: bool): string
    decreases es, 1
  {
    if |es| == 0 then ""
    else
      (if es[0].Raw? then EscapeTemplate(es[0].code)
       else "${" + (if multilines then Newline(level + 1) else "")
            + Gen(es[0], c, if multilines then level + 1 else level)
            + (if multilines then Newline(level) else "") + "}")
      + GenTemplateParts(es[1..], c, level, multilines)
  }
}
