/** The two pieces of a vnode call that `transformElement` prints from the
    props analysis: the argument array of each runtime directive
    (`buildDirectiveArgs`) and the list of dynamic prop names
    (`stringifyDynamicPropNames`). Each comes with the reading the runtime
    applies to it. */
module ElementArgs {
  import opened Wrappers
  import opened Strings
  import opened Ast
  import opened AstUtils
  import opened TransformContext
  import ElementProps

  // ---------------------------------------------------------------------
  // buildDirectiveArgs
  // ---------------------------------------------------------------------

  /** The placeholder for an absent argument. */
  const Undefined := Raw("void 0")

  /** The object literal of a directive's modifiers, each mapped to `true`. */
  function ModifiersObject(mods: seq<string>, dir: Prop): (r: Node)
    ensures r.ObjectExpression? && |r.properties| == |mods|
    ensures forall i :: 0 <= i < |mods| ==> r.properties[i].key == Simple(mods[i], true)
  {
    var t := SimpleExpression("true", false, false, dir.loc);
    ObjectExpression(seq(|mods|, i requires 0 <= i < |mods| => PropertyOf(mods[i], t)), dir.loc)
  }

  /** The first entry: the runtime helper the directive's transform named,
      or the resolved user directive, which asks for `resolveDirective` and
      records the directive's name. */
  function DirectiveHead(rd: ElementProps.RuntimeDirective, s: State): (r: (Node, State))
    requires rd.dir.Directive?
    ensures rd.helper.Some? ==> r.0 == Raw("_" + HelperName(rd.helper.value)) && r.1.helpers == AddOnce(s.helpers, rd.helper.value)
    ensures rd.helper.None? ==>
              r.0 == Raw(ToValidAssetId(rd.dir.name, "directive"))
              && r.1.helpers == AddOnce(s.helpers, ResolveDirective)
              && r.1.directives == AddOnce(s.directives, rd.dir.name)
    ensures r.1.hoists == s.hoists && r.1.identifiers == s.identifiers
  {
    match rd.helper
    case Some(h) => (Raw("_" + HelperName(h)), AddHelper(s, h))
    case None =>
      var s1 := AddHelper(s, ResolveDirective);
      (Raw(ToValidAssetId(rd.dir.name, "directive")), s1.(directives := AddOnce(s1.directives, rd.dir.name)))
  }

  /** The entries after the head: the expression, the argument and the
      modifiers object, with `void 0` standing for an absent expression or
      argument that a later entry has to be placed after. */
  function ArgsAfterHead(exp: Option<Node>, arg: Option<Node>, mods: Option<Node>): seq<Node> {
    (if exp.Some? then [exp.value] else [])
    + (if arg.Some? then (if exp.None? then [Undefined] else []) + [arg.value] else [])
    + (if mods.Some? then (if arg.None? then (if exp.None? then [Undefined] else []) + [Undefined] else []) + [mods.value]
       else [])
  }

  /** `buildDirectiveArgs`: the head, then the entries after it, as an array
      located at the directive. */
  function BuildDirectiveArgs(rd: ElementProps.RuntimeDirective, s: State): (r: (Node, State))
    requires rd.dir.Directive?
    ensures r.0.ArrayExpression? && r.0.loc == rd.dir.loc
    ensures r.1.hoists == s.hoists && r.1.identifiers == s.identifiers
  {
    var dir := rd.dir;
    var (head, s1) := DirectiveHead(rd, s);
    var mods := if |dir.modifiers| > 0 then Some(ModifiersObject(dir.modifiers, dir)) else None;
    (ArrayExpression([head] + ArgsAfterHead(dir.exp, dir.arg, mods), dir.loc), s1)
  }

  /** What the runtime reads from a directive's argument array: the entry
      at a position, absent when the array is too short or holds `void 0`
      there. */
  function Slot(args: seq<Node>, i: nat): Option<Node> {
    if i < |args| && args[i] != Undefined then Some(args[i]) else None
  }

  /** Each entry lands at its fixed position behind the head, and the list
      ends with its last present entry. */
  lemma ArgsPlaced(head: Node, exp: Option<Node>, arg: Option<Node>, mods: Option<Node>)
    requires exp.None? || exp.value != Undefined
    requires arg.None? || arg.value != Undefined
    requires mods.None? || mods.value != Undefined
    ensures var a := [head] + ArgsAfterHead(exp, arg, mods);
            && Slot(a, 1) == exp && Slot(a, 2) == arg && Slot(a, 3) == mods
            && |a| == (if mods.Some? then 4 else if arg.Some? then 3 else if exp.Some? then 2 else 1)
            && (|a| > 1 ==> a[|a| - 1] != Undefined)
  {
    var a := [head] + ArgsAfterHead(exp, arg, mods);
    if mods.Some? {
      if arg.Some? {
        if exp.Some? { assert a == [head, exp.value, arg.value, mods.value]; }
        else { assert a == [head, Undefined, arg.value, mods.value]; }
      } else {
        if exp.Some? { assert a == [head, exp.value, Undefined, mods.value]; }
        else { assert a == [head, Undefined, Undefined, mods.value]; }
      }
    } else if arg.Some? {
      if exp.Some? { assert a == [head, exp.value, arg.value]; }
      else { assert a == [head, Undefined, arg.value]; }
    } else if exp.Some? {
      assert a == [head, exp.value];
    } else {
      assert a == [head];
    }
  }

  /** The name a static key spells. */
  function KeyName(p: Property): string {
    if p.key.SimpleExpression? then p.key.content else ""
  }

  /** The modifier names the runtime reads from a modifiers object. */
  function ModifierNames(n: Node): seq<string> {
    if n.ObjectExpression? then seq(|n.properties|, i requires 0 <= i < |n.properties| => KeyName(n.properties[i]))
    else []
  }

  /** The modifiers read back from their object. */
  lemma ModifiersRoundTrip(mods: seq<string>, dir: Prop)
    ensures ModifierNames(ModifiersObject(mods, dir)) == mods
  {
  }

  /** Reading the array back gives the directive's expression, argument and
      modifiers, and the array stops at its last present entry, so no
      `void 0` trails it. */
  lemma DirectiveArgsRoundTrip(rd: ElementProps.RuntimeDirective, s: State)
    requires rd.dir.Directive?
    requires rd.dir.exp.None? || rd.dir.exp.value != Undefined
    requires rd.dir.arg.None? || rd.dir.arg.value != Undefined
    ensures var a := BuildDirectiveArgs(rd, s).0.elements;
            && a[0] == DirectiveHead(rd, s).0
            && Slot(a, 1) == rd.dir.exp && Slot(a, 2) == rd.dir.arg
            && (match Slot(a, 3) case Some(m) => ModifierNames(m) case None => []) == rd.dir.modifiers
            && |a| == (if |rd.dir.modifiers| > 0 then 4 else if rd.dir.arg.Some? then 3
                       else if rd.dir.exp.Some? then 2 else 1)
            && (|a| > 1 ==> a[|a| - 1] != Undefined)
  {
    var dir := rd.dir;
    var mods := if |dir.modifiers| > 0 then Some(ModifiersObject(dir.modifiers, dir)) else None;
    var head := DirectiveHead(rd, s).0;
    assert BuildDirectiveArgs(rd, s).0.elements == [head] + ArgsAfterHead(dir.exp, dir.arg, mods);
    ArgsPlaced(head, dir.exp, dir.arg, mods);
    ModifiersRoundTrip(dir.modifiers, dir);
  }

  /** The `directives` array of a vnode call: one argument array per runtime
      directive, in order. */
  function DirectivesArray(rds: seq<ElementProps.RuntimeDirective>, s: State): (r: (seq<Node>, State))
    requires forall i :: 0 <= i < |rds| ==> rds[i].dir.Directive?
    ensures |r.0| == |rds|
    ensures r.1.hoists == s.hoists && r.1.identifiers == s.identifiers
    decreases |rds|
  {
    if |rds| == 0 then ([], s)
    else
      var init := rds[..|rds| - 1];
      assert forall i :: 0 <= i < |init| ==> init[i] == rds[i];
      var p := DirectivesArray(init, s);
      var q := BuildDirectiveArgs(rds[|rds| - 1], p.1);
      (p.0 + [q.0], q.1)
  }

  /** Entry `i` of the array is the argument array of directive `i`, built
      in the state the directives before it left behind. */
  lemma {:induction false} DirectivesArrayEntries(rds: seq<ElementProps.RuntimeDirective>, s: State, i: nat)
    requires forall k :: 0 <= k < |rds| ==> rds[k].dir.Directive?
    requires i < |rds|
    ensures DirectivesArray(rds, s).0[i] == BuildDirectiveArgs(rds[i], DirectivesArray(rds[..i], s).1).0
    ensures DirectivesArray(rds, s).0[i].loc == rds[i].dir.loc
    decreases |rds|
  {
    var init := rds[..|rds| - 1];
    if i < |rds| - 1 {
      assert init[..i] == rds[..i];
      assert init[i] == rds[i];
      DirectivesArrayEntries(init, s, i);
    } else {
      assert rds[..i] == init;
    }
  }

  // ---------------------------------------------------------------------
  // stringifyDynamicPropNames
  // ---------------------------------------------------------------------

  /** The names, each as a JSON string, separated by `, `. */
  function JoinedNames(names: seq<string>): (r: string)
    ensures |names| > 0 ==> |r| >= 2 && r[0] == '"'
    decreases |names|
  {
    if |names| == 0 then ""
    else if |names| == 1 then JsonQuote(names[0])
    else JsonQuote(names[0]) + (", " + JoinedNames(names[1..]))
  }

  /** `stringifyDynamicPropNames`: the names as a JavaScript array literal. */
  function StringifyDynamicPropNames(names: seq<string>): (r: string)
    ensures |r| >= 2 && r[0] == '[' && r[|r| - 1] == ']'
  {
    "[" + JoinedNames(names) + "]"
  }

  /** The offset of the quote that closes a JSON string body, skipping each
      escape as a pair. */
  function CloseQuote(t: string): (r: Option<nat>)
    ensures r.Some? ==> r.value < |t|
    decreases |t|
  {
    if |t| == 0 then None
    else if t[0] == '"' then Some(0)
    else if t[0] == '\\' then
      if |t| < 2 then None
      else match CloseQuote(t[2..]) case Some(k) => Some(k + 2) case None => None
    else match CloseQuote(t[1..]) case Some(k) => Some(k + 1) case None => None
  }

  /** Reads a list of JSON strings separated by `, `. */
  function ReadList(t: string): Option<seq<string>>
    decreases |t|
  {
    if |t| == 0 then Some([])
    else if t[0] != '"' then None
    else
      match CloseQuote(t[1..])
      case None => None
      case Some(k) =>
        match JsonUnescape(t[1..k + 1])
        case None => None
        case Some(v) =>
          var rest := t[k + 2..];
          if |rest| == 0 then Some([v])
          else if |rest| > 2 && rest[..2] == ", " then
            match ReadList(rest[2..])
            case Some(vs) => Some([v] + vs)
            case None => None
          else None
  }

  /** Reads a JavaScript array literal of strings. */
  function ReadNames(t: string): Option<seq<string>> {
    if |t| >= 2 && t[0] == '[' && t[|t| - 1] == ']' then ReadList(t[1..|t| - 1]) else None
  }

  /** An offset moved `n` characters on. */
  function Shift(o: Option<nat>, n: nat): Option<nat> {
    match o case Some(k) => Some(k + n) case None => None
  }

  /** A character that is neither a quote nor a backslash is passed over. */
  lemma ClosePlain(c: char, t: string)
    requires c != '"' && c != '\\'
    ensures CloseQuote([c] + t) == Shift(CloseQuote(t), 1)
  {
    assert ([c] + t)[1..] == t;
  }

  /** A piece of text the scan passes over as a whole, whatever follows. */
  ghost predicate Transparent(e: string) {
    forall t {:trigger CloseQuote(e + t)} :: CloseQuote(e + t) == Shift(CloseQuote(t), |e|)
  }

  lemma PlainTransparent(c: char)
    requires c != '"' && c != '\\'
    ensures Transparent([c])
  {
    forall t ensures CloseQuote([c] + t) == Shift(CloseQuote(t), 1) {
      ClosePlain(c, t);
    }
  }

  lemma ConcatTransparent(a: string, b: string)
    requires Transparent(a) && Transparent(b)
    ensures Transparent(a + b)
  {
    forall t ensures CloseQuote((a + b) + t) == Shift(CloseQuote(t), |a + b|) {
      var u := b + t;
      assert CloseQuote(u) == Shift(CloseQuote(t), |b|);
      assert CloseQuote(a + u) == Shift(CloseQuote(u), |a|);
      assert (a + b) + t == a + u;
    }
  }

  /** A two-character escape is passed over as a whole. */
  lemma PairTransparent(c: char)
    ensures Transparent(['\\', c])
  {
    forall t ensures CloseQuote(['\\', c] + t) == Shift(CloseQuote(t), 2) {
      assert (['\\', c] + t)[2..] == t;
    }
  }

  lemma HexDigitPlain(d: nat)
    requires d < 16
    ensures HexDigit(d) != '"' && HexDigit(d) != '\\'
  {
  }

  /** Each escaped character is passed over as a whole: a `\\u00XX` escape
      is an escape pair followed by four plain characters. */
  lemma CharTransparent(c: char)
    ensures Transparent(JsonEscapeChar(c))
  {
    var e := JsonEscapeChar(c);
    if c == '"' || c == '\\' || c == '\U{0008}' || c == '\U{000C}' || c == '\n' || c == '\r' || c == '\t' {
      PairTransparent(e[1]);
      assert e == ['\\', e[1]];
    } else if c < ' ' {
      var h1, h2 := HexDigit(c as int / 16), HexDigit(c as int % 16);
      HexDigitPlain(c as int / 16);
      HexDigitPlain(c as int % 16);
      PairTransparent('u');
      PlainTransparent('0');
      PlainTransparent(h1);
      PlainTransparent(h2);
      ConcatTransparent(['0'], [h1]);
      ConcatTransparent(['0'], ['0'] + [h1]);
      ConcatTransparent(['0'] + (['0'] + [h1]), [h2]);
      ConcatTransparent(['\\', 'u'], (['0'] + (['0'] + [h1])) + [h2]);
      assert e == ['\\', 'u'] + ((['0'] + (['0'] + [h1])) + [h2]);
    } else {
      assert e == [c];
      PlainTransparent(c);
    }
  }

  /** An escaped string is passed over as a whole. */
  lemma {:induction false} EscapeTransparent(s: string)
    ensures Transparent(JsonEscape(s))
    decreases |s|
  {
    if |s| == 0 {
      forall t ensures CloseQuote(JsonEscape(s) + t) == Shift(CloseQuote(t), 0) {
        assert JsonEscape(s) + t == t;
      }
    } else {
      EscapeTransparent(s[1..]);
      CharTransparent(s[0]);
      ConcatTransparent(JsonEscapeChar(s[0]), JsonEscape(s[1..]));
    }
  }

  /** Reading one quoted name off the front of a list. */
  lemma ReadFirst(x: string, rest: string)
    ensures var t := JsonQuote(x) + rest;
            var k := |JsonEscape(x)|;
            && t[0] == '"' && CloseQuote(t[1..]) == Some(k)
            && JsonUnescape(t[1..k + 1]) == Some(x) && t[k + 2..] == rest
  {
    var t := JsonQuote(x) + rest;
    var e := JsonEscape(x);
    assert t[1..] == e + ("\"" + rest);
    EscapeTransparent(x);
    assert CloseQuote(e + ("\"" + rest)) == Shift(CloseQuote("\"" + rest), |e|);
    assert t[1..|e| + 1] == e;
    JsonEscapeRoundTrip(x);
    assert t[|e| + 2..] == rest;
  }

  /** Reading a list that starts with a quoted name. */
  lemma ReadCons(x: string, rest: string)
    ensures ReadList(JsonQuote(x) + rest) ==
              if |rest| == 0 then Some([x])
              else if |rest| > 2 && rest[..2] == ", " then
                match ReadList(rest[2..]) case Some(vs) => Some([x] + vs) case None => None
              else None
  {
    ReadFirst(x, rest);
  }

  /** The dynamic prop names read back from their printed array. */
  /** A name, `, ` and a readable list read as the longer list. */
  lemma ReadConsList(x: string, tail: string, vs: seq<string>)
    requires ReadList(tail) == Some(vs) && |tail| > 0
    ensures ReadList(JsonQuote(x) + (", " + tail)) == Some([x] + vs)
  {
    var rest := ", " + tail;
    ReadCons(x, rest);
    assert |rest| > 2 && rest[..2] == ", " && rest[2..] == tail;
  }

  lemma ReadSingle(names: seq<string>)
    requires |names| == 1
    ensures ReadList(JoinedNames(names)) == Some(names)
  {
    ReadCons(names[0], "");
    assert JoinedNames(names) == JsonQuote(names[0]) + "";
    assert names == [names[0]];
  }

  lemma JoinedStep(names: seq<string>)
    requires |names| > 1
    ensures JoinedNames(names) == JsonQuote(names[0]) + (", " + JoinedNames(names[1..]))
  {
  }

  lemma ReadMany(names: seq<string>, tail: string)
    requires |names| > 1 && tail == JoinedNames(names[1..])
    requires ReadList(tail) == Some(names[1..])
    ensures ReadList(JoinedNames(names)) == Some(names)
  {
    ReadConsList(names[0], tail, names[1..]);
    JoinedStep(names);
    assert [names[0]] + names[1..] == names;
  }

  lemma {:induction false} JoinedNamesRoundTrip(names: seq<string>)
    ensures ReadList(JoinedNames(names)) == Some(names)
    decreases |names|
  {
    if |names| == 1 {
      ReadSingle(names);
    } else if |names| > 1 {
      JoinedNamesRoundTrip(names[1..]);
      ReadMany(names, JoinedNames(names[1..]));
    }
  }

  lemma DynamicPropNamesRoundTrip(names: seq<string>)
    ensures ReadNames(StringifyDynamicPropNames(names)) == Some(names)
  {
    JoinedNamesRoundTrip(names);
    var t := StringifyDynamicPropNames(names);
    assert t[1..|t| - 1] == JoinedNames(names);
  }
}
