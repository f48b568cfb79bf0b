/** Attributes and directives inside a tag: names, values, the directive
    name syntax (`v-name:arg.mod`, with the `:`, `@` and `#` shorthands) and
    the errors the tokenizer reports along the way. */
module Attributes {
  import opened Wrappers
  import opened Strings
  import opened Positions
  import opened Ast
  import opened ParserContext
  import Whitespace
  import ErrorCodes

  /** The characters that end a tag name or attribute name: `[\t\r\n\f />]`. */
  predicate IsTagBreak(c: char) {
    c == '\t' || c == '\r' || c == '\n' || c == '\U{000C}' || c == ' ' || c == '/' || c == '>'
  }

  /** The length of the leading run of characters satisfying `p`. */
  function Run(s: string, p: char -> bool): (k: nat)
    ensures k <= |s|
    ensures forall i :: 0 <= i < k ==> p(s[i])
    ensures k < |s| ==> !p(s[k])
  {
    if |s| > 0 && p(s[0]) then 1 + Run(s[1..], p) else 0
  }

  /** `/^[^\t\r\n\f />][^\t\r\n\f />=]*\/`: the length of the attribute name
      at the start of `s`, whose first character may be `=`. */
  function AttrNameLength(s: string): (k: nat)
    requires |s| > 0 && !IsTagBreak(s[0])
    ensures 1 <= k <= |s|
  {
    1 + Run(s[1..], c => !IsTagBreak(c) && c != '=')
  }

  /** The test `/^(v-|:|@|#)/` that makes an attribute a directive. */
  predicate IsDirectiveSyntax(name: string) {
    StartsWith(name, "v-") || StartsWith(name, ":") || StartsWith(name, "@") || StartsWith(name, "#")
  }

  /** The characters of a directive name, `[a-z0-9-]` case-insensitively. */
  predicate IsDirNameChar(c: char) { IsAsciiLetter(c) || IsDigit(c) || c == '-' }

  /** The three groups of `/(?:^v-([a-z0-9-]+))?(?:(?::|^@|^#)([^\.]+))?(.+)?$/i`
      matched against an attribute name: the directive name after `v-`, the
      argument after `:` (or after a leading `@` or `#`), and the rest. */
  datatype DirectiveMatch = DirectiveMatch(name: Option<string>, arg: Option<string>, rest: Option<string>)

  function NonEmpty(s: string): Option<string> {
    if |s| == 0 then None else Some(s)
  }

  /** The regular expression always matches at the start of the name, and its
      greedy first choices already succeed, so each group is the longest run
      its class allows. */
  function MatchDirective(name: string): (m: DirectiveMatch)
    ensures m.name.Some? ==>
              StartsWith(name, "v-") && |m.name.value| > 0 &&
              forall i :: 0 <= i < |m.name.value| ==> IsDirNameChar(m.name.value[i])
    ensures m.arg.Some? ==> |m.arg.value| > 0 && '.' !in m.arg.value
    ensures m.rest.Some? ==> |m.rest.value| > 0
  {
    var run := if StartsWith(name, "v-") then Run(name[2..], IsDirNameChar) else 0;
    var p1 := if run > 0 then 2 + run else 0;
    var (arg, rest) := MatchArg(name[p1..], p1 == 0);
    DirectiveMatch(if run > 0 then Some(name[2..p1]) else None, arg, rest)
  }

  /** The argument and rest groups, matched where the directive name (if
      any) ends; `atStart` says whether that is the start of the name, where
      `@` and `#` may open an argument too. */
  function MatchArg(rest: string, atStart: bool): (r: (Option<string>, Option<string>))
    ensures r.0.Some? ==> |r.0.value| > 0 && '.' !in r.0.value
    ensures r.1.Some? ==> |r.1.value| > 0
  {
    if |rest| >= 2 && (rest[0] == ':' || (atStart && (rest[0] == '@' || rest[0] == '#'))) && rest[1] != '.' then
      var k := 1 + Run(rest[1..], c => c != '.');
      (Some(rest[1..k]), NonEmpty(rest[k..]))
    else
      (None, NonEmpty(rest))
  }

  /** The directive's name: the one written after `v-`, or else the one the
      first character abbreviates. */
  function DirectiveName(name: string, m: DirectiveMatch): string {
    if m.name.Some? then m.name.value
    else if StartsWith(name, ":") then "bind"
    else if StartsWith(name, "@") then "on"
    else "slot"
  }

  /** `match[3].substr(1).split('.')`. */
  function Modifiers(m: DirectiveMatch): seq<string> {
    if m.rest.None? || |m.rest.value| == 0 then [] else Split(m.rest.value[1..], '.')
  }

  /** The static argument, or the inside of a `[dynamic]` one, and whether
      the closing bracket is missing. */
  function ArgContent(arg: string): (r: (string, bool, bool))
    requires |arg| > 0
    ensures r.1 <==> arg[0] != '['
    ensures r.1 ==> r.0 == arg && !r.2
    ensures !r.1 && |arg| >= 2 && r.2 == false ==> r.0 == arg[1..|arg| - 1]
    ensures !r.1 ==> (r.2 <==> arg[|arg| - 1] != ']' || |arg| == 1)
  {
    if arg[0] == '[' then (Substr(arg, 1, |arg| - 2), false, !EndsWith(arg, "]"))
    else (arg, true, false)
  }

  /** How a directive is written: `v-name`, or a shorthand when the name has
      one, then `:arg`, then `.mod` for each modifier. */
  function WriteDirective(dir: string, arg: Option<string>, mods: seq<string>, shorthand: bool): string {
    var head :=
      if shorthand && dir == "bind" then ":" + arg.GetOr("")
      else if shorthand && dir == "on" then "@" + arg.GetOr("")
      else if shorthand && dir == "slot" then "#" + arg.GetOr("")
      else "v-" + dir + (if arg.Some? then ":" + arg.value else "");
    head + (if |mods| == 0 then "" else "." + Join(mods, "."))
  }

  /** The modifier suffix `.m1.m2…` written for `mods`. */
  function ModifierSuffix(mods: seq<string>): string {
    if |mods| == 0 then "" else "." + Join(mods, ".")
  }

  /** A directive written out with a plain name, a static argument and
      modifiers reads back as the same name, argument and modifiers. */
  lemma DirectiveRoundTrip(dir: string, arg: Option<string>, mods: seq<string>, shorthand: bool)
    requires |dir| > 0 && forall i :: 0 <= i < |dir| ==> IsDirNameChar(dir[i])
    requires shorthand ==> dir in {"bind", "on", "slot"} && arg.Some?
    requires arg.Some? ==> |arg.value| > 0 && '.' !in arg.value
    requires forall i :: 0 <= i < |mods| ==> '.' !in mods[i]
    ensures var name := WriteDirective(dir, arg, mods, shorthand);
            var m := MatchDirective(name);
            IsDirectiveSyntax(name) && DirectiveName(name, m) == dir && m.arg == arg && Modifiers(m) == mods
  {
    var tail := ModifierSuffix(mods);
    ModifiersOfSuffix(mods);
    if shorthand {
      ShorthandRoundTrip(dir, arg.value, tail);
    } else {
      LongFormRoundTrip(dir, arg, tail);
    }
  }

  lemma ModifiersOfSuffix(mods: seq<string>)
    requires forall i :: 0 <= i < |mods| ==> '.' !in mods[i]
    ensures Modifiers(DirectiveMatch(None, None, NonEmpty(ModifierSuffix(mods)))) == mods
  {
    if |mods| > 0 {
      SplitJoin(mods, '.');
      assert ModifierSuffix(mods)[1..] == Join(mods, ".");
    }
  }

  lemma ShorthandRoundTrip(dir: string, a: string, tail: string)
    requires dir in {"bind", "on", "slot"}
    requires |a| > 0 && '.' !in a
    requires |tail| == 0 || tail[0] == '.'
    ensures var lead := if dir == "bind" then ":" else if dir == "on" then "@" else "#";
            var m := MatchDirective(lead + a + tail);
            m == DirectiveMatch(None, Some(a), NonEmpty(tail))
            && IsDirectiveSyntax(lead + a + tail) && DirectiveName(lead + a + tail, m) == dir
  {
    var lead := if dir == "bind" then ":" else if dir == "on" then "@" else "#";
    var name := lead + a + tail;
    assert name[0] == lead[0] && lead[0] != 'v';
    assert !StartsWith(name, "v-");
    assert name[0..] == name;
    ArgOf(lead[0], a, tail, true);
    assert name == [lead[0]] + a + tail;
  }

  lemma LongFormRoundTrip(dir: string, arg: Option<string>, tail: string)
    requires |dir| > 0 && forall i :: 0 <= i < |dir| ==> IsDirNameChar(dir[i])
    requires arg.Some? ==> |arg.value| > 0 && '.' !in arg.value
    requires |tail| == 0 || tail[0] == '.'
    ensures var name := "v-" + dir + (if arg.Some? then ":" + arg.value else "") + tail;
            MatchDirective(name) == DirectiveMatch(Some(dir), arg, NonEmpty(tail))
            && IsDirectiveSyntax(name)
  {
    var after := (if arg.Some? then ":" + arg.value else "") + tail;
    var name := "v-" + dir + after;
    assert name == "v-" + dir + (if arg.Some? then ":" + arg.value else "") + tail;
    assert StartsWith(name, "v-");
    assert name[2..] == dir + after;
    RunOfDirName(dir, after);
    assert name[2..2 + |dir|] == dir;
    assert name[2 + |dir|..] == after;
    if arg.Some? {
      ArgOf(':', arg.value, tail, false);
      assert after == [':'] + arg.value + tail;
    } else {
      assert MatchArg(after, false) == (None, NonEmpty(tail));
    }
  }

  /** An argument opened by `lead` is read up to the first `.`. */
  lemma ArgOf(lead: char, a: string, tail: string, atStart: bool)
    requires lead == ':' || (atStart && (lead == '@' || lead == '#'))
    requires |a| > 0 && '.' !in a
    requires |tail| == 0 || tail[0] == '.'
    ensures MatchArg([lead] + a + tail, atStart) == (Some(a), NonEmpty(tail))
  {
    var rest := [lead] + a + tail;
    assert rest[1..] == a + tail;
    RunOfNonDots(a, tail);
    assert rest[1..1 + |a|] == a;
    assert rest[1 + |a|..] == tail;
  }

  lemma RunOfDirName(dir: string, after: string)
    requires forall i :: 0 <= i < |dir| ==> IsDirNameChar(dir[i])
    requires |after| == 0 || after[0] == ':' || after[0] == '.'
    ensures Run(dir + after, IsDirNameChar) == |dir|
  {
    assert forall i :: 0 <= i < |dir| ==> (dir + after)[i] == dir[i];
    assert |after| > 0 ==> (dir + after)[|dir|] == after[0];
  }

  lemma RunOfNonDots(a: string, tail: string)
    requires '.' !in a
    requires |tail| == 0 || tail[0] == '.'
    ensures Run(a + tail, c => c != '.') == |a|
  {
    assert forall i :: 0 <= i < |a| ==> (a + tail)[i] == a[i];
    assert |tail| > 0 ==> (a + tail)[|a|] == tail[0];
  }

  /** An attribute value as read: its decoded text, whether it was quoted,
      and where it stands including the quotes. */
  datatype AttrValue = AttrValue(content: string, isQuoted: bool, loc: SourceLocation)

  /** One error `code` for each character of `t` from index `i` on that is
      in `chars`, at that character's column; the cursor does not move. */
  function CharErrors(c: Ctx, t: string, i: nat, code: nat, chars: set<char>): (r: Ctx)
    requires Valid(c) && i <= |t|
    ensures Step(c, r) && r.offset == c.offset && r.inPre == c.inPre && r.inVPre == c.inVPre
    ensures Cursor(r) == Cursor(c)
    ensures (forall j :: i <= j < |t| ==> t[j] !in chars) ==> r == c
    decreases |t| - i
  {
    if i == |t| then c
    else
      var c1 := if t[i] in chars then EmitError(c, code, i) else c;
      var r := CharErrors(c1, t, i + 1, code, chars);
      StepTransitive(c, c1, r);
      r
  }

  /** `/^[^\t\r\n\f >]+/`: the extent of an unquoted value. */
  predicate IsUnquotedValueChar(c: char) {
    !(c == '\t' || c == '\r' || c == '\n' || c == '\U{000C}' || c == ' ' || c == '>')
  }

  /** `parseAttributeValue`: a value in double or single quotes (running to
      the end of the template when unclosed), or an unquoted one; nothing
      when neither is there. */
  method ParseAttributeValue(o: ParserOptions, c: Ctx) returns (r: Ctx, v: Option<AttrValue>)
    requires Valid(c)
    ensures Step(c, r) && r.inPre == c.inPre && r.inVPre == c.inVPre
    ensures v.None? ==> r == c
    ensures v.None? <==> (|Src(c)| == 0 || (Src(c)[0] != '"' && Src(c)[0] != '\'' && !IsUnquotedValueChar(Src(c)[0])))
    ensures v.Some? ==> r.offset > c.offset && Consistent(c.original, v.value.loc)
    ensures v.Some? ==> v.value.loc.start.offset == c.offset && v.value.loc.end.offset == r.offset
    ensures v.Some? ==> (v.value.isQuoted <==> Src(c)[0] == '"' || Src(c)[0] == '\'')
  {
    var s := Src(c);
    var start := c.offset;
    if |s| > 0 && (s[0] == '"' || s[0] == '\'') {
      var c1 := AdvanceBy(c, 1);
      var endIndex := IndexOf(Src(c1), [s[0]], 0);
      var content;
      if endIndex == -1 {
        var d := ParseTextData(o, c1, Rem(c1), AttributeValue);
        r, content := d.0, d.1;
      } else {
        var d := ParseTextData(o, c1, endIndex, AttributeValue);
        r, content := AdvanceBy(d.0, 1), d.1;
      }
      v := Some(AttrValue(content, true, Selection(r, start)));
    } else {
      var m := Run(s, IsUnquotedValueChar);
      if m == 0 {
        r, v := c, None;
      } else {
        var c1 := CharErrors(c, s[..m], 0, ErrorCodes.UnexpectedCharacterInUnquotedAttributeValue,
                             {'"', '\'', '<', '=', '`'});
        var d := ParseTextData(o, c1, m, AttributeValue);
        r := d.0;
        v := Some(AttrValue(d.1, false, Selection(r, start)));
      }
    }
  }

  /** The `= value` part after an attribute name, if an equals sign follows
      (possibly after whitespace); a missing value is reported. */
  method ParseValuePart(o: ParserOptions, c: Ctx) returns (r: Ctx, v: Option<AttrValue>)
    requires Valid(c)
    ensures Step(c, r) && r.inPre == c.inPre && r.inVPre == c.inVPre
    ensures v.Some? ==> Consistent(c.original, v.value.loc) && c.offset <= v.value.loc.start.offset
    ensures var k := Whitespace.SpaceRun(Src(c));
            !(k < |Src(c)| && Src(c)[k] == '=') ==> r == c && v.None?
  {
    var s := Src(c);
    var k := Whitespace.SpaceRun(s);
    if k < |s| && s[k] == '=' {
      var c1 := AdvanceSpaces(c);
      var c2 := AdvanceSpaces(AdvanceBy(c1, 1));
      var c3;
      c3, v := ParseAttributeValue(o, c2);
      r := if v.None? then EmitError(c3, ErrorCodes.MissingAttributeValue, 0) else c3;
    } else {
      r, v := c, None;
    }
  }

  /** `getNewPosition`: `start` moved `n` characters to the right. The text it
      scans is `originalSource.slice(start.offset, n)`, which treats `n` as an
      end index; attribute names hold no line break, so only the column and
      offset move either way. */
  function NewPosition(c: Ctx, start: Position, n: int): Position {
    Advance(start, Slice(c.original, start.offset, n), n)
  }

  /** The argument expression of a directive: static unless written in
      brackets, with error 26 when the closing bracket is missing. Its
      location is found by searching the name for the argument text. */
  function DirectiveArg(c: Ctx, name: string, arg: string, start: Position): (r: (Ctx, Node))
    requires Valid(c) && |arg| > 0
    ensures Step(c, r.0) && r.0.offset == c.offset && r.0.inVPre == c.inVPre && r.0.inPre == c.inPre
    ensures r.1.SimpleExpression? && r.1.isStatic == (arg[0] != '[') && r.1.isConstant == r.1.isStatic
    ensures r.1.isStatic ==> r.1.content == arg
    ensures |r.0.errors| == |c.errors| + (if arg[0] == '[' && !EndsWith(arg, "]") then 1 else 0)
  {
    var startOffset := IndexOf(name, arg, 0);
    var loc := SelectionBetween(c, NewPosition(c, start, startOffset), NewPosition(c, start, startOffset + |arg|));
    var (content, isStatic, missingEnd) := ArgContent(arg);
    var c1 := if missingEnd then EmitError(c, ErrorCodes.MissingDynamicDirectiveArgumentEnd, 0) else c;
    (c1, SimpleExpression(content, isStatic, isStatic, loc))
  }

  /** The location of a directive's expression: a quoted value's location
      without its quotes, its end found by advancing over the decoded text. */
  function ExpressionLoc(v: AttrValue): SourceLocation {
    if v.isQuoted then
      var start := Shifted(v.loc.start, 1);
      SourceLocation(start, Advance(start, v.content, |v.content|), Slice(v.loc.source, 1, -1))
    else v.loc
  }

  /** The errors about an attribute's name: a repeat of an earlier name,
      a leading `=`, and each quote or `<` in it. */
  function NameErrors(c: Ctx, name: string, names: set<string>): (r: Ctx)
    requires Valid(c) && |name| > 0
    ensures Step(c, r) && r.offset == c.offset && r.inPre == c.inPre && r.inVPre == c.inVPre
  {
    var c1 := if name in names then EmitError(c, ErrorCodes.DuplicateAttribute, 0) else c;
    var c2 := if name[0] == '=' then EmitError(c1, ErrorCodes.UnexpectedEqualsSignBeforeAttributeName, 0) else c1;
    CharErrors(c2, name, 0, ErrorCodes.UnexpectedCharacterInAttributeName, {'"', '\'', '<'})
  }

  /** The directive an attribute name in directive syntax stands for, its
      value becoming the (never static) expression. */
  function BuildDirective(c: Ctx, name: string, value: Option<AttrValue>, start: Position, loc: SourceLocation): (r: (Ctx, Prop))
    requires Valid(c)
    ensures Step(c, r.0) && r.0.offset == c.offset && r.0.inPre == c.inPre && r.0.inVPre == c.inVPre
    ensures r.1.Directive? && r.1.name == DirectiveName(name, MatchDirective(name)) && r.1.loc == loc
    ensures r.1.modifiers == Modifiers(MatchDirective(name))
    ensures r.1.exp.Some? <==> value.Some?
    ensures r.1.arg.Some? <==> MatchDirective(name).arg.Some?
  {
    var m := MatchDirective(name);
    var ra := if m.arg.Some? then DirectiveArg(c, name, m.arg.value, start) else (c, Raw(""));
    var arg := if m.arg.Some? then Some(ra.1) else None;
    var exp := if value.Some? then Some(SimpleExpression(value.value.content, false, false, ExpressionLoc(value.value))) else None;
    (ra.0, Directive(DirectiveName(name, m), exp, arg, Modifiers(m), loc))
  }

  /** `parseAttribute`: the name and the errors about it, then the value,
      then, outside `v-pre`, the directive syntax. */
  method ParseAttribute(o: ParserOptions, c: Ctx, names: set<string>) returns (r: Ctx, prop: Prop, names': set<string>)
    requires Valid(c) && |Src(c)| > 0 && !IsTagBreak(Src(c)[0])
    ensures Step(c, r) && r.offset > c.offset
    ensures r.inPre == c.inPre && r.inVPre == c.inVPre
    ensures var name := Src(c)[..AttrNameLength(Src(c))];
            names' == names + {name}
            && (prop.Directive? <==> !c.inVPre && IsDirectiveSyntax(name))
            && (prop.Attribute? ==> prop.name == name)
            && (prop.Directive? ==> prop.name == DirectiveName(name, MatchDirective(name))
                                    && prop.modifiers == Modifiers(MatchDirective(name)))
    ensures Consistent(c.original, prop.loc) && prop.loc.start.offset == c.offset && prop.loc.end.offset == r.offset
  {
    var s := Src(c);
    var len := AttrNameLength(s);
    var name := s[..len];
    var c1 := NameErrors(c, name, names);
    var c2 := AdvanceBy(c1, len);
    var c3, value := ParseValuePart(o, c2);
    var loc := Selection(c3, c.offset);
    names' := names + {name};
    if !c3.inVPre && IsDirectiveSyntax(name) {
      var d := BuildDirective(c3, name, value, Cursor(c), loc);
      r, prop := d.0, d.1;
    } else {
      var text := if value.Some? then Some(AttributeText(value.value.content, value.value.loc)) else None;
      r, prop := c3, Attribute(name, text, loc);
    }
  }

  /** Where the attribute list of a tag stops: at the end of the template,
      at `>` or at `/>`. */
  predicate AtTagClose(s: string) {
    |s| == 0 || StartsWith(s, ">") || StartsWith(s, "/>")
  }

  datatype TagKind = StartTag | EndTag

  /** A stray `/` inside a tag: reported, then skipped with the spaces
      after it. */
  function SkipSolidus(c: Ctx): (r: Ctx)
    requires Valid(c) && |Src(c)| > 0 && Src(c)[0] == '/'
    ensures Step(c, r) && r.offset > c.offset && r.inPre == c.inPre && r.inVPre == c.inVPre
    ensures |Src(r)| == 0 || !IsHtmlSpace(Src(r)[0])
  {
    AdvanceSpaces(AdvanceBy(EmitError(c, ErrorCodes.UnexpectedSolidusInTag, 0), 1))
  }

  /** An attribute and the spaces after it; an attribute glued to the next
      one is reported. */
  method AttributeAndSpaces(o: ParserOptions, c: Ctx, names: set<string>) returns (r: Ctx, prop: Prop, names': set<string>)
    requires Valid(c) && |Src(c)| > 0 && !IsTagBreak(Src(c)[0])
    ensures Step(c, r) && r.offset > c.offset && r.inPre == c.inPre && r.inVPre == c.inVPre
    ensures |Src(r)| == 0 || !IsHtmlSpace(Src(r)[0])
    ensures Consistent(c.original, prop.loc) && (c.inVPre ==> prop.Attribute?)
  {
    var c2;
    c2, prop, names' := ParseAttribute(o, c, names);
    var s2 := Src(c2);
    var c3 := if |s2| > 0 && !IsTagBreak(s2[0]) then EmitError(c2, ErrorCodes.MissingWhitespaceBetweenAttributes, 0) else c2;
    r := AdvanceSpaces(c3);
  }

  /** One round of the `parseAttributes` loop, on a source that is not at
      the tag's close and does not start with whitespace. */
  method AttributeStep(o: ParserOptions, c: Ctx, kind: TagKind, names: set<string>)
    returns (r: Ctx, attr: Option<Prop>, names': set<string>)
    requires Valid(c) && !AtTagClose(Src(c)) && !IsHtmlSpace(Src(c)[0])
    ensures Step(c, r) && r.offset > c.offset && r.inPre == c.inPre && r.inVPre == c.inVPre
    ensures |Src(r)| == 0 || !IsHtmlSpace(Src(r)[0])
    ensures attr.Some? <==> kind == StartTag && Src(c)[0] != '/'
    ensures attr.Some? ==> Consistent(c.original, attr.value.loc) && (c.inVPre ==> attr.value.Attribute?)
  {
    var s := Src(c);
    if s[0] == '/' {
      r := SkipSolidus(c);
      attr, names' := None, names;
    } else {
      var c1 := if kind == EndTag then EmitError(c, ErrorCodes.EndTagWithAttributes, 0) else c;
      var prop;
      r, prop, names' := AttributeAndSpaces(o, c1, names);
      attr := if kind == StartTag then Some(prop) else None;
    }
  }

  /** `parseAttributes`: attributes up to the tag's close. A stray `/` is
      reported and skipped; on an end tag every attribute is reported and
      none is kept; a missing space between attributes is reported. */
  method ParseAttributes(o: ParserOptions, c: Ctx, kind: TagKind) returns (r: Ctx, props: seq<Prop>)
    requires Valid(c) && (|Src(c)| == 0 || !IsHtmlSpace(Src(c)[0]))
    ensures Step(c, r) && r.inPre == c.inPre && r.inVPre == c.inVPre
    ensures AtTagClose(Src(r))
    ensures kind == EndTag ==> props == []
    ensures c.inVPre ==> forall i :: 0 <= i < |props| ==> props[i].Attribute?
    ensures forall i :: 0 <= i < |props| ==> Consistent(c.original, props[i].loc)
  {
    r := c;
    props := [];
    var names: set<string> := {};
    while !AtTagClose(Src(r))
      invariant Step(c, r) && r.inPre == c.inPre && r.inVPre == c.inVPre
      invariant |Src(r)| == 0 || !IsHtmlSpace(Src(r)[0])
      invariant kind == EndTag ==> props == []
      invariant c.inVPre ==> forall i :: 0 <= i < |props| ==> props[i].Attribute?
      invariant forall i :: 0 <= i < |props| ==> Consistent(c.original, props[i].loc)
      decreases Rem(r)
    {
      var attr;
      r, attr, names := AttributeStep(o, r, kind, names);
      if attr.Some? {
        props := props + [attr.value];
      }
    }
  }
}
