/** The template parser proper: `parseChildren` and what it dispatches to.
    It reads the template once, left to right, and builds the tree of
    elements, text and interpolations; comments are read but not kept, and
    every syntax error is reported into the error list without stopping. */
module Parser {
  import opened Wrappers
  import opened Strings
  import opened Positions
  import opened Ast
  import opened ParserContext
  import opened Attributes
  import opened Whitespace
  import AstUtils
  import ErrorCodes

  // ---------------------------------------------------------------------
  // Where a list of children ends
  // ---------------------------------------------------------------------

  /** The characters that may follow the name in an end tag, `[\t\n\f />]`;
      a carriage return is not among them. */
  predicate IsEndTagFollow(c: char) {
    c == '\t' || c == '\n' || c == '\U{000C}' || c == ' ' || c == '/' || c == '>'
  }

  /** `startsWithEndTagOpen`: the text opens an end tag for `tag`, the name
      compared case-insensitively and followed by a tag break or the end of
      the template. */
  predicate StartsWithEndTagOpen(s: string, tag: string) {
    StartsWith(s, "</") && ToLower(Substr(s, 2, |tag|)) == ToLower(tag)
    && (2 + |tag| >= |s| || IsEndTagFollow(s[2 + |tag|]))
  }

  /** `/^<\/?([a-z][^\t\r\n\f />]*)/i` finds a tag name: an ASCII letter
      right after `<` (start tag) or `</` (end tag). */
  predicate TagOpenAt(s: string, kind: TagKind) {
    var k := if kind == StartTag then 1 else 2;
    |s| > k && s[0] == '<' && (kind == EndTag ==> s[1] == '/') && IsAsciiLetter(s[k])
  }

  predicate Elements(ns: seq<Node>) {
    forall i :: 0 <= i < |ns| ==> ns[i].Element?
  }

  /** `isEnd`: in data mode, an end tag of any open element ends the list;
      in RCDATA and raw text only the parent's end tag does; in CDATA the
      `]]>`; and the end of the template always does. */
  predicate IsEnd(s: string, mode: TextMode, ancestors: seq<Node>)
    requires Elements(ancestors)
  {
    |s| == 0
    || match mode
       case Data =>
         StartsWith(s, "</") && exists i :: 0 <= i < |ancestors| && StartsWithEndTagOpen(s, ancestors[i].tag)
       case RcData => |ancestors| > 0 && StartsWithEndTagOpen(s, ancestors[|ancestors| - 1].tag)
       case RawText => |ancestors| > 0 && StartsWithEndTagOpen(s, ancestors[|ancestors| - 1].tag)
       case CData => StartsWith(s, "]]>")
       case AttributeValue => false
  }

  /** With no element open, a data-mode list runs to the end of the
      template. */
  lemma TopLevelEnd(s: string)
    ensures IsEnd(s, Data, []) <==> |s| == 0
  {
  }

  /** An end tag that closes `tag` starts like a tag the tag reader
      accepts. */
  lemma EndTagOpenIsTagOpen(s: string, tag: string)
    requires |tag| > 0 && IsAsciiLetter(tag[0]) && StartsWithEndTagOpen(s, tag)
    ensures TagOpenAt(s, EndTag)
  {
    var sub := Substr(s, 2, |tag|);
    assert |ToLower(sub)| == |tag|;
    assert |s| >= 2 + |tag|;
    assert sub == s[2..2 + |tag|];
    assert ToLower(sub)[0] == ToLower(tag)[0];
  }

  // ---------------------------------------------------------------------
  // The dispatch of `parseChildren`
  // ---------------------------------------------------------------------

  /** What `parseChildren` does with the text at the cursor. */
  datatype Move =
    | ReadInterpolation
    | ReadComment
    | ReadBogusComment
    | ReadCData
    | ReadElement
    | SkipEndTag       // an end tag no open element matches: read, then dropped
    | SkipEmptyEndTag  // `</>`: dropped
    | ReadText

  /** The move, and the error reported before it: the code and how many
      columns right of the cursor it is placed. */
  datatype Decision = Decision(move: Move, error: Option<(nat, int)>)

  /** The branch `parseChildren` takes, following the tag open, end tag
      open and markup declaration open states of section 13.2.5 of the
      WHATWG HTML Living Standard. */
  function Classify(o: ParserOptions, s: string, mode: TextMode, inVPre: bool, ns: nat): (d: Decision)
    requires |s| > 0
    ensures d.move == ReadInterpolation <==> (mode == Data || mode == RcData) && !inVPre && StartsWith(s, o.openDelimiter)
    ensures d.move != ReadInterpolation && d.move != ReadText ==> mode == Data && |s| >= 2 && s[0] == '<'
    ensures d.move == ReadElement <==>
              d.move != ReadInterpolation && mode == Data && |s| >= 2 && s[0] == '<' && IsAsciiLetter(s[1])
    ensures d.move == ReadComment ==> StartsWith(s, "<!--")
    ensures d.move == ReadCData ==> StartsWith(s, "<![CDATA[") && ns != HtmlNamespace
    ensures d.move == SkipEndTag ==> TagOpenAt(s, EndTag)
    ensures d.move == SkipEmptyEndTag ==> StartsWith(s, "</>")
    ensures d.error.Some? ==> mode == Data && s[0] == '<' && d.move != ReadInterpolation
    ensures mode != Data && mode != RcData ==> d == Decision(ReadText, None)
    ensures d.move != ReadInterpolation && s[0] != '<' ==> d == Decision(ReadText, None)
  {
    if (mode == Data || mode == RcData) && !inVPre && StartsWith(s, o.openDelimiter) then
      Decision(ReadInterpolation, None)
    else if mode != Data || s[0] != '<' then Decision(ReadText, None)
    else if |s| == 1 then Decision(ReadText, Some((ErrorCodes.EofBeforeTagName, 1)))
    else if s[1] == '!' then
      if StartsWith(s, "<!--") then Decision(ReadComment, None)
      else if StartsWith(s, "<!DOCTYPE") then Decision(ReadBogusComment, None)
      else if StartsWith(s, "<![CDATA[") then
        if ns != HtmlNamespace then Decision(ReadCData, None)
        else Decision(ReadBogusComment, Some((ErrorCodes.CdataInHtmlContent, 0)))
      else Decision(ReadBogusComment, Some((ErrorCodes.IncorrectlyOpenedComment, 0)))
    else if s[1] == '/' then
      if |s| == 2 then Decision(ReadText, Some((ErrorCodes.EofBeforeTagName, 2)))
      else if s[2] == '>' then Decision(SkipEmptyEndTag, Some((ErrorCodes.MissingEndTagName, 2)))
      else if IsAsciiLetter(s[2]) then Decision(SkipEndTag, Some((ErrorCodes.InvalidEndTag, 0)))
      else Decision(ReadBogusComment, Some((ErrorCodes.InvalidFirstCharacterOfTagName, 2)))
    else if IsAsciiLetter(s[1]) then Decision(ReadElement, None)
    else if s[1] == '?' then Decision(ReadBogusComment, Some((ErrorCodes.UnexpectedQuestionMarkInsteadOfTagName, 1)))
    else Decision(ReadText, Some((ErrorCodes.InvalidFirstCharacterOfTagName, 1)))
  }

  /** In `v-pre` mode the opening delimiter starts plain text: `{{ a }}` is
      an interpolation outside the mode and text inside it. */
  lemma DelimiterInVPre()
    ensures Classify(DefaultOptions, "{{ a }}", Data, false, HtmlNamespace).move == ReadInterpolation
    ensures Classify(DefaultOptions, "{{ a }}", Data, true, HtmlNamespace) == Decision(ReadText, None)
  {
    assert StartsWith("{{ a }}", DefaultOptions.openDelimiter);
  }

  // ---------------------------------------------------------------------
  // Text
  // ---------------------------------------------------------------------

  /** A text run stops before `<`, before the opening delimiter, and in
      CDATA before `]]>`. */
  predicate EndsText(o: ParserOptions, s: string, mode: TextMode, j: int) {
    OccursAt(s, "<", j) || OccursAt(s, o.openDelimiter, j) || (mode == CData && OccursAt(s, "]]>", j))
  }

  /** The end of a text run: the first end token after the first
      character, or the end of the template. */
  function TextEnd(o: ParserOptions, s: string, mode: TextMode): (n: nat)
    requires |s| > 0
    ensures 1 <= n <= |s|
    ensures n == |s| || EndsText(o, s, mode, n)
    ensures forall j :: 1 <= j < n ==> !EndsText(o, s, mode, j)
  {
    var lt := IndexOf(s, "<", 1);
    var open := IndexOf(s, o.openDelimiter, 1);
    var cdata := if mode == CData then IndexOf(s, "]]>", 1) else -1;
    Earlier(cdata, Earlier(open, Earlier(lt, |s|)))
  }

  /** The loop of `parseText` over its end tokens: an index that was found
      and lies before the end so far becomes the end. */
  function Earlier(i: int, n: nat): (r: nat)
    requires i >= -1
    ensures r <= n && (r == n || r == i)
  {
    if i != -1 && n > i then i else n
  }

  /** `parseText`: text up to the first end token after the first character
      (the first is consumed whatever it is, so the parser always moves on). */
  method ParseText(o: ParserOptions, c: Ctx, mode: TextMode) returns (r: Ctx, node: Node)
    requires Valid(c) && |Src(c)| > 0
    ensures Step(c, r) && r.offset > c.offset && r.errors == c.errors
    ensures r.inPre == c.inPre && r.inVPre == c.inVPre
    ensures r.offset == c.offset + TextEnd(o, Src(c), mode)
    ensures node.Text? && Consistent(c.original, node.loc)
    ensures node.loc.start.offset == c.offset && node.loc.end.offset == r.offset
    ensures mode == RawText || mode == CData || '&' !in node.loc.source ==> node.content == node.loc.source
  {
    var s := Src(c);
    var endIndex := TextEnd(o, s, mode);
    var d := ParseTextData(o, c, endIndex, mode);
    r := d.0;
    assert s[..endIndex] == c.original[c.offset..r.offset];
    node := Text(d.1, Selection(r, c.offset));
  }

  // ---------------------------------------------------------------------
  // Comments
  // ---------------------------------------------------------------------

  /** The length of a comment close at `i`: 3 for `-->`, 4 for `--!>`, and
      0 when there is none. */
  function CloseAt(s: string, i: int): nat {
    if OccursAt(s, "-->", i) then 3 else if OccursAt(s, "--!>", i) then 4 else 0
  }

  /** A close found at `i` lies within the text. */
  lemma CloseFits(s: string, i: int)
    ensures CloseAt(s, i) > 0 ==> 0 <= i && i + CloseAt(s, i) <= |s|
  {
  }

  /** `/--(\!)?>/.exec`: the leftmost comment close at or after `i`. */
  function FindClose(s: string, i: nat): (r: int)
    requires i <= |s|
    ensures r == -1 || (i <= r < |s| && CloseAt(s, r) > 0)
    ensures forall j :: i <= j < |s| && (r == -1 || j < r) ==> CloseAt(s, j) == 0
    decreases |s| - i
  {
    if i == |s| then -1 else if CloseAt(s, i) > 0 then i else FindClose(s, i + 1)
  }

  /** The nested comment openings of a comment whose text before the close
      is `t`, from index `from` on: every `<!--` there that is not at the
      very end of `t`. */
  function NestedOpens(t: string, from: nat): seq<nat>
    decreases |t| - from
  {
    if from >= |t| then []
    else (if OccursAt(t, "<!--", from) && from + 4 < |t| then [from] else []) + NestedOpens(t, from + 1)
  }

  /** A stretch without `<!--` holds no nested opening. */
  lemma {:induction false} NestedOpensSkip(t: string, from: nat, to: nat)
    requires from <= to <= |t|
    requires forall j :: from <= j < to ==> !OccursAt(t, "<!--", j)
    ensures NestedOpens(t, from) == NestedOpens(t, to)
    decreases |t| - from
  {
    if from < to {
      NestedOpensSkip(t, from + 1, to);
    }
  }

  /** One error `code` at each of the offsets `offs`, counted from `base`. */
  function ErrorsAt(code: nat, text: string, base: int, offs: seq<nat>): (r: seq<CompilerError>)
    ensures |r| == |offs|
    ensures forall i :: 0 <= i < |offs| ==> r[i] == CompilerError(code, PositionAt(text, base + offs[i]))
  {
    seq(|offs|, i requires 0 <= i < |offs| => CompilerError(code, PositionAt(text, base + offs[i])))
  }

  /** A comment's own `<!--` is not read as its close. */
  lemma CommentOpenIsNotClose(s: string)
    requires StartsWith(s, "<!--")
    ensures CloseAt(s, 0) == 0 && CloseAt(s, 1) == 0
  {
    assert s[..4] == "<!--";
    assert s[0] == '<' && s[1] == '!';
  }

  /** The loop of `parseComment` over the `<!--` inside a comment whose text
      before the close is `t`, the cursor at the comment's start: it moves
      the cursor from one `<!--` to the next (to one past its `<`) and
      reports each that is not at the end of `t`. */
  method ReportNestedComments(c: Ctx, t: string) returns (r: Ctx, last: nat)
    requires Valid(c) && 1 <= |t| && c.offset + |t| <= |c.original|
    ensures Step(c, r) && 1 <= last <= |t| && r.offset == c.offset + last - 1
    ensures r.inPre == c.inPre && r.inVPre == c.inVPre
    ensures r.errors == c.errors + ErrorsAt(ErrorCodes.NestedComment, c.original, c.offset, NestedOpens(t, 1))
  {
    last := 1;
    var found: seq<nat> := [];
    var nested := IndexOf(t, "<!--", last);
    while nested != -1
      invariant 1 <= last <= |t|
      invariant nested == IndexOf(t, "<!--", last)
      invariant found + NestedOpens(t, last) == NestedOpens(t, 1)
      decreases |t| - last
    {
      // the cursor moves to `nested` and the error, if any, is reported there
      NestedStep(t, found, last, nested);
      var here: seq<nat> := if nested + 4 < |t| then [nested] else [];
      found := found + here;
      last := nested + 1;
      nested := IndexOf(t, "<!--", last);
    }
    NestedDone(t, found, last);
    r := Ctx(c.original, c.offset + last - 1, c.inPre, c.inVPre, c.errors + ErrorsAt(ErrorCodes.NestedComment, c.original, c.offset, found));
  }

  /** One round of the loop of `ReportNestedComments` keeps its invariant. */
  lemma NestedStep(t: string, found: seq<nat>, last: nat, nested: int)
    requires 1 <= last <= |t| && nested != -1 && nested == IndexOf(t, "<!--", last)
    requires found + NestedOpens(t, last) == NestedOpens(t, 1)
    ensures last <= nested && nested + 4 <= |t|
    ensures (found + (if nested + 4 < |t| then [nested] else [])) + NestedOpens(t, nested + 1) == NestedOpens(t, 1)
  {
    NestedFound(t, last, nested);
    NestedOpensSkip(t, last, nested);
    var here := if nested + 4 < |t| then [nested] else [];
    NestedOpenAt(t, nested);
    Regroup(found, NestedOpens(t, last), here, NestedOpens(t, nested + 1), NestedOpens(t, 1));
  }

  /** What `indexOf` reports of the next `<!--`. */
  lemma NestedFound(t: string, last: nat, nested: int)
    requires last <= |t| && nested != -1 && nested == IndexOf(t, "<!--", last)
    ensures last <= nested && nested + 4 <= |t| && OccursAt(t, "<!--", nested)
    ensures forall j :: last <= j < nested ==> !OccursAt(t, "<!--", j)
  {
  }

  /** An opening at `i` is listed unless it ends the text. */
  lemma NestedOpenAt(t: string, i: nat)
    requires i + 4 <= |t| && OccursAt(t, "<!--", i)
    ensures NestedOpens(t, i) == (if i + 4 < |t| then [i] else []) + NestedOpens(t, i + 1)
  {
  }

  /** When no `<!--` is left, the openings found are all there are. */
  lemma NestedDone(t: string, found: seq<nat>, last: nat)
    requires 1 <= last <= |t| && IndexOf(t, "<!--", last) == -1
    requires found + NestedOpens(t, last) == NestedOpens(t, 1)
    ensures found == NestedOpens(t, 1)
  {
    NestedOpensSkip(t, last, |t|);
    assert NestedOpens(t, |t|) == [];
    assert found + NestedOpens(t, last) == found;
  }

  /** The loop's accounting: what was found, then what is left. */
  lemma Regroup<T>(found: seq<T>, left: seq<T>, here: seq<T>, rest: seq<T>, whole: seq<T>)
    requires found + left == whole && left == here + rest
    ensures (found + here) + rest == whole
  {
    assert found + (here + rest) == (found + here) + rest;
  }

  /** `parseComment`: a comment runs to the leftmost `-->` or `--!>`, or
      to the end of the template. An empty comment closed too early, a close
      written `--!>`, and every `<!--` inside are reported. */
  method ParseComment(c: Ctx) returns (r: Ctx, node: Node)
    requires Valid(c) && StartsWith(Src(c), "<!--")
    ensures Step(c, r) && r.offset > c.offset
    ensures r.inPre == c.inPre && r.inVPre == c.inVPre
    ensures node.Comment? && Consistent(c.original, node.loc)
    ensures node.loc.start.offset == c.offset && node.loc.end.offset == r.offset
    ensures FindClose(Src(c), 0) == -1 ==>
              r.offset == |c.original| && node.content == Src(c)[4..]
              && r.errors == c.errors + [CompilerError(ErrorCodes.EofInComment, Cursor(r))]
    ensures var s := Src(c);
            var idx := FindClose(s, 0);
            idx != -1 ==>
              r.offset == c.offset + idx + CloseAt(s, idx)
              && node.content == Slice(s, 4, idx)
              && r.errors == c.errors
                             + (if idx <= 3 then [CompilerError(ErrorCodes.AbruptClosingOfEmptyComment, Cursor(c))] else [])
                             + (if CloseAt(s, idx) == 4 then [CompilerError(ErrorCodes.IncorrectlyClosedComment, Cursor(c))] else [])
                             + ErrorsAt(ErrorCodes.NestedComment, c.original, c.offset, NestedOpens(s[..idx], 1))
  {
    if FindClose(Src(c), 0) == -1 {
      r, node := UnclosedComment(c);
    } else {
      r, node := ClosedComment(c, FindClose(Src(c), 0));
    }
  }

  /** A comment with no close runs to the end of the template. */
  method UnclosedComment(c: Ctx) returns (r: Ctx, node: Node)
    requires Valid(c) && StartsWith(Src(c), "<!--") && FindClose(Src(c), 0) == -1
    ensures Step(c, r) && r.offset > c.offset
    ensures r.inPre == c.inPre && r.inVPre == c.inVPre
    ensures node.Comment? && Consistent(c.original, node.loc)
    ensures node.loc.start.offset == c.offset && node.loc.end.offset == r.offset
    ensures r.offset == |c.original| && node.content == Src(c)[4..]
    ensures r.errors == c.errors + [CompilerError(ErrorCodes.EofInComment, Cursor(r))]
  {
    var s := Src(c);
    var start := c.offset;
    r := AdvanceBy(c, |s|);
    r := EmitError(r, ErrorCodes.EofInComment, 0);
    node := Comment(s[4..], Selection(r, start));
  }

  /** A comment closed at `idx`, with the errors its text calls for. */
  method ClosedComment(c: Ctx, idx: int) returns (r: Ctx, node: Node)
    requires Valid(c) && StartsWith(Src(c), "<!--") && idx == FindClose(Src(c), 0) != -1
    ensures Step(c, r) && r.offset > c.offset
    ensures r.inPre == c.inPre && r.inVPre == c.inVPre
    ensures node.Comment? && Consistent(c.original, node.loc)
    ensures node.loc.start.offset == c.offset && node.loc.end.offset == r.offset
    ensures var s := Src(c);
            && r.offset == c.offset + idx + CloseAt(s, idx)
            && node.content == Slice(s, 4, idx)
            && r.errors == c.errors
                           + (if idx <= 3 then [CompilerError(ErrorCodes.AbruptClosingOfEmptyComment, Cursor(c))] else [])
                           + (if CloseAt(s, idx) == 4 then [CompilerError(ErrorCodes.IncorrectlyClosedComment, Cursor(c))] else [])
                           + ErrorsAt(ErrorCodes.NestedComment, c.original, c.offset, NestedOpens(s[..idx], 1))
  {
    var s := Src(c);
    var start := c.offset;
    CommentOpenIsNotClose(s);
    CloseFits(s, idx);
    var n := CloseAt(s, idx);
    var e1 := if idx <= 3 then [CompilerError(ErrorCodes.AbruptClosingOfEmptyComment, Cursor(c))] else [];
    var e2 := if n == 4 then [CompilerError(ErrorCodes.IncorrectlyClosedComment, Cursor(c))] else [];
    var c2 := Ctx(c.original, c.offset, c.inPre, c.inVPre, c.errors + e1 + e2);
    assert c.errors <= c2.errors;
    var c3, last := ReportNestedComments(c2, s[..idx]);
    StepTransitive(c, c2, c3);
    r := AdvanceBy(c3, idx + n - last + 1);
    StepTransitive(c, c3, r);
    node := Comment(Slice(s, 4, idx), Selection(r, start));
  }

  /** `parseBogusComment`: a `<!…>`, `<?…>` or `</…>` construct read as a
      comment up to the first `>`; its text starts after `<?` or after the
      first two characters. */
  method ParseBogusComment(c: Ctx) returns (r: Ctx, node: Node)
    requires Valid(c) && |Src(c)| > 0
    ensures Step(c, r) && r.offset > c.offset && r.errors == c.errors
    ensures r.inPre == c.inPre && r.inVPre == c.inVPre
    ensures node.Comment? && Consistent(c.original, node.loc)
    ensures node.loc.start.offset == c.offset && node.loc.end.offset == r.offset
    ensures var s := Src(c);
            var from := if |s| > 1 && s[1] == '?' then 1 else 2;
            var n := r.offset - c.offset;
            if '>' in s then
              s[n - 1] == '>' && '>' !in s[..n - 1] && node.content == Slice(s, from, n - 1)
            else
              n == |s| && node.content == Slice(s, from, |s|)
  {
    var s := Src(c);
    var start := c.offset;
    var from := if |s| > 1 && s[1] == '?' then 1 else 2;
    var closeIndex := FindChar(s, '>');
    if closeIndex == -1 {
      r := AdvanceBy(c, |s|);
      node := Comment(Slice(s, from, |s|), Selection(r, start));
    } else {
      r := AdvanceBy(c, closeIndex + 1);
      node := Comment(Slice(s, from, closeIndex), Selection(r, start));
    }
  }

  // ---------------------------------------------------------------------
  // Interpolation
  // ---------------------------------------------------------------------

  /** The first occurrence of the trimmed text is right after the white
      space the text starts with (or at 0 when nothing is left). */
  lemma IndexOfTrim(s: string)
    ensures IndexOf(s, Trim(s), 0) == if Trim(s) == "" then 0 else LeadingSpaces(s)
  {
    var t := Trim(s);
    var k := LeadingSpaces(s);
    LeadingAllSpace(s);
    if t == "" {
      assert OccursAt(s, t, 0);
    } else {
      OccursAtSlice(s, t, k);
      assert OccursAt(s, t, k);
      forall j | 0 <= j < k
        ensures !OccursAt(s, t, j)
      {
        OccursAtSlice(s, t, j);
        assert IsJsSpace(s[j]) && !IsJsSpace(t[0]);
        assert j + |t| <= |s| ==> s[j..j + |t|][0] == s[j];
      }
    }
  }

  /** The trimmed text is the piece of the text that starts where `indexOf`
      finds it. */
  lemma TrimOffsets(raw: string)
    ensures var so := IndexOf(raw, Trim(raw), 0);
            0 <= so && so + |Trim(raw)| <= |raw| && raw[so..so + |Trim(raw)|] == Trim(raw)
  {
    IndexOfTrim(raw);
  }

  /** Positions found by advancing over a piece `raw` of the template that
      starts at `k` are where the template puts them, and the text between
      them is the corresponding piece of `raw`. */
  lemma SliceLoc(text: string, k: nat, raw: string, a: nat, b: nat)
    requires k + |raw| <= |text| && text[k..k + |raw|] == raw
    requires a <= b <= |raw|
    ensures Consistent(text, SourceLocation(Advance(PositionAt(text, k), raw, a), Advance(PositionAt(text, k), raw, b),
                                            text[k + a..k + b]))
    ensures text[k + a..k + b] == raw[a..b]
  {
    AdvanceFrom(text, k, raw, a);
    AdvanceFrom(text, k, raw, b);
    assert Advance(PositionAt(text, k), raw, a).offset == k + a;
    assert Advance(PositionAt(text, k), raw, b).offset == k + b;
    SliceOfSlice(text, k, |raw|, a, b);
  }

  /** The text an interpolation's expression is read from: the raw text, or
      what the entity decoder makes of it in data and RCDATA mode when it
      holds an ampersand. */
  function InterpolationText(o: ParserOptions, raw: string, mode: TextMode): string {
    if mode == RawText || mode == CData || '&' !in raw then raw else o.decodeEntities(raw, mode == AttributeValue)
  }

  /** `parseInterpolation`: the text up to the first closing delimiter after
      the opening one becomes a non-static expression, trimmed. With no
      closing delimiter the error is reported and nothing is read. */
  method ParseInterpolation(o: ParserOptions, c: Ctx, mode: TextMode) returns (r: Ctx, node: Option<Node>)
    requires Valid(c) && StartsWith(Src(c), o.openDelimiter)
    ensures Step(c, r) && r.inPre == c.inPre && r.inVPre == c.inVPre
    ensures var close := IndexOf(Src(c), o.closeDelimiter, |o.openDelimiter|);
            (node.None? <==> close == -1)
            && (node.None? ==> r.offset == c.offset
                               && r.errors == c.errors + [CompilerError(ErrorCodes.MissingInterpolationEnd, Cursor(c))])
            && (node.Some? ==> r.offset == c.offset + close + |o.closeDelimiter| && r.errors == c.errors)
    ensures node.Some? ==>
              node.value.Interpolation? && Consistent(c.original, node.value.loc)
              && node.value.loc.start.offset == c.offset && node.value.loc.end.offset == r.offset
    ensures node.Some? ==>
              var e := node.value.contentNode;
              var raw := Src(c)[|o.openDelimiter|..IndexOf(Src(c), o.closeDelimiter, |o.openDelimiter|)];
              e.SimpleExpression? && !e.isStatic && !e.isConstant
              && e.content == Trim(InterpolationText(o, raw, mode))
              && (InterpolationText(o, raw, mode) == raw ==> Consistent(c.original, e.loc) && e.loc.source == e.content)
  {
    var closeIndex := IndexOf(Src(c), o.closeDelimiter, |o.openDelimiter|);
    if closeIndex == -1 {
      r := EmitError(c, ErrorCodes.MissingInterpolationEnd, 0);
      node := None;
    } else {
      var n;
      r, n := InterpolationBody(o, c, mode, closeIndex);
      node := Some(n);
    }
  }

  /** `parseInterpolation` once the closing delimiter is found. */
  method InterpolationBody(o: ParserOptions, c: Ctx, mode: TextMode, closeIndex: int) returns (r: Ctx, node: Node)
    requires Valid(c) && StartsWith(Src(c), o.openDelimiter)
    requires closeIndex == IndexOf(Src(c), o.closeDelimiter, |o.openDelimiter|) != -1
    ensures Step(c, r) && r.inPre == c.inPre && r.inVPre == c.inVPre
    ensures r.offset == c.offset + closeIndex + |o.closeDelimiter| && r.errors == c.errors
    ensures node.Interpolation? && Consistent(c.original, node.loc)
    ensures node.loc.start.offset == c.offset && node.loc.end.offset == r.offset
    ensures var e := node.contentNode;
            var raw := Src(c)[|o.openDelimiter|..closeIndex];
            e.SimpleExpression? && !e.isStatic && !e.isConstant
            && e.content == Trim(InterpolationText(o, raw, mode))
            && (InterpolationText(o, raw, mode) == raw ==> Consistent(c.original, e.loc) && e.loc.source == e.content)
  {
    var start := c.offset;
    var c1 := AdvanceBy(c, |o.openDelimiter|);
    var rawLength := closeIndex - |o.openDelimiter|;
    assert Src(c1)[..rawLength] == Src(c)[|o.openDelimiter|..closeIndex];
    var e := InterpolationExpression(o, c1, rawLength, mode);
    r := AdvanceBy(AdvanceBy(c1, rawLength), |o.closeDelimiter|);
    node := Interpolation(e, Selection(r, start));
  }

  /** The expression of an interpolation whose raw text is the next
      `rawLength` characters: its content is the decoded text trimmed, and
      when nothing was decoded it sits in the template at that content. */
  method InterpolationExpression(o: ParserOptions, c: Ctx, rawLength: nat, mode: TextMode) returns (e: Node)
    requires Valid(c) && rawLength <= Rem(c)
    ensures var raw := Src(c)[..rawLength];
            e.SimpleExpression? && !e.isStatic && !e.isConstant
            && e.content == Trim(InterpolationText(o, raw, mode))
            && (InterpolationText(o, raw, mode) == raw ==> Consistent(c.original, e.loc) && e.loc.source == e.content)
  {
    var d := ParseTextData(o, c, rawLength, mode);
    var loc := ExpressionLocation(c, rawLength, d.1);
    e := SimpleExpression(Trim(d.1), false, false, loc);
  }

  /** The location `parseInterpolation` gives the expression: from the
      position `k` after the opening delimiter it advances over the raw text
      by the offsets the trimmed expression has in the (possibly decoded)
      text `pre`. */
  function ExpressionLoc(text: string, k: nat, raw: string, pre: string): SourceLocation {
    var content := Trim(pre);
    var startOffset := IndexOf(pre, content, 0);
    var endOffset := |raw| - (|pre| - |content| - startOffset);
    OffsetsLoc(text, k, raw, startOffset, endOffset)
  }

  /** The location between two offsets into the raw text, the start one
      only advanced over when it is positive. */
  function OffsetsLoc(text: string, k: nat, raw: string, startOffset: int, endOffset: int): SourceLocation {
    var innerStart := PositionAt(text, k);
    var innerS := if startOffset > 0 then Advance(innerStart, raw, startOffset) else innerStart;
    var innerE := Advance(innerStart, raw, endOffset);
    SourceLocation(innerS, innerE, Slice(text, innerS.offset, innerE.offset))
  }

  lemma AdvanceNone(p: Position, s: string)
    ensures Advance(p, s, 0) == p
  {
    assert s[..0] == [];
  }

  lemma OffsetsLocExact(text: string, k: nat, raw: string, a: nat, b: nat)
    requires k + |raw| <= |text| && text[k..k + |raw|] == raw
    requires a <= b <= |raw|
    ensures Consistent(text, OffsetsLoc(text, k, raw, a, b))
    ensures OffsetsLoc(text, k, raw, a, b).source == raw[a..b]
  {
    AdvanceNone(PositionAt(text, k), raw);
    SliceLoc(text, k, raw, a, b);
  }

  lemma ExpressionLocOffsets(text: string, k: nat, raw: string, pre: string, content: string, so: int)
    requires content == Trim(pre) && so == IndexOf(pre, content, 0)
    ensures ExpressionLoc(text, k, raw, pre) == OffsetsLoc(text, k, raw, so, |raw| - (|pre| - |content| - so))
  {
  }

  /** When nothing was decoded, the expression's location is exactly its
      place in the template. */
  lemma ExpressionLocExact(text: string, k: nat, raw: string)
    requires k + |raw| <= |text| && text[k..k + |raw|] == raw
    ensures Consistent(text, ExpressionLoc(text, k, raw, raw))
    ensures ExpressionLoc(text, k, raw, raw).source == Trim(raw)
  {
    var content := Trim(raw);
    TrimOffsets(raw);
    var so := IndexOf(raw, content, 0);
    ExpressionLocOffsets(text, k, raw, raw, content, so);
    OffsetsLocExact(text, k, raw, so, so + |content|);
  }

  method ExpressionLocation(c: Ctx, rawLength: nat, pre: string) returns (loc: SourceLocation)
    requires Valid(c) && rawLength <= Rem(c)
    ensures pre == Src(c)[..rawLength] ==> Consistent(c.original, loc) && loc.source == Trim(pre)
  {
    var raw := c.original[c.offset..c.offset + rawLength];
    assert raw == Src(c)[..rawLength];
    loc := ExpressionLoc(c.original, c.offset, raw, pre);
    if pre == raw {
      ExpressionLocExact(c.original, c.offset, raw);
    }
  }
}
