/** Source positions: the (offset, line, column) cursor the parser carries,
    how it advances over consumed text, and the slices of a location. */
module Positions {
  import opened Strings
  import opened Wrappers

  datatype Position = Position(offset: int, line: int, column: int)

  datatype SourceLocation = SourceLocation(start: Position, end: Position, source: string)

  /** The position of the first character of a template. */
  const Origin := Position(0, 1, 1)

  /** The placeholder location of nodes the compiler synthesises. */
  const LocStub := SourceLocation(Origin, Origin, "")

  /** The number of line feeds in `t`. */
  function Newlines(t: string): nat {
    if |t| == 0 then 0 else Newlines(t[..|t| - 1]) + (if t[|t| - 1] == '\n' then 1 else 0)
  }

  /** The index of the last line feed in `t`, or -1 when there is none. */
  function LastNewline(t: string): (r: int)
    ensures -1 <= r < |t|
    ensures r >= 0 ==> t[r] == '\n'
    ensures forall j :: r < j < |t| ==> t[j] != '\n'
  {
    if |t| == 0 then -1
    else if t[|t| - 1] == '\n' then |t| - 1
    else LastNewline(t[..|t| - 1])
  }

  /** The position reached from `pos` by consuming `n` characters of `s`.
      Only the characters that exist are scanned for line feeds (reading past
      the end of a JavaScript string yields `NaN`, never a line feed), while
      offset and column move by `n` in any case. */
  function Advance(pos: Position, s: string, n: int): Position {
    var t := s[..Clamp(n, 0, |s|)];
    var last := LastNewline(t);
    Position(pos.offset + n, pos.line + Newlines(t),
             if last == -1 then pos.column + n else n - last)
  }

  /** The position of character `k` of `text`, counted from the start. */
  function PositionAt(text: string, k: int): Position {
    Advance(Origin, text, k)
  }

  /** Mirrors `advancePositionWithMutation`: a scan of the first `n`
      characters that counts line feeds and remembers the last one. */
  method AdvancePosition(pos: Position, s: string, n: int) returns (r: Position)
    ensures r == Advance(pos, s, n)
    ensures r.offset == pos.offset + n
    ensures 0 <= n <= |s| ==> r.line == pos.line + Newlines(s[..n])
    ensures 0 <= n && pos.column >= 1 ==> r.column >= 1
  {
    var linesCount := 0;
    var lastNewLinePos := -1;
    var i := 0;
    while i < n
      invariant 0 <= i <= Max(n, 0)
      invariant linesCount == Newlines(s[..Min(i, |s|)])
      invariant lastNewLinePos == LastNewline(s[..Min(i, |s|)])
      decreases n - i
    {
      if i < |s| {
        assert s[..i + 1][..i] == s[..i];
        if s[i] == '\n' {
          linesCount := linesCount + 1;
          lastNewLinePos := i;
        }
      }
      i := i + 1;
    }
    assert i == Max(n, 0);
    r := Position(pos.offset + n, pos.line + linesCount,
                  if lastNewLinePos == -1 then pos.column + n else n - lastNewLinePos);
  }

  lemma {:induction false} NewlinesAppend(x: string, y: string)
    ensures Newlines(x + y) == Newlines(x) + Newlines(y)
    decreases |y|
  {
    if |y| > 0 {
      assert (x + y)[..|x + y| - 1] == x + y[..|y| - 1];
      NewlinesAppend(x, y[..|y| - 1]);
    } else {
      assert x + y == x;
    }
  }

  lemma {:induction false} LastNewlineAppend(x: string, y: string)
    ensures LastNewline(x + y) == if LastNewline(y) == -1 then LastNewline(x) else |x| + LastNewline(y)
    decreases |y|
  {
    if |y| > 0 {
      assert (x + y)[..|x + y| - 1] == x + y[..|y| - 1];
      LastNewlineAppend(x, y[..|y| - 1]);
    } else {
      assert x + y == x;
    }
  }

  /** Advancing by `a` and then by `b` over what follows is one advance by
      `a + b`: the parser may consume its input in any number of steps and its
      cursor stays where a single scan from the start would put it. */
  lemma AdvanceCompose(pos: Position, s: string, a: int, b: int)
    requires 0 <= a && 0 <= b && a + b <= |s|
    ensures Advance(Advance(pos, s, a), s[a..], b) == Advance(pos, s, a + b)
  {
    var x := s[..a];
    var y := s[a..][..b];
    assert s[..a + b] == x + y;
    NewlinesAppend(x, y);
    LastNewlineAppend(x, y);
  }

  /** An advance by `n` reads nothing past the first `n` characters. */
  lemma AdvanceReadsPrefix(pos: Position, s: string, t: string, n: int)
    requires 0 <= n <= |s| && n <= |t| && s[..n] == t[..n]
    ensures Advance(pos, s, n) == Advance(pos, t, n)
  {
  }

  /** A location agrees with the template text when its `source` is exactly
      the text between its two offsets and both ends sit where the text puts
      them. */
  predicate Consistent(text: string, loc: SourceLocation) {
    0 <= loc.start.offset <= loc.end.offset <= |text|
    && loc.source == text[loc.start.offset..loc.end.offset]
    && loc.start == PositionAt(text, loc.start.offset)
    && loc.end == PositionAt(text, loc.end.offset)
  }

  /** `getInnerRange`: the part of a location that starts `offset` characters
      in and, when a length is given, is that long; without a length it runs
      to the location's end. */
  function InnerRange(loc: SourceLocation, offset: int, length: Option<int>): (r: SourceLocation)
    ensures r.start.offset == loc.start.offset + offset
    ensures length.None? ==> r.end == loc.end
    ensures length.Some? ==> r.end.offset == loc.start.offset + offset + length.value
  {
    var source := Substr(loc.source, offset, if length.Some? then length.value else |loc.source|);
    var start := Advance(loc.start, loc.source, offset);
    var end := if length.Some? then Advance(loc.start, loc.source, offset + length.value) else loc.end;
    SourceLocation(start, end, source)
  }

  /** A piece of a location that agrees with the template text agrees with it
      too. */
  lemma InnerRangeConsistent(text: string, loc: SourceLocation, offset: int, length: int)
    requires Consistent(text, loc)
    requires 0 <= offset && 0 <= length && offset + length <= |loc.source|
    ensures Consistent(text, InnerRange(loc, offset, Some(length)))
  {
    var a := loc.start.offset + offset;
    var r := InnerRange(loc, offset, Some(length));
    InnerRangeEnds(text, loc, offset, length);
    assert r.start.offset == a && r.end.offset == a + length;
    assert r.source == text[r.start.offset..r.end.offset];
    assert r.start == PositionAt(text, r.start.offset) && r.end == PositionAt(text, r.end.offset);
  }

  /** The ends and text of such a piece, in terms of the template. */
  lemma InnerRangeEnds(text: string, loc: SourceLocation, offset: int, length: int)
    requires Consistent(text, loc)
    requires 0 <= offset && 0 <= length && offset + length <= |loc.source|
    ensures var r := InnerRange(loc, offset, Some(length));
            var a := loc.start.offset + offset;
            && 0 <= a && a + length <= |text|
            && r.source == text[a..a + length]
            && r.start == PositionAt(text, a) && r.end == PositionAt(text, a + length)
  {
    var r := InnerRange(loc, offset, Some(length));
    InnerRangeSource(text, loc, offset, length);
    assert r.start == Advance(loc.start, loc.source, offset);
    assert r.end == Advance(loc.start, loc.source, offset + length);
    AdvanceWithin(text, loc, offset);
    AdvanceWithin(text, loc, offset + length);
  }

  lemma InnerRangeSource(text: string, loc: SourceLocation, offset: int, length: int)
    requires Consistent(text, loc)
    requires 0 <= offset && 0 <= length && offset + length <= |loc.source|
    ensures var a := loc.start.offset + offset;
            && 0 <= a && a + length <= |text|
            && InnerRange(loc, offset, Some(length)).source == text[a..a + length]
  {
    var k := loc.start.offset;
    SliceOfSlice(text, k, loc.end.offset - k, offset, offset + length);
  }

  /** Advancing a consistent location's start over its own text lands where
      the template text puts that offset. */
  lemma AdvanceWithin(text: string, loc: SourceLocation, m: int)
    requires Consistent(text, loc)
    requires 0 <= m <= |loc.source|
    ensures Advance(loc.start, loc.source, m) == PositionAt(text, loc.start.offset + m)
  {
    var k := loc.start.offset;
    assert text[k..][..m] == loc.source[..m];
    AdvanceReadsPrefix(loc.start, loc.source, text[k..], m);
    AdvanceCompose(Origin, text, k, m);
  }

  /** Advancing from the position of character `k` over a piece of the
      template that starts there lands on the template's own position. */
  lemma AdvanceFrom(text: string, k: nat, piece: string, m: int)
    requires k + |piece| <= |text| && text[k..k + |piece|] == piece
    requires 0 <= m <= |piece|
    ensures Advance(PositionAt(text, k), piece, m) == PositionAt(text, k + m)
  {
    assert text[k..][..m] == piece[..m];
    AdvanceReadsPrefix(PositionAt(text, k), piece, text[k..], m);
    AdvanceCompose(Origin, text, k, m);
  }
}
