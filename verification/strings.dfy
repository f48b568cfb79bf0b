/** The JavaScript string operations the compiler leans on, restated over
    `seq<char>`: prefix tests, `indexOf`, `trim`, `split`, decimal printing
    and parsing, and `JSON.stringify` of a string. */
module Strings {
  import opened Wrappers

  predicate StartsWith(s: string, p: string) {
    |p| <= |s| && s[..|p|] == p
  }

  predicate EndsWith(s: string, p: string) {
    |p| <= |s| && s[|s| - |p|..] == p
  }

  function Min(a: int, b: int): int { if a <= b then a else b }
  function Max(a: int, b: int): int { if a <= b then b else a }

  /** `k` forced into `[lo, hi]`, the way JavaScript clamps string indices. */
  function Clamp(k: int, lo: int, hi: int): (r: int)
    requires lo <= hi
    ensures lo <= r <= hi
    ensures lo <= k <= hi ==> r == k
  {
    if k < lo then lo else if k > hi then hi else k
  }

  /** A JavaScript string index argument resolved against length `len`: a
      negative index counts back from the end, and the result is clamped. */
  function JsIndex(k: int, len: nat): (r: nat)
    ensures r <= len
    ensures 0 <= k <= len ==> r == k
  {
    if k < 0 then Max(len + k, 0) else Min(k, len)
  }

  /** `s.slice(a, b)`: indices resolved as JavaScript does, and an inverted
      range gives the empty string. */
  function Slice(s: string, a: int, b: int): (r: string)
    ensures |r| <= |s|
    ensures 0 <= a <= b <= |s| ==> r == s[a..b]
  {
    var lo := JsIndex(a, |s|);
    var hi := JsIndex(b, |s|);
    if lo <= hi then s[lo..hi] else ""
  }

  /** `s.substr(start, length)`: the start resolved as for `slice`, and a
      length below zero gives the empty string. */
  function Substr(s: string, start: int, length: int): (r: string)
    ensures |r| <= |s|
    ensures 0 <= start && 0 <= length && start + length <= |s| ==> r == s[start..start + length]
    ensures 0 <= start <= |s| && 0 <= length ==> |r| == Min(length, |s| - start)
  {
    var lo := JsIndex(start, |s|);
    var hi := Clamp(lo + Max(length, 0), lo, |s|);
    s[lo..hi]
  }

  /** `p` occurs in `s` starting at index `j`, compared character by
      character. */
  predicate OccursAt(s: string, p: string, j: int)
    decreases |p|
  {
    0 <= j && j + |p| <= |s| && (|p| == 0 || (s[j] == p[0] && OccursAt(s, p[1..], j + 1)))
  }

  /** An occurrence is a slice equal to the pattern. */
  lemma {:induction false} OccursAtSlice(s: string, p: string, j: int)
    ensures OccursAt(s, p, j) <==> 0 <= j && j + |p| <= |s| && s[j..j + |p|] == p
    decreases |p|
  {
    if 0 <= j && j + |p| <= |s| && |p| > 0 {
      OccursAtSlice(s, p[1..], j + 1);
      assert s[j..j + |p|] == [s[j]] + s[j + 1..j + 1 + |p[1..]|];
      assert p == [p[0]] + p[1..];
    }
  }

  /** A piece of a piece is a piece of the whole. */
  lemma SliceOfSlice(s: string, k: nat, n: nat, a: nat, b: nat)
    requires k + n <= |s| && a <= b <= n
    ensures s[k..k + n][a..b] == s[k + a..k + b]
  {
    var t := s[k..k + n][a..b];
    assert forall i :: 0 <= i < |t| ==> t[i] == s[k + a + i];
  }

  function IndexOfFrom(s: string, p: string, k: nat): (r: int)
    requires k <= |s|
    ensures r == -1 || (k <= r && OccursAt(s, p, r))
    ensures forall j :: k <= j && (r == -1 || j < r) ==> !OccursAt(s, p, j)
    decreases |s| - k
  {
    OccursAtSlice(s, p, k);
    if StartsWith(s[k..], p) then
      assert s[k..][..|p|] == s[k..k + |p|];
      k
    else if k == |s| then -1
    else
      assert |p| <= |s| - k ==> s[k..][..|p|] == s[k..k + |p|];
      IndexOfFrom(s, p, k + 1)
  }

  /** `s.indexOf(p, from)`: the first index at or after `from` (clamped) where
      `p` occurs, or -1 when there is none. */
  function IndexOf(s: string, p: string, from: int): (r: int)
    ensures r == -1 || (Clamp(from, 0, |s|) <= r && OccursAt(s, p, r))
    ensures forall j :: Clamp(from, 0, |s|) <= j && (r == -1 || j < r) ==> !OccursAt(s, p, j)
  {
    IndexOfFrom(s, p, Clamp(from, 0, |s|))
  }

  /** The character class written `\s` in a JavaScript regular expression,
      and the set `String.prototype.trim` removes: white space and line
      terminators. */
  predicate IsJsSpace(c: char) {
    c == '\t' || c == '\n' || c == '\U{000B}' || c == '\U{000C}' || c == '\r' || c == ' '
    || c == '\U{00A0}' || c == '\U{1680}' || ('\U{2000}' <= c <= '\U{200A}')
    || c == '\U{2028}' || c == '\U{2029}' || c == '\U{202F}' || c == '\U{205F}'
    || c == '\U{3000}' || c == '\U{FEFF}'
  }

  /** The class `[\t\r\n\f ]` the HTML tokenizer treats as white space. */
  predicate IsHtmlSpace(c: char) {
    c == '\t' || c == '\r' || c == '\n' || c == '\U{000C}' || c == ' '
  }

  predicate AllJsSpace(s: string) {
    forall i :: 0 <= i < |s| ==> IsJsSpace(s[i])
  }

  /** The number of white-space characters `s` starts with. */
  function LeadingSpaces(s: string): (k: nat)
    ensures k <= |s|
    ensures k < |s| ==> !IsJsSpace(s[k])
  {
    if |s| > 0 && IsJsSpace(s[0]) then 1 + LeadingSpaces(s[1..]) else 0
  }

  /** Everything before `LeadingSpaces(s)` is white space. */
  lemma {:induction false} LeadingAllSpace(s: string)
    ensures forall i :: 0 <= i < LeadingSpaces(s) ==> IsJsSpace(s[i])
    decreases |s|
  {
    if |s| > 0 && IsJsSpace(s[0]) {
      LeadingAllSpace(s[1..]);
      forall i | 0 <= i < LeadingSpaces(s)
        ensures IsJsSpace(s[i])
      {
        if i > 0 {
          assert s[i] == s[1..][i - 1];
        }
      }
    }
  }

  /** The length of `s` without the white space it ends with. */
  function TrailingStart(s: string): (k: nat)
    ensures k <= |s|
    ensures k > 0 ==> !IsJsSpace(s[k - 1])
  {
    if |s| > 0 && IsJsSpace(s[|s| - 1]) then TrailingStart(s[..|s| - 1]) else |s|
  }

  /** Everything from `TrailingStart(s)` on is white space. */
  lemma {:induction false} TrailingAllSpace(s: string)
    ensures forall i :: TrailingStart(s) <= i < |s| ==> IsJsSpace(s[i])
    decreases |s|
  {
    if |s| > 0 && IsJsSpace(s[|s| - 1]) {
      TrailingAllSpace(s[..|s| - 1]);
      forall i | TrailingStart(s) <= i < |s|
        ensures IsJsSpace(s[i])
      {
        if i < |s| - 1 {
          assert s[i] == s[..|s| - 1][i];
        }
      }
    }
  }

  function TrimStart(s: string): (r: string)
    ensures |r| <= |s|
  {
    s[LeadingSpaces(s)..]
  }

  /** `s.trim()`: the result is the piece of `s` between the white space it
      starts with and the white space it ends with; it is empty exactly when
      `s` is all white space. */
  function Trim(s: string): (r: string)
    ensures |r| <= |s|
    ensures |r| > 0 ==> !IsJsSpace(r[0]) && !IsJsSpace(r[|r| - 1])
  {
    s[LeadingSpaces(s)..][..TrailingStart(s[LeadingSpaces(s)..])]
  }

  /** Trimming leaves nothing exactly when the text is all white space, and
      otherwise keeps the piece after the leading white space. */
  lemma TrimFacts(s: string)
    ensures Trim(s) == "" <==> AllJsSpace(s)
    ensures LeadingSpaces(s) + |Trim(s)| <= |s| && Trim(s) == s[LeadingSpaces(s)..LeadingSpaces(s) + |Trim(s)|]
  {
    TrimEmpty(s);
  }

  lemma TrimEmpty(s: string)
    ensures TrailingStart(s[LeadingSpaces(s)..]) == 0 <==> AllJsSpace(s)
  {
    var k := LeadingSpaces(s);
    LeadingAllSpace(s);
    TrailingAllSpace(s[k..]);
    if TrailingStart(s[k..]) == 0 {
      forall i | 0 <= i < |s|
        ensures IsJsSpace(s[i])
      {
        if i >= k {
          assert false;
        }
      }
    }
  }

  /** ASCII-only `toLowerCase`. */
  function ToLower(s: string): (r: string)
    ensures |r| == |s|
  {
    seq(|s|, i requires 0 <= i < |s| => if 'A' <= s[i] <= 'Z' then (s[i] as int + 32) as char else s[i])
  }

  predicate IsAsciiLetter(c: char) { ('a' <= c <= 'z') || ('A' <= c <= 'Z') }
  predicate IsDigit(c: char) { '0' <= c <= '9' }

  /** The class `\w`: ASCII letters, digits and the underscore. */
  predicate IsWordChar(c: char) { IsAsciiLetter(c) || IsDigit(c) || c == '_' }

  /** The index of the first `sep` in `s`, or -1. */
  function FindChar(s: string, sep: char): (r: int)
    ensures -1 <= r < |s|
    ensures r >= 0 ==> s[r] == sep
    ensures forall j :: 0 <= j < |s| && (r == -1 || j < r) ==> s[j] != sep
  {
    if |s| == 0 then -1
    else if s[0] == sep then 0
    else
      var r := FindChar(s[1..], sep);
      if r == -1 then -1 else r + 1
  }

  /** `s.split(sep)` for a one-character separator: always at least one piece,
      and empty pieces are kept. */
  function Split(s: string, sep: char): (r: seq<string>)
    ensures |r| >= 1
    decreases |s|
  {
    var k := FindChar(s, sep);
    if k == -1 then [s] else [s[..k]] + Split(s[k + 1..], sep)
  }

  /** No piece of a split holds the separator. */
  lemma {:induction false} SplitPieces(s: string, sep: char)
    ensures forall i :: 0 <= i < |Split(s, sep)| ==> sep !in Split(s, sep)[i]
    decreases |s|
  {
    var k := FindChar(s, sep);
    if k != -1 {
      SplitStep(s, sep);
      SplitPieces(s[k + 1..], sep);
      assert forall j :: 0 <= j < |s[..k]| ==> s[..k][j] != sep;
      var r := Split(s, sep);
      forall i | 0 <= i < |r|
        ensures sep !in r[i]
      {
        if i > 0 {
          assert r[i] == r[1..][i - 1];
        }
      }
    } else {
      assert forall j :: 0 <= j < |s| ==> s[j] != sep;
    }
  }

  /** `parts.join(sep)`. */
  function Join(parts: seq<string>, sep: string): string {
    if |parts| == 0 then ""
    else if |parts| == 1 then parts[0]
    else parts[0] + sep + Join(parts[1..], sep)
  }

  /** A split at a separator: the piece before it, then the split of the
      rest. */
  lemma SplitStep(s: string, sep: char)
    requires FindChar(s, sep) != -1
    ensures var k := FindChar(s, sep);
            Split(s, sep) == [s[..k]] + Split(s[k + 1..], sep)
  {
    var k := FindChar(s, sep);
    assert k != -1;
  }

  lemma Reassemble(s: string, k: nat)
    requires k < |s|
    ensures s == s[..k] + [s[k]] + s[k + 1..]
  {
  }

  /** A join of two or more pieces is the first piece, the separator, and the
      join of the rest. */
  lemma JoinCons(parts: seq<string>, sep: string)
    requires |parts| >= 2
    ensures Join(parts, sep) == parts[0] + sep + Join(parts[1..], sep)
  {
  }

  /** Every piece stands in the join, between two strings. */
  lemma {:induction false} JoinPartAt(parts: seq<string>, sep: string, i: nat)
    requires i < |parts|
    ensures exists a, b :: Join(parts, sep) == a + parts[i] + b
    decreases |parts|
  {
    if |parts| == 1 {
      assert Join(parts, sep) == "" + parts[0] + "";
    } else if i == 0 {
      assert Join(parts, sep) == "" + parts[0] + (sep + Join(parts[1..], sep));
    } else {
      JoinPartAt(parts[1..], sep, i - 1);
      var a, b :| Join(parts[1..], sep) == a + parts[1..][i - 1] + b;
      assert Join(parts, sep) == (parts[0] + sep + a) + parts[i] + b;
    }
  }

  /** A piece added at the end follows the join of the others after one
      separator. */
  lemma {:induction false} JoinSnoc(parts: seq<string>, x: string, sep: string)
    ensures Join(parts + [x], sep) == if |parts| == 0 then x else Join(parts, sep) + sep + x
    decreases |parts|
  {
    if |parts| >= 2 {
      JoinSnoc(parts[1..], x, sep);
      assert (parts + [x])[1..] == parts[1..] + [x];
    } else if |parts| == 1 {
      assert (parts + [x])[1..] == [x];
    }
  }

  /** Joining the pieces of a split with the same separator gives back the
      original string. */
  lemma {:induction false} JoinSplit(s: string, sep: char)
    ensures Join(Split(s, sep), [sep]) == s
    decreases |s|
  {
    var k := FindChar(s, sep);
    if k != -1 {
      SplitStep(s, sep);
      JoinSplit(s[k + 1..], sep);
      JoinCons(Split(s, sep), [sep]);
      Reassemble(s, k);
    }
  }

  /** Splitting a join of separator-free pieces gives the pieces back. */
  lemma {:induction false} SplitJoin(parts: seq<string>, sep: char)
    requires |parts| >= 1
    requires forall i :: 0 <= i < |parts| ==> sep !in parts[i]
    ensures Split(Join(parts, [sep]), sep) == parts
    decreases |parts|
  {
    if |parts| == 1 {
      NoSeparator(parts[0], sep);
    } else {
      var rest := Join(parts[1..], [sep]);
      JoinCons(parts, [sep]);
      SeparatorAfter(parts[0], sep, rest);
      SplitStep(parts[0] + [sep] + rest, sep);
      SplitJoin(parts[1..], sep);
      assert parts == [parts[0]] + parts[1..];
    }
  }

  /** A string without the separator splits into itself. */
  lemma NoSeparator(p: string, sep: char)
    requires sep !in p
    ensures FindChar(p, sep) == -1
  {
    assert forall j :: 0 <= j < |p| ==> p[j] != sep;
  }

  /** The first separator of `p + [sep] + rest`, when `p` has none, is the one
      after `p`. */
  lemma {:induction false} SeparatorAfter(p: string, sep: char, rest: string)
    requires sep !in p
    ensures var j := p + [sep] + rest;
            && FindChar(j, sep) == |p| && j[..|p|] == p && j[|p| + 1..] == rest
    decreases |p|
  {
    var j := p + [sep] + rest;
    if |p| > 0 {
      assert p[0] != sep;
      assert j[1..] == p[1..] + [sep] + rest;
      SeparatorAfter(p[1..], sep, rest);
    }
    assert j[..|p|] == p;
    assert j[|p| + 1..] == rest;
  }

  function DigitChar(d: nat): char
    requires d < 10
  {
    ('0' as int + d) as char
  }

  /** `String(n)` for a natural number. */
  function NatToString(n: nat): (r: string)
    ensures |r| >= 1
    ensures forall i :: 0 <= i < |r| ==> IsDigit(r[i])
    decreases n
  {
    if n < 10 then [DigitChar(n)] else NatToString(n / 10) + [DigitChar(n % 10)]
  }

  /** `String(i)` for an integer. */
  function IntToString(i: int): string {
    if i < 0 then "-" + NatToString(-i) else NatToString(i)
  }

  /** The value of a run of decimal digits. */
  function DigitsValue(s: string): nat
    requires forall i :: 0 <= i < |s| ==> IsDigit(s[i])
  {
    if |s| == 0 then 0
    else
      assert IsDigit(s[|s| - 1]);
      DigitsValue(s[..|s| - 1]) * 10 + (s[|s| - 1] as int - '0' as int)
  }

  function DigitRunLength(s: string): (r: nat)
    ensures r <= |s|
    ensures forall i :: 0 <= i < r ==> IsDigit(s[i])
    ensures r < |s| ==> !IsDigit(s[r])
  {
    if |s| > 0 && IsDigit(s[0]) then 1 + DigitRunLength(s[1..]) else 0
  }

  /** `parseInt(s, 10)`: optional white space, an optional sign, then the
      longest run of decimal digits; `None` stands for `NaN`. */
  function ParseInt(s: string): Option<int> {
    ParseSigned(TrimStart(s))
  }

  function ParseSigned(t: string): Option<int> {
    if |t| > 0 && t[0] == '-' then
      var m := ParseDigits(t[1..]);
      if m.Some? then Some(-m.value) else None
    else if |t| > 0 && t[0] == '+' then ParseDigits(t[1..])
    else ParseDigits(t)
  }

  /** The value of the longest run of digits `b` starts with. */
  function ParseDigits(b: string): Option<int> {
    var k := DigitRunLength(b);
    if k == 0 then None else Some(DigitsValue(b[..k]))
  }

  lemma {:induction false} DigitsOfNat(n: nat)
    ensures DigitsValue(NatToString(n)) == n
    decreases n
  {
    if n >= 10 {
      DigitsOfNat(n / 10);
      var s := NatToString(n);
      assert s[..|s| - 1] == NatToString(n / 10);
    }
  }

  lemma {:induction false} DigitRunOfDigits(s: string, tail: string)
    requires forall i :: 0 <= i < |s| ==> IsDigit(s[i])
    requires |tail| == 0 || !IsDigit(tail[0])
    ensures DigitRunLength(s + tail) == |s|
    decreases |s|
  {
    if |s| > 0 {
      assert (s + tail)[1..] == s[1..] + tail;
      DigitRunOfDigits(s[1..], tail);
    }
  }

  /** Reading back a printed integer, followed by anything that does not start
      with a digit (such as the ` /* NAME */` comment of a patch flag), gives
      the integer. */
  lemma ParseIntOfIntToString(i: int, tail: string)
    requires |tail| == 0 || !IsDigit(tail[0])
    ensures ParseInt(IntToString(i) + tail) == Some(i)
  {
    if i < 0 {
      ParseDigitsOfNat(-i, tail);
      NegatedDigits(NatToString(-i) + tail, -i);
      NegativeText(i, tail);
    } else {
      ParseDigitsOfNat(i, tail);
      UnsignedDigits(NatToString(i) + tail, i);
    }
  }

  lemma NegativeText(i: int, tail: string)
    requires i < 0
    ensures IntToString(i) + tail == ['-'] + (NatToString(-i) + tail)
  {
  }

  /** A minus sign in front of digits negates their value. */
  lemma NegatedDigits(u: string, v: int)
    requires ParseDigits(u) == Some(v)
    ensures ParseInt(['-'] + u) == Some(-v)
  {
    var t := ['-'] + u;
    NoLeadingSpace(t);
    DropFirst('-', u);
    SignedMinus(t, v);
  }

  lemma DropFirst(c: char, u: string)
    ensures ([c] + u)[1..] == u
  {
  }

  lemma SignedMinus(t: string, v: int)
    requires |t| > 0 && t[0] == '-' && ParseDigits(t[1..]) == Some(v)
    ensures ParseSigned(t) == Some(-v)
  {
  }

  /** Digits without a sign read as their value. */
  lemma UnsignedDigits(u: string, v: int)
    requires |u| > 0 && IsDigit(u[0]) && ParseDigits(u) == Some(v)
    ensures ParseInt(u) == Some(v)
  {
    NoLeadingSpace(u);
  }

  /** A string that does not start with white space has none to trim. */
  lemma NoLeadingSpace(s: string)
    requires |s| > 0 && (s[0] == '-' || IsDigit(s[0]))
    ensures TrimStart(s) == s
  {
    assert !IsJsSpace(s[0]);
    assert LeadingSpaces(s) == 0;
  }

  /** The digits of a printed natural number, followed by a non-digit, read
      back as the number. */
  lemma ParseDigitsOfNat(n: nat, tail: string)
    requires |tail| == 0 || !IsDigit(tail[0])
    ensures var d := NatToString(n); |d + tail| > 0 && IsDigit((d + tail)[0]) && ParseDigits(d + tail) == Some(n)
  {
    var d := NatToString(n);
    DigitsOfNat(n);
    DigitRunOfDigits(d, tail);
    assert (d + tail)[..|d|] == d;
  }

  function HexDigit(d: nat): char
    requires d < 16
  {
    if d < 10 then DigitChar(d) else ('a' as int + d - 10) as char
  }

  function HexValue(c: char): (r: Option<nat>)
    ensures r.Some? ==> r.value < 16
  {
    if '0' <= c <= '9' then Some(c as int - '0' as int)
    else if 'a' <= c <= 'f' then Some(c as int - 'a' as int + 10)
    else if 'A' <= c <= 'F' then Some(c as int - 'A' as int + 10)
    else None
  }

  /** The escape `JSON.stringify` writes for one character of a string. */
  function JsonEscapeChar(c: char): (r: string)
    ensures |r| >= 1
    ensures r[0] == '\\' <==> (c == '"' || c == '\\' || c < ' ')
  {
    if c == '"' then "\\\""
    else if c == '\\' then "\\\\"
    else if c == '\U{0008}' then "\\b"
    else if c == '\U{000C}' then "\\f"
    else if c == '\n' then "\\n"
    else if c == '\r' then "\\r"
    else if c == '\t' then "\\t"
    else if c < ' ' then ['\\', 'u', '0', '0', HexDigit(c as int / 16), HexDigit(c as int % 16)]
    else [c]
  }

  function JsonEscape(s: string): string {
    if |s| == 0 then "" else JsonEscapeChar(s[0]) + JsonEscape(s[1..])
  }

  /** `JSON.stringify(s)` for a string `s`. */
  function JsonQuote(s: string): (r: string)
    ensures |r| >= 2 && r[0] == '"' && r[|r| - 1] == '"'
  {
    "\"" + JsonEscape(s) + "\""
  }

  /** Reads the body of a JSON string literal back, escapes included; `None`
      for a malformed body. */
  function JsonUnescape(t: string): Option<string>
    decreases |t|
  {
    if |t| == 0 then Some("")
    else if t[0] == '"' then None
    else if t[0] != '\\' then
      match JsonUnescape(t[1..])
      case Some(rest) => Some([t[0]] + rest)
      case None => None
    else if |t| < 2 then None
    else
      var e := t[1];
      if e == 'u' then
        if |t| < 6 then None
        else
          var a, b, c, d := HexValue(t[2]), HexValue(t[3]), HexValue(t[4]), HexValue(t[5]);
          if a.None? || b.None? || c.None? || d.None? then None
          else
            var v := ((a.value * 16 + b.value) * 16 + c.value) * 16 + d.value;
            if 0xD800 <= v < 0xE000 then None
            else
              match JsonUnescape(t[6..])
              case Some(rest) => Some([v as char] + rest)
              case None => None
      else
        var c :=
          if e == '"' then Some('"') else if e == '\\' then Some('\\') else if e == '/' then Some('/')
          else if e == 'b' then Some('\U{0008}') else if e == 'f' then Some('\U{000C}')
          else if e == 'n' then Some('\n') else if e == 'r' then Some('\r') else if e == 't' then Some('\t')
          else None;
        match (c, JsonUnescape(t[2..]))
        case (Some(ch), Some(rest)) => Some([ch] + rest)
        case _ => None
  }

  /** Reads a JSON string literal: the quotes, then the escaped body. */
  function JsonUnquote(t: string): Option<string> {
    if |t| >= 2 && t[0] == '"' && t[|t| - 1] == '"' then JsonUnescape(t[1..|t| - 1]) else None
  }

  lemma EscapeCharUnescapes(c: char, t: string)
    ensures JsonUnescape(JsonEscapeChar(c) + t) ==
      match JsonUnescape(t) case Some(rest) => Some([c] + rest) case None => None
  {
    var e := JsonEscapeChar(c);
    if c < ' ' && c != '\U{0008}' && c != '\U{000C}' && c != '\n' && c != '\r' && c != '\t' {
      var s := e + t;
      assert s[6..] == t;
      assert HexValue(s[2]) == Some(0) && HexValue(s[3]) == Some(0);
      assert HexValue(s[4]) == Some(c as int / 16) && HexValue(s[5]) == Some(c as int % 16);
    } else if e[0] == '\\' {
      assert (e + t)[2..] == t;
    } else {
      assert (e + t)[1..] == t;
    }
  }

  /** Printing a string as a JSON literal and reading it back gives the same
      string: the code generator's quoted strings carry the content exactly. */
  lemma {:induction false} JsonRoundTrip(s: string)
    ensures JsonUnquote(JsonQuote(s)) == Some(s)
    decreases |s|
  {
    JsonEscapeRoundTrip(s);
    var q := JsonQuote(s);
    assert q[1..|q| - 1] == JsonEscape(s);
  }

  lemma {:induction false} JsonEscapeRoundTrip(s: string)
    ensures JsonUnescape(JsonEscape(s)) == Some(s)
    decreases |s|
  {
    if |s| > 0 {
      JsonEscapeRoundTrip(s[1..]);
      EscapeCharUnescapes(s[0], JsonEscape(s[1..]));
      assert [s[0]] + s[1..] == s;
    }
  }
}
