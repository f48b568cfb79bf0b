/** The default entity decoder of the template parser: the five named
    references `&gt;`, `&lt;`, `&amp;`, `&apos;` and `&quot;`, replaced left to
    right without rescanning what a replacement produced. Anything else after
    an ampersand stays as written. */
module Entities {
  import opened Strings

  /** The character a named reference at the start of `s` stands for, and
      the reference's length; `0` when `s` does not start with one. */
  function NamedReference(s: string): (r: (char, nat))
    ensures r.1 == 0 || (r.1 <= |s| && s[0] == '&' && s[r.1 - 1] == ';')
    ensures r.1 != 0 ==> r.1 in {4, 5, 6}
  {
    if StartsWith(s, "&gt;") then ('>', 4)
    else if StartsWith(s, "&lt;") then ('<', 4)
    else if StartsWith(s, "&amp;") then ('&', 5)
    else if StartsWith(s, "&apos;") then ('\'', 6)
    else if StartsWith(s, "&quot;") then ('"', 6)
    else (' ', 0)
  }

  /** `decodeEntities` of the default parser options. */
  function Decode(s: string): (r: string)
    ensures |r| <= |s|
    ensures '&' !in s ==> r == s
    decreases |s|
  {
    if |s| == 0 then ""
    else
      var (c, n) := NamedReference(s);
      if n == 0 then [s[0]] + Decode(s[1..])
      else [c] + Decode(s[n..])
  }

  /** The reference a character is written as so that the decoder gives it
      back: the five characters that have a name, and every other character
      as itself. */
  function EscapeChar(c: char): string {
    match c
    case '>' => "&gt;"
    case '<' => "&lt;"
    case '&' => "&amp;"
    case '\'' => "&apos;"
    case '"' => "&quot;"
    case _ => [c]
  }

  function Escape(s: string): (r: string)
    ensures |r| >= |s|
  {
    if |s| == 0 then "" else EscapeChar(s[0]) + Escape(s[1..])
  }

  /** Escaped text carries no bare ampersand: each one opens a reference. */
  lemma {:induction false} EscapedAmpersandsOpenReferences(s: string)
    ensures forall i :: 0 <= i < |Escape(s)| && Escape(s)[i] == '&' ==> NamedReference(Escape(s)[i..]).1 != 0
  {
    if |s| > 0 {
      EscapedAmpersandsOpenReferences(s[1..]);
      var e := EscapeChar(s[0]);
      var rest := Escape(s[1..]);
      forall i | 0 <= i < |e + rest| && (e + rest)[i] == '&'
        ensures NamedReference((e + rest)[i..]).1 != 0
      {
        if i < |e| {
          assert i == 0;
          assert (e + rest)[i..] == e + rest;
        } else {
          assert (e + rest)[i..] == rest[i - |e|..];
        }
      }
    }
  }

  /** The decoder reads an escaped character back and carries on with what
      follows it. */
  lemma DecodeEscapedHead(c: char, rest: string)
    ensures Decode(EscapeChar(c) + rest) == [c] + Decode(rest)
  {
    var e := EscapeChar(c) + rest;
    var n := |EscapeChar(c)|;
    assert e[n..] == rest;
    if c in {'>', '<', '&', '\'', '"'} {
      assert e[..n] == EscapeChar(c);
      assert NamedReference(e) == (c, n);
    } else {
      assert e[0] == c;
      assert NamedReference(e).1 == 0;
    }
  }

  /** Decoding undoes escaping. */
  lemma {:induction false} DecodeEscape(s: string)
    ensures Decode(Escape(s)) == s
  {
    if |s| > 0 {
      DecodeEscape(s[1..]);
      DecodeEscapedHead(s[0], Escape(s[1..]));
    }
  }
}
