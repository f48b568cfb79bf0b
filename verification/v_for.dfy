// `v-for`: the element carrying `v-for="alias in source"` is replaced by a
// loop node. Its expression is split into the iterated source and up to three
// aliases (value, key, index); once the loop's children are transformed, the
// loop's code is a keyed or unkeyed fragment block over `renderList(source,
// (value, key, index) => child)`.

module VFor {
  import opened Wrappers
  import opened Strings
  import opened Positions
  import opened Ast
  import opened AstUtils
  import opened TransformContext
  import Expressions
  import PatchFlags
  import ErrorCodes

  // ----- the regular expressions of `parseForExpression` -----

  /** `in` or `of` at position `j`. */
  predicate KeywordAt(s: string, j: int) {
    0 <= j && j + 2 <= |s| && (s[j..j + 2] == "in" || s[j..j + 2] == "of")
  }

  /** `\s+(?:in|of)\s+` matches at `i`. The white space before the keyword is
      the whole run at `i`: a shorter run would leave white space where the
      keyword has to start. */
  predicate SeparatorAt(s: string, i: int) {
    0 <= i < |s|
    && var m := LeadingSpaces(s[i..]);
       m >= 1 && KeywordAt(s, i + m) && i + m + 2 < |s| && IsJsSpace(s[i + m + 2])
  }

  /** The first separator at or after `i`: where the lazy group of
      `forAliasRE` stops. */
  function FirstSeparator(s: string, i: nat): (r: Option<nat>)
    requires i <= |s|
    ensures r.Some? ==> i <= r.value < |s| && SeparatorAt(s, r.value)
    ensures forall j :: i <= j < |s| && (r.None? || j < r.value) ==> !SeparatorAt(s, j)
    decreases |s| - i
  {
    if i == |s| then None else if SeparatorAt(s, i) then Some(i) else FirstSeparator(s, i + 1)
  }

  /** The white-space run at `i`, as a slice of `s`. */
  lemma SpacesFrom(s: string, i: nat)
    requires i <= |s|
    ensures var e := i + LeadingSpaces(s[i..]);
            && e <= |s| && AllJsSpace(s[i..e]) && (e == |s| || !IsJsSpace(s[e]))
  {
    var e := i + LeadingSpaces(s[i..]);
    LeadingAllSpace(s[i..]);
    assert forall j :: i <= j < e ==> s[j] == s[i..][j - i];
  }

  /** The two groups of `forAliasRE`, and where the second starts. */
  datatype AliasMatch = AliasMatch(lhs: string, rhs: string, rhsStart: nat)

  /** The keyword of the separator at `l`. */
  function KeywordOf(s: string, l: nat): int
    requires l <= |s|
  {
    l + LeadingSpaces(s[l..])
  }

  /** Where the second group of a match whose separator is at `l` starts:
      after the keyword and the whole white-space run following it. */
  function RhsStart(s: string, l: nat): (rs: nat)
    requires SeparatorAt(s, l)
    ensures KeywordAt(s, KeywordOf(s, l)) && KeywordOf(s, l) + 2 < rs <= |s|
    ensures AllJsSpace(s[KeywordOf(s, l) + 2..rs]) && (rs == |s| || !IsJsSpace(s[rs]))
  {
    var after := KeywordOf(s, l) + 2;
    SpacesFrom(s, after);
    after + LeadingSpaces(s[after..])
  }

  /** `exp.match(/([\s\S]*?)\s+(?:in|of)\s+([\s\S]*)/)`: the lazy first group
      stops at the first separator; the greedy white space after the keyword
      leaves the second group starting at a non-space character. */
  function MatchAlias(s: string): (r: Option<AliasMatch>)
    ensures r.None? <==> forall i :: 0 <= i < |s| ==> !SeparatorAt(s, i)
    ensures r.Some? ==>
              var m := r.value;
              && |m.lhs| < |s| && m.lhs == s[..|m.lhs|]
              && SeparatorAt(s, |m.lhs|) && (forall i :: 0 <= i < |m.lhs| ==> !SeparatorAt(s, i))
              && m.rhsStart == RhsStart(s, |m.lhs|) && m.rhs == s[m.rhsStart..]
  {
    var first := FirstSeparator(s, 0);
    if first.None? then None
    else
      var l := first.value;
      var rs := RhsStart(s, l);
      Some(AliasMatch(s[..l], s[rs..], rs))
  }

  /** Where `replace(/^\(|\)$/g, '')` cuts: after a leading `(`, before a
      trailing `)`. */
  function ParenStart(s: string): nat {
    if |s| > 0 && s[0] == '(' then 1 else 0
  }

  function ParenEnd(s: string): (r: nat)
    ensures ParenStart(s) <= r <= |s|
  {
    if |s| > 0 && s[|s| - 1] == ')' then |s| - 1 else |s|
  }

  /** `replace(/^\(|\)$/g, '')`: one leading `(` and one trailing `)` go, and
      nothing else. */
  function StripParens(s: string): (r: string)
    ensures r == s[ParenStart(s)..ParenEnd(s)]
    ensures |s| >= 2 && s[0] == '(' && s[|s| - 1] == ')' ==> r == s[1..|s| - 1]
    ensures (|s| == 0 || (s[0] != '(' && s[|s| - 1] != ')')) ==> r == s
  {
    s[ParenStart(s)..ParenEnd(s)]
  }

  predicate NoClosers(t: string) {
    forall i :: 0 <= i < |t| ==> t[i] != '}' && t[i] != ']'
  }

  predicate AtMostOneComma(t: string) {
    forall i, j :: 0 <= i < j < |t| && t[i] == ',' ==> t[j] != ','
  }

  /** `/,([^,\}\]]*)(?:,([^,\}\]]*))?$/` matches at `i`: a comma, and after it
      no `}` or `]` and at most one more comma up to the end. */
  predicate IteratorAt(s: string, i: int) {
    0 <= i < |s| && s[i] == ',' && NoClosers(s[i + 1..]) && AtMostOneComma(s[i + 1..])
  }

  /** The first comma at or after `i` at which `forIteratorRE` matches. */
  function FirstIterator(s: string, i: nat): (r: Option<nat>)
    requires i <= |s|
    ensures r.Some? ==> i <= r.value < |s| && IteratorAt(s, r.value)
    ensures forall j :: i <= j < |s| && (r.None? || j < r.value) ==> !IteratorAt(s, j)
    decreases |s| - i
  {
    if i == |s| then None else if IteratorAt(s, i) then Some(i) else FirstIterator(s, i + 1)
  }

  /** Where `forIteratorRE` matched and its two groups; the second is
      `undefined` when there is no second comma. */
  datatype IteratorMatch = IteratorMatch(at: nat, keyGroup: string, indexGroup: Option<string>)

  /** `valueContent.match(forIteratorRE)`: the leftmost comma after which the
      rest fits, split at the second comma if there is one. */
  function MatchIterator(s: string): (r: Option<IteratorMatch>)
    ensures r.None? <==> forall i :: 0 <= i < |s| ==> !IteratorAt(s, i)
    ensures r.Some? ==>
              var m := r.value;
              && IteratorAt(s, m.at) && (forall i :: 0 <= i < m.at ==> !IteratorAt(s, i))
              && s[m.at + 1..] == m.keyGroup + (if m.indexGroup.Some? then [','] + m.indexGroup.value else [])
              && ',' !in m.keyGroup && (m.indexGroup.Some? ==> ',' !in m.indexGroup.value)
  {
    match FirstIterator(s, 0)
    case None => None
    case Some(i) =>
      var t := s[i + 1..];
      var k := FindChar(t, ',');
      if k == -1 then Some(IteratorMatch(i, t, None))
      else
        assert t == t[..k] + [','] + t[k + 1..];
        Some(IteratorMatch(i, t[..k], Some(t[k + 1..])))
  }

  // ----- `parseForExpression` -----

  /** A piece of the expression's text and the offset it is located at. */
  datatype Piece = Piece(content: string, offset: int)

  /** The aliases the left-hand side declares; each is absent when its text
      is blank. */
  datatype LhsParts = LhsParts(value: Option<Piece>, key: Option<Piece>, index: Option<Piece>)

  /** `LHS.trim().replace(stripParensRE, '').trim()`: the alias list without
      its parentheses. */
  function AliasList(lhs: string): string {
    Trim(StripParens(Trim(lhs)))
  }

  /** The aliases of the left-hand side `lhs` of expression `exp`, with their
      offsets found as the source finds them: the list by `LHS.indexOf`, the
      key and index by `exp.indexOf` from the end of the alias before. */
  function LhsPieces(exp: string, lhs: string): LhsParts {
    var list := AliasList(lhs);
    var trimmedOffset := IndexOf(lhs, list, 0);
    match MatchIterator(list)
    case None => LhsParts(ValuePiece(list, trimmedOffset), None, None)
    case Some(it) => IteratorParts(exp, list, trimmedOffset, it)
  }

  /** The aliases of a list where `forIteratorRE` matched: the value is what
      comes before the match, the key its first group, the index its second. */
  function IteratorParts(exp: string, list: string, trimmedOffset: int, it: IteratorMatch): LhsParts
    requires it.at <= |list|
  {
    var valueContent := Trim(list[..it.at]);
    var valueEnd := trimmedOffset + |valueContent|;
    var key := FoundPiece(exp, Trim(it.keyGroup), valueEnd);
    var index := if it.indexGroup.Some? && it.indexGroup.value != "" then FoundPiece(exp, Trim(it.indexGroup.value), EndOr(key, valueEnd)) else None;
    LhsParts(ValuePiece(valueContent, trimmedOffset), key, index)
  }

  /** The value alias: absent when blank, else at the offset the alias list
      was found at. */
  function ValuePiece(content: string, offset: int): Option<Piece> {
    if content != "" then Some(Piece(content, offset)) else None
  }

  /** A key or index alias: absent when blank, else located by
      `exp.indexOf(content, from)`. */
  function FoundPiece(exp: string, content: string, from: int): Option<Piece> {
    if content != "" then Some(Piece(content, IndexOf(exp, content, from))) else None
  }

  /** A present piece is non-blank text found at its offset, ending by
      `bound`. */
  predicate Placed(exp: string, p: Option<Piece>, from: int, bound: int) {
    p.None?
    || (p.value.content != "" && from <= p.value.offset && p.value.offset + |p.value.content| <= bound
        && OccursAt(exp, p.value.content, p.value.offset))
  }

  /** Where a piece that may be absent ends, or `dflt`. */
  function EndOr(p: Option<Piece>, dflt: int): int {
    if p.Some? then p.value.offset + |p.value.content| else dflt
  }

  /** A piece of an occurrence is an occurrence. */
  lemma PieceAt(s: string, t: string, base: int, a: nat, n: nat)
    requires OccursAt(s, t, base) && a + n <= |t|
    ensures OccursAt(s, t[a..a + n], base + a)
  {
    OccursAtSlice(s, t, base);
    OccursAtSlice(s, t[a..a + n], base + a);
    SliceOfSlice(s, base, |t|, a, a + n);
  }

  /** `indexOf` finds an occurrence at or before any it could have found. */
  lemma IndexOfFinds(s: string, p: string, from: int, j: int)
    requires 0 <= from <= j && OccursAt(s, p, j)
    ensures var r := IndexOf(s, p, from);
            from <= r <= j && OccursAt(s, p, r)
  {
  }

  /** The trimmed text of an occurrence occurs where its first non-blank
      character does. */
  lemma TrimAt(s: string, t: string, base: int)
    requires OccursAt(s, t, base)
    ensures OccursAt(s, Trim(t), base + LeadingSpaces(t))
    ensures base + LeadingSpaces(t) + |Trim(t)| <= base + |t|
  {
    var k := LeadingSpaces(t);
    var r := Trim(t);
    PieceAt(s, t, base, k, |r|);
    OccursAtSame(s, t[k..k + |r|], r, base + k);
  }

  lemma OccursAtSame(s: string, p: string, q: string, j: int)
    requires OccursAt(s, p, j) && p == q
    ensures OccursAt(s, q, j)
  {
  }

  /** The alias list occurs in the left-hand side, and `LHS.indexOf` finds
      it at or before that place. */
  lemma AliasListPlaced(lhs: string)
    ensures var list := AliasList(lhs);
            var off := IndexOf(lhs, list, 0);
            0 <= off && OccursAt(lhs, list, off)
  {
    var t1 := Trim(lhs);
    OccursAtSlice(lhs, lhs, 0);
    TrimAt(lhs, lhs, 0);
    var sp := StripParens(t1);
    var base := LeadingSpaces(lhs) + ParenStart(t1);
    StripPlaced(lhs, t1, LeadingSpaces(lhs));
    assert AliasList(lhs) == Trim(sp);
    IndexOfFindsTrim(lhs, sp, base, 0);
  }

  /** `indexOf` from before an occurrence finds the trimmed text of the
      occurrence at or before the place it stands. */
  lemma IndexOfFindsTrim(s: string, t: string, base: int, from: int)
    requires OccursAt(s, t, base) && 0 <= from <= base
    ensures var r := IndexOf(s, Trim(t), from);
            from <= r <= base + LeadingSpaces(t) && OccursAt(s, Trim(t), r)
  {
    TrimAt(s, t, base);
    IndexOfFinds(s, Trim(t), from, base + LeadingSpaces(t));
  }

  /** Stripping the parentheses of an occurrence leaves an occurrence. */
  lemma StripPlaced(s: string, t: string, j: int)
    requires OccursAt(s, t, j)
    ensures OccursAt(s, StripParens(t), j + ParenStart(t))
  {
    PieceAt(s, t, j, ParenStart(t), ParenEnd(t) - ParenStart(t));
  }

  /** An occurrence in a prefix is an occurrence in the whole. */
  lemma OccursInPrefix(s: string, n: nat, p: string, j: int)
    requires n <= |s| && OccursAt(s[..n], p, j)
    ensures OccursAt(s, p, j) && j + |p| <= n
  {
    SliceOfSlice(s, 0, n, j, j + |p|);
  }

  /** The value alias before the first iterator comma occurs where the
      alias list starts. */
  lemma ValuePlaced(exp: string, list: string, base: int, at: nat)
    requires OccursAt(exp, list, base) && at < |list| && !IsJsSpace(list[0])
    ensures OccursAt(exp, Trim(list[..at]), base) && |Trim(list[..at])| <= at
  {
    PieceAt(exp, list, base, 0, at);
    assert list[0..at] == list[..at];
    TrimAt(exp, list[..at], base);
    if at > 0 {
      assert list[..at][0] == list[0];
    }
  }

  /** A group of the alias list occurs where it stands in the list. */
  lemma GroupPlaced(exp: string, list: string, base: int, start: nat, group: string)
    requires OccursAt(exp, list, base) && start + |group| <= |list| && list[start..start + |group|] == group
    ensures OccursAt(exp, Trim(group), base + start + LeadingSpaces(group))
    ensures base + start + LeadingSpaces(group) + |Trim(group)| <= base + start + |group|
  {
    GroupOccurs(exp, list, base, start, group);
    TrimAt(exp, group, base + start);
  }

  lemma GroupOccurs(exp: string, list: string, base: int, start: nat, group: string)
    requires OccursAt(exp, list, base) && start + |group| <= |list| && list[start..start + |group|] == group
    ensures OccursAt(exp, group, base + start)
  {
    PieceAt(exp, list, base, start, |group|);
  }

  /** A key or index alias is found at or before the place it stands. */
  lemma FoundPiecePlaced(exp: string, content: string, from: int, j: int, bound: int)
    requires 0 <= from <= j && OccursAt(exp, content, j) && j + |content| <= bound
    ensures Placed(exp, FoundPiece(exp, content, from), from, bound)
    ensures EndOr(FoundPiece(exp, content, from), from) <= j + |content|
  {
    IndexOfFinds(exp, content, from, j);
  }

  /** Where the two groups of an iterator match stand in the alias list. */
  lemma GroupsAt(list: string, at: nat, kg: string, ig: Option<string>)
    requires at < |list| && list[at + 1..] == kg + (if ig.Some? then [','] + ig.value else [])
    ensures at + 1 + |kg| <= |list| && list[at + 1..at + 1 + |kg|] == kg
    ensures ig.Some? ==> at + 2 + |kg| + |ig.value| == |list| && list[at + 2 + |kg|..at + 2 + |kg| + |ig.value|] == ig.value
  {
    var tail := list[at + 1..];
    assert list[at + 1..at + 1 + |kg|] == tail[..|kg|];
    if ig.Some? {
      assert list[at + 2 + |kg|..at + 2 + |kg| + |ig.value|] == tail[|kg| + 1..];
    }
  }

  /** The key alias lies after the value alias and inside the list. */
  lemma KeyPartPlaced(exp: string, list: string, base: int, at: nat, kg: string, valueEnd: int)
    requires OccursAt(exp, list, base) && at + 1 + |kg| <= |list| && list[at + 1..at + 1 + |kg|] == kg
    requires 0 <= valueEnd <= base + at
    ensures Placed(exp, FoundPiece(exp, Trim(kg), valueEnd), valueEnd, base + |list|)
    ensures valueEnd <= EndOr(FoundPiece(exp, Trim(kg), valueEnd), valueEnd) <= base + at + 1 + |kg|
  {
    GroupPlaced(exp, list, base, at + 1, kg);
    FoundPiecePlaced(exp, Trim(kg), valueEnd, base + at + 1 + LeadingSpaces(kg), base + at + 1 + |kg|);
  }

  /** The index alias lies after the alias before it and inside the list. */
  lemma IndexPartPlaced(exp: string, list: string, base: int, start: nat, ig: string, from: int)
    requires OccursAt(exp, list, base) && start + |ig| <= |list| && list[start..start + |ig|] == ig
    requires 0 <= from <= base + start
    ensures Placed(exp, FoundPiece(exp, Trim(ig), from), from, base + |list|)
  {
    GroupPlaced(exp, list, base, start, ig);
    FoundPiecePlaced(exp, Trim(ig), from, base + start + LeadingSpaces(ig), base + |list|);
  }

  lemma KeyOfParts(exp: string, list: string, base: int, it: IteratorMatch)
    requires it.at <= |list|
    ensures var r := IteratorParts(exp, list, base, it);
            && r.key == FoundPiece(exp, Trim(it.keyGroup), base + |Trim(list[..it.at])|)
            && EndOr(r.value, base) == base + |Trim(list[..it.at])|
  {
  }

  lemma IndexOfParts(exp: string, list: string, base: int, it: IteratorMatch)
    requires it.at <= |list|
    ensures var r := IteratorParts(exp, list, base, it);
            r.index == if it.indexGroup.Some? && it.indexGroup.value != ""
                       then FoundPiece(exp, Trim(it.indexGroup.value), EndOr(r.key, EndOr(r.value, base)))
                       else None
  {
  }

  lemma IteratorPartsPlaced(exp: string, list: string, base: int, it: IteratorMatch)
    requires OccursAt(exp, list, base) && it.at < |list| && !IsJsSpace(list[0])
    requires list[it.at + 1..] == it.keyGroup + (if it.indexGroup.Some? then [','] + it.indexGroup.value else [])
    ensures var r := IteratorParts(exp, list, base, it);
            && Placed(exp, r.value, base, base + |list|)
            && Placed(exp, r.key, EndOr(r.value, base), base + |list|)
            && Placed(exp, r.index, EndOr(r.key, EndOr(r.value, base)), base + |list|)
  {
    GroupsAt(list, it.at, it.keyGroup, it.indexGroup);
    ValueSlotOf(exp, list, base, it);
    KeySlotOf(exp, list, base, it);
    IndexSlotOf(exp, list, base, it);
  }

  lemma ValueSlotOf(exp: string, list: string, base: int, it: IteratorMatch)
    requires OccursAt(exp, list, base) && it.at < |list| && !IsJsSpace(list[0])
    ensures var r := IteratorParts(exp, list, base, it);
            && Placed(exp, r.value, base, base + |list|)
            && EndOr(r.value, base) == base + |Trim(list[..it.at])| <= base + it.at
  {
    ValueOfParts(exp, list, base, it);
    ValuePlaced(exp, list, base, it.at);
    ValueSlot(exp, Trim(list[..it.at]), base, it.at, base + |list|);
  }

  lemma KeySlotOf(exp: string, list: string, base: int, it: IteratorMatch)
    requires OccursAt(exp, list, base) && it.at < |list| && !IsJsSpace(list[0])
    requires it.at + 1 + |it.keyGroup| <= |list| && list[it.at + 1..it.at + 1 + |it.keyGroup|] == it.keyGroup
    ensures var r := IteratorParts(exp, list, base, it);
            var valueEnd := EndOr(r.value, base);
            && Placed(exp, r.key, valueEnd, base + |list|)
            && 0 <= valueEnd <= EndOr(r.key, valueEnd) <= base + it.at + 1 + |it.keyGroup|
  {
    ValueSlotOf(exp, list, base, it);
    KeyOfParts(exp, list, base, it);
    KeyPartPlaced(exp, list, base, it.at, it.keyGroup, base + |Trim(list[..it.at])|);
  }

  lemma IndexSlotOf(exp: string, list: string, base: int, it: IteratorMatch)
    requires OccursAt(exp, list, base) && it.at < |list| && !IsJsSpace(list[0])
    requires it.at + 1 + |it.keyGroup| <= |list| && list[it.at + 1..it.at + 1 + |it.keyGroup|] == it.keyGroup
    requires it.indexGroup.Some? ==>
               var start := it.at + 2 + |it.keyGroup|;
               start + |it.indexGroup.value| <= |list| && list[start..start + |it.indexGroup.value|] == it.indexGroup.value
    ensures var r := IteratorParts(exp, list, base, it);
            Placed(exp, r.index, EndOr(r.key, EndOr(r.value, base)), base + |list|)
  {
    IndexOfParts(exp, list, base, it);
    if it.indexGroup.Some? {
      var r := IteratorParts(exp, list, base, it);
      KeySlotOf(exp, list, base, it);
      IndexPartPlaced(exp, list, base, it.at + 2 + |it.keyGroup|, it.indexGroup.value, EndOr(r.key, EndOr(r.value, base)));
    }
  }

  /** The value alias, when present, is placed at the start of the list. */
  lemma ValueSlot(exp: string, v: string, base: int, at: int, bound: int)
    requires OccursAt(exp, v, base) && |v| <= at && base + at <= bound
    ensures Placed(exp, ValuePiece(v, base), base, bound)
    ensures EndOr(ValuePiece(v, base), base) == base + |v|
  {
  }

  /** Every alias is non-blank text found at its offset inside the left-hand
      side, and they follow one another without overlapping. */
  lemma LhsPiecesPlaced(exp: string, lhs: string)
    requires |lhs| <= |exp| && lhs == exp[..|lhs|]
    ensures var r := LhsPieces(exp, lhs);
            && Placed(exp, r.value, 0, |lhs|)
            && Placed(exp, r.key, EndOr(r.value, 0), |lhs|)
            && Placed(exp, r.index, EndOr(r.key, EndOr(r.value, 0)), |lhs|)
  {
    var list := AliasList(lhs);
    var base := IndexOf(lhs, list, 0);
    AliasListPlaced(lhs);
    OccursInPrefix(exp, |lhs|, list, base);
    var found := MatchIterator(list);
    if found.Some? {
      IteratorPartsPlaced(exp, list, base, found.value);
    }
  }

  /** The result of `parseForExpression`. */
  datatype ForParse = ForParse(source: Node, value: Option<Node>, key: Option<Node>, index: Option<Node>)

  /** `createAliasExpression`: a non-static expression located at its piece
      of the directive's expression. */
  function Alias(loc: SourceLocation, p: Piece): Node {
    SimpleExpression(p.content, false, false, InnerRange(loc, p.offset, Some(|p.content|)))
  }

  function AliasOf(loc: SourceLocation, p: Option<Piece>): Option<Node> {
    if p.Some? then Some(Alias(loc, p.value)) else None
  }

  /** The iterated source as the code locates it: `exp.indexOf(RHS,
      LHS.length)`, the first occurrence of the right-hand side's text after
      the left-hand side, which can lie inside the keyword. */
  function SourcePieceAsWritten(exp: string, m: AliasMatch): Piece {
    Piece(Trim(m.rhs), IndexOf(exp, m.rhs, |m.lhs|))
  }

  /** The iterated source located where the second group of the match
      starts. */
  function SourcePiece(m: AliasMatch): Piece {
    Piece(Trim(m.rhs), m.rhsStart)
  }

  /** The parse result from a match and the source's piece. */
  function Assemble(exp: Node, m: AliasMatch, source: Piece): ForParse
    requires exp.SimpleExpression?
  {
    var parts := LhsPieces(exp.content, m.lhs);
    ForParse(Alias(exp.loc, source), AliasOf(exp.loc, parts.value), AliasOf(exp.loc, parts.key), AliasOf(exp.loc, parts.index))
  }

  /** The match of `parseForExpression` as written, each part located by the
      program's offsets: nothing when the expression has no `in` / `of`
      separator. */
  function MatchForExpressionAsWritten(exp: Node): (r: Option<ForParse>)
    requires exp.SimpleExpression?
    ensures r.Some? <==> exists i :: 0 <= i < |exp.content| && SeparatorAt(exp.content, i)
  {
    var found := MatchAlias(exp.content);
    if found.None? then None else Some(Assemble(exp, found.value, SourcePieceAsWritten(exp.content, found.value)))
  }

  /** The match of `parseForExpression` with the source located at the
      right-hand side: the parts as they are cut from the text, before any
      of them is processed. */
  function MatchForExpression(exp: Node): (r: Option<ForParse>)
    requires exp.SimpleExpression?
    ensures r.Some? <==> exists i :: 0 <= i < |exp.content| && SeparatorAt(exp.content, i)
    ensures r.Some? ==> r.value.source.SimpleExpression? && r.value.source.content == Trim(MatchAlias(exp.content).value.rhs)
  {
    var found := MatchAlias(exp.content);
    if found.None? then None else Some(Assemble(exp, found.value, SourcePiece(found.value)))
  }

  /** An alias through `processExpression` as a function parameter. */
  function ProcessAlias(a: Option<Node>, sc: Expressions.Scope): Option<Node> {
    if a.Some? then Some(Expressions.Fast(a.value, sc, true)) else None
  }

  /** An alias keeps its text and its location, whether or not it was
      processed. */
  predicate SameAlias(a: Option<Node>, b: Option<Node>) {
    (a.Some? <==> b.Some?)
    && (a.Some? && a.value.SimpleExpression? ==>
          b.value.SimpleExpression? && b.value.content == a.value.content && b.value.loc == a.value.loc)
  }

  /** `parseForExpression`: the match, with every part passed through
      `processExpression` when identifiers are prefixed. The source is an
      expression read in the enclosing scope, so a bare name outside it is
      read from the render context; the aliases are function parameters, so
      they keep their text and location. Without prefixing the match is the
      result. */
  function ParseForExpression(exp: Node, sc: Expressions.Scope): (r: Option<ForParse>)
    requires exp.SimpleExpression?
    ensures r.Some? <==> MatchForExpression(exp).Some?
    ensures !sc.prefixIdentifiers ==> r == MatchForExpression(exp)
    ensures r.Some? ==>
              var m := MatchForExpression(exp).value;
              && r.value.source == Expressions.Fast(m.source, sc, false)
              && r.value.source.SimpleExpression? && r.value.source.loc == m.source.loc
              && SameAlias(m.value, r.value.value) && SameAlias(m.key, r.value.key) && SameAlias(m.index, r.value.index)
    ensures r.Some? && sc.prefixIdentifiers && IsSimpleIdentifier(MatchForExpression(exp).value.source.content)
            && Trim(MatchForExpression(exp).value.source.content) != ""
            ==> var name := MatchForExpression(exp).value.source.content;
                (r.value.source.content == Expressions.CtxPrefix + name <==> Expressions.Prefixed(sc, name, false))
  {
    match MatchForExpression(exp)
    case None => None
    case Some(m) =>
      Some(ForParse(Expressions.Fast(m.source, sc, false), ProcessAlias(m.value, sc), ProcessAlias(m.key, sc),
                    ProcessAlias(m.index, sc)))
  }

  /** A present alias is a trimmed, non-blank text. */
  predicate Trimmed(p: Option<Piece>) {
    p.Some? ==> p.value.content != "" && !IsJsSpace(p.value.content[0]) && !IsJsSpace(p.value.content[|p.value.content| - 1])
  }

  lemma TrimmedFound(exp: string, s: string, from: int)
    ensures Trimmed(FoundPiece(exp, Trim(s), from))
  {
  }

  lemma TrimmedIterator(exp: string, list: string, trimmedOffset: int, it: IteratorMatch)
    requires it.at <= |list|
    ensures var r := IteratorParts(exp, list, trimmedOffset, it);
            Trimmed(r.value) && Trimmed(r.key) && Trimmed(r.index)
  {
    var r := IteratorParts(exp, list, trimmedOffset, it);
    var valueEnd := trimmedOffset + |Trim(list[..it.at])|;
    ValueOfParts(exp, list, trimmedOffset, it);
    KeyOfParts(exp, list, trimmedOffset, it);
    IndexOfParts(exp, list, trimmedOffset, it);
    TrimmedValue(list[..it.at], trimmedOffset);
    TrimmedFound(exp, it.keyGroup, valueEnd);
    if it.indexGroup.Some? && it.indexGroup.value != "" {
      TrimmedFound(exp, it.indexGroup.value, EndOr(r.key, valueEnd));
    }
  }

  lemma ValueOfParts(exp: string, list: string, base: int, it: IteratorMatch)
    requires it.at <= |list|
    ensures var r := IteratorParts(exp, list, base, it);
            var v := Trim(list[..it.at]);
            r.value == ValuePiece(v, base)
  {
  }

  lemma TrimmedValue(s: string, offset: int)
    ensures var v := Trim(s);
            Trimmed(ValuePiece(v, offset))
  {
  }

  /** Every alias `parseForExpression` finds is trimmed, non-blank text. */
  lemma {:induction false} TrimmedParts(exp: string, lhs: string)
    ensures var r := LhsPieces(exp, lhs);
            Trimmed(r.value) && Trimmed(r.key) && Trimmed(r.index)
  {
    var list := AliasList(lhs);
    var found := MatchIterator(list);
    if found.Some? {
      TrimmedIterator(exp, list, IndexOf(lhs, list, 0), found.value);
    }
  }

  /** The corrected source piece is the trimmed right-hand side, found where
      the second group starts. */
  lemma SourcePlaced(exp: string, m: AliasMatch)
    requires m.rhsStart <= |exp| && m.rhs == exp[m.rhsStart..]
    requires m.rhsStart == |exp| || !IsJsSpace(exp[m.rhsStart])
    ensures OccursAt(exp, SourcePiece(m).content, m.rhsStart)
  {
    assert m.rhs == [] || m.rhs[0] == exp[m.rhsStart];
    assert LeadingSpaces(m.rhs) == 0;
    OccursAtSlice(exp, m.rhs, m.rhsStart);
    TrimAt(exp, m.rhs, m.rhsStart);
  }

  /** An alias cut from a consistent expression is consistent with the
      template and carries its own text. */
  lemma AliasLocated(text: string, loc: SourceLocation, p: Piece)
    requires Consistent(text, loc) && OccursAt(loc.source, p.content, p.offset)
    ensures var n := Alias(loc, p);
            && Consistent(text, n.loc) && n.loc.source == p.content
            && n.loc.start.offset == loc.start.offset + p.offset
  {
    OccursAtSlice(loc.source, p.content, p.offset);
    InnerRangeConsistent(text, loc, p.offset, |p.content|);
    var k := loc.start.offset;
    SliceOfSlice(text, k, |loc.source|, p.offset, p.offset + |p.content|);
  }

  /** A node that may be absent sits in the template at text equal to its
      content, between offsets `lo` and `hi`. */
  predicate Located(text: string, n: Option<Node>, lo: int, hi: int) {
    n.Some? ==>
      n.value.SimpleExpression? && Consistent(text, n.value.loc) && n.value.loc.source == n.value.content
      && lo <= n.value.loc.start.offset && n.value.loc.end.offset <= hi
  }

  lemma PieceLocated(text: string, loc: SourceLocation, p: Option<Piece>, from: int, bound: int)
    requires Consistent(text, loc) && Placed(loc.source, p, from, bound)
    ensures Located(text, AliasOf(loc, p), loc.start.offset + from, loc.start.offset + bound)
  {
    if p.Some? {
      AliasLocated(text, loc, p.value);
    }
  }

  lemma SourceLocated(text: string, exp: Node, m: AliasMatch)
    requires exp.SimpleExpression? && Consistent(text, exp.loc) && exp.loc.source == exp.content
    requires MatchAlias(exp.content) == Some(m)
    ensures var n := Alias(exp.loc, SourcePiece(m));
            && Located(text, Some(n), exp.loc.start.offset + m.rhsStart, exp.loc.end.offset)
            && n.loc.start.offset == exp.loc.start.offset + m.rhsStart
  {
    SourcePlaced(exp.content, m);
    AliasLocated(text, exp.loc, SourcePiece(m));
  }

  lemma AliasesLocated(text: string, exp: Node, lhs: string)
    requires exp.SimpleExpression? && Consistent(text, exp.loc) && exp.loc.source == exp.content
    requires |lhs| <= |exp.content| && lhs == exp.content[..|lhs|]
    ensures var parts := LhsPieces(exp.content, lhs);
            var lhsEnd := exp.loc.start.offset + |lhs|;
            && Located(text, AliasOf(exp.loc, parts.value), exp.loc.start.offset, lhsEnd)
            && Located(text, AliasOf(exp.loc, parts.key), exp.loc.start.offset, lhsEnd)
            && Located(text, AliasOf(exp.loc, parts.index), exp.loc.start.offset, lhsEnd)
  {
    var parts := LhsPieces(exp.content, lhs);
    LhsPiecesPlaced(exp.content, lhs);
    PieceLocated(text, exp.loc, parts.value, 0, |lhs|);
    PieceLocated(text, exp.loc, parts.key, EndOr(parts.value, 0), |lhs|);
    PieceLocated(text, exp.loc, parts.index, EndOr(parts.key, EndOr(parts.value, 0)), |lhs|);
  }

  /** Every node `parseForExpression` builds points at its own text in the
      template: the aliases inside the left-hand side, the source at the start
      of the right-hand side. */
  lemma {:induction false} ParseForLocations(text: string, exp: Node)
    requires exp.SimpleExpression? && Consistent(text, exp.loc) && exp.loc.source == exp.content
    requires MatchForExpression(exp).Some?
    ensures var r := MatchForExpression(exp).value;
            var m := MatchAlias(exp.content).value;
            var lhsEnd := exp.loc.start.offset + |m.lhs|;
            && Located(text, Some(r.source), exp.loc.start.offset + m.rhsStart, exp.loc.end.offset)
            && r.source.loc.start.offset == exp.loc.start.offset + m.rhsStart
            && Located(text, r.value, exp.loc.start.offset, lhsEnd)
            && Located(text, r.key, exp.loc.start.offset, lhsEnd)
            && Located(text, r.index, exp.loc.start.offset, lhsEnd)
  {
    var m := MatchAlias(exp.content).value;
    SourceLocated(text, exp, m);
    AliasesLocated(text, exp, m.lhs);
  }

  lemma SampleMatch()
    ensures MatchAlias("i in n") == Some(AliasMatch("i", "n", 5))
  {
    var s := "i in n";
    assert LeadingSpaces(s[1..]) == 1;
    assert SeparatorAt(s, 1);
    assert !SeparatorAt(s, 0);
    assert FirstSeparator(s, 0) == Some(1);
    assert LeadingSpaces(s[4..]) == 1;
    assert RhsStart(s, 1) == 5;
    assert s[..1] == "i" && s[5..] == "n";
  }

  lemma SampleIndex()
    ensures IndexOf("i in n", "n", 1) == 3
  {
    var s := "i in n";
    assert OccursAt(s, "n", 3);
    assert s[1..2][0] == ' ' && s[2..3][0] == 'i';
    assert !OccursAt(s, "n", 1) && !OccursAt(s, "n", 2);
    IndexOfFinds(s, "n", 1, 3);
  }

  /** In `i in n` the code looks for the right-hand side `n` from the end of
      `i` and finds the `n` of the keyword, three characters in, instead of
      the source five characters in. */
  lemma SourceInKeyword(loc: SourceLocation)
    ensures var exp := SimpleExpression("i in n", false, false, loc);
            && MatchForExpressionAsWritten(exp).Some?
            && MatchForExpressionAsWritten(exp).value.source.loc.start.offset == loc.start.offset + 3
            && MatchForExpression(exp).value.source.loc.start.offset == loc.start.offset + 5
  {
    SampleMatch();
    SampleIndex();
  }

  // ----- the loop node -----

  /** What `processFor` did: the loop node the element is replaced by (none
      when an error stopped it), the errors reported, and the helpers after
      the loop's opening code was built. */
  datatype ForStep = ForStep(replaced: Option<Node>, errors: seq<CompilerError>, helpers: seq<Helper>)

  /** The key prop `findProp(node, 'key')` finds, as the property the loop's
      code carries: an attribute's text as a static string, a `:key`
      binding's expression. */
  function KeyPropertyOf(props: seq<Prop>): (r: Option<Property>)
    ensures r.Some? <==> FindProp(props, "key", false, false).Some?
    ensures r.Some? ==> r.value.key == Simple("key", true)
  {
    match FindProp(props, "key", false, false)
    case None => None
    case Some(p) =>
      assert PropMatches(p, "key", false, false);
      if p.Attribute? then Some(PropertyOf("key", Simple(p.value.value.content, true)))
      else Some(PropertyOf("key", p.exp.value))
  }

  /** The loop's opening code: a fragment block, keyed when the element
      has a key, whose children are `renderList(source)`; the callback is
      added once the children are transformed. */
  function ForEntry(node: Node, source: Node): Node
    requires node.Element?
  {
    var flag := if FindProp(node.props, "key", false, false).Some? then PatchFlags.KEYED_FRAGMENT else PatchFlags.UNKEYED_FRAGMENT;
    VNodeCall(HelperRef(Fragment), None, Some(CallHelper(RenderList, [source])), Some(PatchFlags.Annotated(flag)),
              None, None, true, true, node.loc)
  }

  /** The helpers the opening code asks for. */
  const EntryHelpers := [RenderList, Fragment, OpenBlock, CreateBlock]

  /** A loop node as `processFor` builds it for `node`: located at the
      directive, over the template's children or the element itself, with
      the opening fragment block of `transformFor` as its code. */
  predicate OpensLoop(node: Node, dir: Prop, loop: Node)
    requires node.Element?
  {
    && loop.For? && loop.loc == dir.loc
    && loop.children == (if IsTemplateNode(node) then node.children else [node])
    && loop.codegenNode.Some? && loop.codegenNode.value.VNodeCall?
    && loop.codegenNode.value.vnodeTag == HelperRef(Fragment)
    && loop.codegenNode.value.isBlock && loop.codegenNode.value.isForBlock
    && loop.codegenNode.value.vnodeChildren == Some(CallHelper(RenderList, [loop.source]))
    && loop.codegenNode.value.patchFlag.Some?
    && ParseInt(loop.codegenNode.value.patchFlag.value)
       == Some(if KeyPropertyOf(node.props).Some? then PatchFlags.KEYED_FRAGMENT as int else PatchFlags.UNKEYED_FRAGMENT as int)
  }

  function ForNode(node: Node, dir: Prop, parsed: ForParse): (loop: Node)
    requires node.Element?
    ensures OpensLoop(node, dir, loop)
    ensures loop.For? && loop.source == parsed.source && loop.valueAlias == parsed.value
            && loop.keyAlias == parsed.key && loop.objectIndexAlias == parsed.index
  {
    var children := if node.tagType == TemplateWrapper then node.children else [node];
    For(parsed.source, parsed.value, parsed.key, parsed.index, children, dir.loc, Some(ForEntry(node, parsed.source)))
  }

  /** `processFor` with the `transformFor` callback: error 29 when the
      directive has no expression, error 30 when the expression has no
      `in` / `of`; otherwise the element is replaced by a loop over its
      children (a `<template>`) or over itself. */
  function ProcessFor(node: Node, dir: Prop, helpers: seq<Helper>, sc: Expressions.Scope): (r: ForStep)
    requires node.Element? && dir.Directive?
    requires dir.exp.Some? ==> dir.exp.value.SimpleExpression?
    ensures dir.exp.None? ==> r == ForStep(None, [CompilerError(ErrorCodes.VForNoExpression, dir.loc.start)], helpers)
    ensures dir.exp.Some? && MatchAlias(dir.exp.value.content).None? ==>
              r == ForStep(None, [CompilerError(ErrorCodes.VForMalformedExpression, dir.loc.start)], helpers)
    ensures r.replaced.Some? <==> dir.exp.Some? && exists i :: 0 <= i < |dir.exp.value.content| && SeparatorAt(dir.exp.value.content, i)
    ensures r.replaced.Some? ==> r.errors == [] && OpensLoop(node, dir, r.replaced.value)
    ensures r.replaced.Some? ==> forall h :: h in r.helpers <==> h in helpers || h in EntryHelpers
    ensures r.replaced.Some? ==>
              var p := ParseForExpression(dir.exp.value, sc).value;
              && r.replaced.value.For? && r.replaced.value.source == p.source && r.replaced.value.valueAlias == p.value
              && r.replaced.value.keyAlias == p.key && r.replaced.value.objectIndexAlias == p.index
  {
    if dir.exp.None? then ForStep(None, [CompilerError(ErrorCodes.VForNoExpression, dir.loc.start)], helpers)
    else
      var parsed := ParseForExpression(dir.exp.value, sc);
      if parsed.None? then ForStep(None, [CompilerError(ErrorCodes.VForMalformedExpression, dir.loc.start)], helpers)
      else ForStep(Some(ForNode(node, dir, parsed.value)), [], AddAll(helpers, EntryHelpers))
  }

  // ----- scope -----

  /** The names a loop brings into scope: the contents of its aliases, in
      the order `processFor` adds them. */
  function AliasNames(loop: Node): (r: seq<string>)
    requires loop.For?
    ensures forall a :: a in [loop.valueAlias, loop.keyAlias, loop.objectIndexAlias] && a.Some? && a.value.SimpleExpression?
              ==> a.value.content in r
    ensures |r| <= 3
  {
    NameOf(loop.valueAlias) + NameOf(loop.keyAlias) + NameOf(loop.objectIndexAlias)
  }

  function NameOf(a: Option<Node>): seq<string> {
    if a.Some? && a.value.SimpleExpression? then [a.value.content] else []
  }

  /** With prefixed identifiers, each alias is in scope while the loop's
      children are transformed, and leaving the loop restores every count. */
  lemma ForScope(ids: map<string, int>, loop: Node, y: string)
    requires loop.For? && forall x :: x in ids ==> ids[x] >= 0
    ensures forall i :: 0 <= i < |AliasNames(loop)| ==> InScope(AddIds(ids, AliasNames(loop)), AliasNames(loop)[i])
    ensures forall i :: 0 <= i < |AliasNames(loop)| ==> AliasNames(loop)[i] in AddIds(ids, AliasNames(loop))
    ensures InScope(RemoveIds(AddIds(ids, AliasNames(loop)), AliasNames(loop)), y) <==> InScope(ids, y)
  {
    var names := AliasNames(loop);
    forall i | 0 <= i < |names|
      ensures InScope(AddIds(ids, names), names[i])
    {
      ScopeOpen(ids, names, i);
    }
    ScopeRestored(ids, names, y);
  }

  // ----- the loop's callback -----

  /** The placeholder a missing alias leaves at position `pos`. */
  function Placeholder(pos: nat): Node {
    if pos == 0 then Simple("_", false) else Simple("__", false)
  }

  /** `createForLoopParams`: the aliases as the callback's parameters, a
      missing value or key before a present one filled by a placeholder, so
      that each alias sits where `renderList` passes its argument (item,
      key, index). */
  function ForLoopParams(value: Option<Node>, key: Option<Node>, index: Option<Node>): (r: seq<Node>)
    ensures |r| == if index.Some? then 3 else if key.Some? then 2 else if value.Some? then 1 else 0
    ensures forall j :: 0 <= j < |r| ==>
              r[j] == (var a := [value, key, index][j]; if a.Some? then a.value else Placeholder(j))
  {
    var withValue := if value.Some? then [value.value] else [];
    var withKey := if key.Some? then withValue + (if value.None? then [Placeholder(0)] else []) + [key.value] else withValue;
    if index.Some? then
      withKey + (if key.None? then (if value.None? then [Placeholder(0)] else []) + [Placeholder(1)] else []) + [index.value]
    else withKey
  }

  /** The slot outlet a loop renders directly: the element itself, or the
      only child of a `<template>`. */
  function SlotOf(node: Node): Option<Node>
    requires node.Element?
  {
    if IsSlotOutlet(node) then Some(node)
    else if IsTemplateNode(node) && |node.children| == 1 && IsSlotOutlet(node.children[0]) then Some(node.children[0])
    else None
  }

  /** What the closing code needs: the loop built from `node`, still with its
      opening code, and, for the child it renders directly, that child's code
      (built while the children were transformed). */
  predicate ReadyLoop(node: Node, loop: Node) {
    && node.Element? && loop.For?
    && loop.children == (if IsTemplateNode(node) then node.children else [node])
    && (SlotOf(node).Some? ==> SlotOf(node).value.codegenNode.Some?)
    && (SlotOf(node).None? && |loop.children| == 1 && loop.children[0].Element? ==>
          loop.children[0].codegenNode.Some? && loop.children[0].codegenNode.value.VNodeCall?)
    && loop.codegenNode.Some? && loop.codegenNode.value.VNodeCall?
    && loop.codegenNode.value.vnodeChildren.Some? && loop.codegenNode.value.vnodeChildren.value.CallExpression?
  }

  /** A loop whose body is not one element renders a fragment per item. */
  predicate NeedsFragment(children: seq<Node>) {
    |children| != 1 || !children[0].Element?
  }

  /** The test as written, `children.length > 1 || children[0].type !==
      ELEMENT`: with no children, reading the first child's type throws. */
  function NeedsFragmentAsWritten(children: seq<Node>): Option<bool> {
    if |children| > 1 then Some(true)
    else if |children| == 0 then None
    else Some(!children[0].Element?)
  }

  /** The code each iteration renders. */
  function ChildBlock(node: Node, loop: Node, helpers: seq<Helper>): (r: Built)
    requires ReadyLoop(node, loop)
    ensures forall h :: h in helpers ==> h in r.helpers
    ensures SlotOf(node).Some? ==>
              r.node == (if IsTemplateNode(node) && KeyPropertyOf(node.props).Some?
                         then InjectProp(SlotOf(node).value.codegenNode.value, KeyPropertyOf(node.props).value).node
                         else SlotOf(node).value.codegenNode.value)
    ensures SlotOf(node).None? && NeedsFragment(loop.children) ==>
              && r.node.VNodeCall? && r.node.vnodeTag == HelperRef(Fragment) && r.node.isBlock && !r.node.isForBlock
              && r.node.vnodeChildren == Some(NodeList(loop.children))
              && (r.node.vnodeProps.Some? <==> KeyPropertyOf(node.props).Some?)
              && (r.node.vnodeProps.Some? ==> r.node.vnodeProps.value == ObjectExpression([KeyPropertyOf(node.props).value], LocStub))
              && r.node.patchFlag.Some? && ParseInt(r.node.patchFlag.value) == Some(PatchFlags.STABLE_FRAGMENT as int)
              && Fragment in r.helpers && OpenBlock in r.helpers && CreateBlock in r.helpers
    ensures SlotOf(node).None? && !NeedsFragment(loop.children) ==>
              var call := loop.children[0].codegenNode.value;
              && r.node.VNodeCall? && r.node.isBlock
              && r.node.vnodeTag == call.vnodeTag && r.node.vnodeProps == call.vnodeProps
              && r.node.vnodeChildren == call.vnodeChildren && r.node.patchFlag == call.patchFlag
              && OpenBlock in r.helpers && CreateBlock in r.helpers
  {
    var key := KeyPropertyOf(node.props);
    var slot := SlotOf(node);
    if slot.Some? then
      if IsTemplateNode(node) && key.Some? then
        var injected := InjectProp(slot.value.codegenNode.value, key.value);
        Built(injected.node, if injected.usesMergeProps then AddOnce(helpers, MergeProps) else helpers)
      else Built(slot.value.codegenNode.value, helpers)
    else if NeedsFragment(loop.children) then
      var props := if key.Some? then Some(ObjectExpression([key.value], LocStub)) else None;
      Built(VNodeCall(HelperRef(Fragment), props, Some(NodeList(loop.children)), Some(PatchFlags.Annotated(PatchFlags.STABLE_FRAGMENT)),
                      None, None, true, false, LocStub),
            AddAll(helpers, [Fragment, OpenBlock, CreateBlock]))
    else
      Built(AsBlock(loop.children[0].codegenNode.value), AddAll(helpers, [OpenBlock, CreateBlock]))
  }

  /** The loop's code with `block` as the body of the `renderList`
      callback, which takes the loop's aliases as parameters. */
  function WithCallback(loop: Node, block: Node): (r: Node)
    requires loop.For? && loop.codegenNode.Some? && loop.codegenNode.value.VNodeCall?
    requires loop.codegenNode.value.vnodeChildren.Some? && loop.codegenNode.value.vnodeChildren.value.CallExpression?
  {
    var call := loop.codegenNode.value;
    var render := call.vnodeChildren.value;
    var params := ForLoopParams(loop.valueAlias, loop.keyAlias, loop.objectIndexAlias);
    var callback := FunctionExpression(Some(NodeList(params)), Some(block), true, false, LocStub);
    VNodeCall(call.vnodeTag, call.vnodeProps, Some(CallExpression(render.callee, render.args + [callback], render.loc)),
              call.patchFlag, call.dynamicProps, call.directives, call.isBlock, call.isForBlock, call.loc)
  }

  /** The closing code of `transformFor`: the loop's fragment, unchanged
      but for the callback appended to the `renderList` call. */
  function ForExit(node: Node, loop: Node, helpers: seq<Helper>): (r: Built)
    requires ReadyLoop(node, loop)
    ensures forall h :: h in helpers ==> h in r.helpers
    ensures var call := loop.codegenNode.value;
            var render := call.vnodeChildren.value;
            && r.node.VNodeCall? && r.node.vnodeTag == call.vnodeTag && r.node.vnodeProps == call.vnodeProps
            && r.node.patchFlag == call.patchFlag && r.node.isBlock == call.isBlock && r.node.isForBlock == call.isForBlock
            && r.node.loc == call.loc
            && r.node.vnodeChildren.Some? && r.node.vnodeChildren.value.CallExpression?
            && r.node.vnodeChildren.value.callee == render.callee
            && |r.node.vnodeChildren.value.args| == |render.args| + 1
            && r.node.vnodeChildren.value.args[..|render.args|] == render.args
            && r.node.vnodeChildren.value.args[|render.args|]
               == FunctionExpression(Some(NodeList(ForLoopParams(loop.valueAlias, loop.keyAlias, loop.objectIndexAlias))),
                                     Some(ChildBlock(node, loop, helpers).node), true, false, LocStub)
  {
    var block := ChildBlock(node, loop, helpers);
    Built(WithCallback(loop, block.node), block.helpers)
  }

  /** The closing code as written: it throws on a `<template v-for>` with no
      children. */
  function ForExitAsWritten(node: Node, loop: Node, helpers: seq<Helper>): Option<Built>
    requires ReadyLoop(node, loop)
  {
    var needFragment := NeedsFragmentAsWritten(loop.children);
    if needFragment.None? then None
    else
      var block := ChildBlock(node, loop, helpers);
      Some(Built(WithCallback(loop, block.node), block.helpers))
  }

  /** The closing code as written fails exactly on a loop with no children,
      which only an empty `<template v-for>` produces; otherwise it is the
      corrected closing code. The corrected code renders such a loop as an
      empty stable fragment per item. */
  lemma ForExitAgrees(node: Node, loop: Node, helpers: seq<Helper>)
    requires ReadyLoop(node, loop)
    ensures ForExitAsWritten(node, loop, helpers).None? <==> |loop.children| == 0
    ensures |loop.children| == 0 ==> IsTemplateNode(node) && node.children == []
    ensures |loop.children| > 0 ==> ForExitAsWritten(node, loop, helpers) == Some(ForExit(node, loop, helpers))
    ensures |loop.children| == 0 ==>
              var block := ChildBlock(node, loop, helpers).node;
              block.VNodeCall? && block.vnodeTag == HelperRef(Fragment) && block.vnodeChildren == Some(NodeList([]))
  {
  }
}
