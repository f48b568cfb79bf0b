/** How the parser files the nodes it reads into a children list: comments
    are dropped, touching text runs are joined, and whitespace is condensed
    once the list is complete (the `condense` whitespace mode). */
module Whitespace {
  import opened Wrappers
  import opened Strings
  import opened Positions
  import opened Ast

  /** The content of every text node of a list, in order. */
  function TextOf(ns: seq<Node>): string {
    if |ns| == 0 then ""
    else (if ns[|ns| - 1].Text? then TextOf(ns[..|ns| - 1]) + ns[|ns| - 1].content else TextOf(ns[..|ns| - 1]))
  }

  /** The nodes of a list that are not text, in order. */
  function NonText(ns: seq<Node>): seq<Node> {
    if |ns| == 0 then []
    else NonText(ns[..|ns| - 1]) + (if ns[|ns| - 1].Text? then [] else [ns[|ns| - 1]])
  }

  predicate NoComments(ns: seq<Node>) {
    forall i :: 0 <= i < |ns| ==> !ns[i].Comment?
  }

  /** A text node that starts exactly where the last node, itself text,
      ends. */
  predicate Joins(nodes: seq<Node>, node: Node) {
    node.Text? && |nodes| > 0 && nodes[|nodes| - 1].Text?
    && nodes[|nodes| - 1].loc.end.offset == node.loc.start.offset
  }

  /** `pushNode`: comments are not kept; a text node that starts exactly
      where the previous text node ends is merged into it (as happens for
      `a < b`, read as two pieces); anything else is appended. */
  function PushNode(nodes: seq<Node>, node: Node): (r: seq<Node>)
    ensures NoComments(nodes) ==> NoComments(r)
    ensures TextOf(r) == TextOf(nodes) + (if node.Text? then node.content else "")
    ensures NonText(r) == NonText(nodes) + (if node.Text? || node.Comment? then [] else [node])
    ensures |nodes| <= |r| <= |nodes| + 1
    ensures |nodes| > 0 ==> r[..|nodes| - 1] == nodes[..|nodes| - 1]
    ensures node.Comment? ==> r == nodes
    ensures Joins(nodes, node) ==>
      var prev := nodes[|nodes| - 1];
      r == nodes[..|nodes| - 1]
           + [Text(prev.content + node.content, SourceLocation(prev.loc.start, node.loc.end, prev.loc.source + node.loc.source))]
    ensures !node.Comment? && !Joins(nodes, node) ==> r == nodes + [node]
  {
    if node.Comment? then nodes
    else if Joins(nodes, node) then
      var prev := nodes[|nodes| - 1];
      var merged := Text(prev.content + node.content,
                         SourceLocation(prev.loc.start, node.loc.end, prev.loc.source + node.loc.source));
      var r := nodes[..|nodes| - 1] + [merged];
      assert r[..|r| - 1] == nodes[..|nodes| - 1];
      r
    else
      var r := nodes + [node];
      assert r[..|r| - 1] == nodes;
      r
  }

  /** Every character is one of the HTML whitespace characters `[\t\r\n\f ]`. */
  predicate AllHtmlSpace(s: string) {
    forall i :: 0 <= i < |s| ==> IsHtmlSpace(s[i])
  }

  /** The text has no whitespace other than single spaces. */
  predicate Condensed(s: string) {
    (forall i :: 0 <= i < |s| ==> IsHtmlSpace(s[i]) ==> s[i] == ' ')
    && (forall i :: 0 <= i < |s| - 1 ==> !(s[i] == ' ' && s[i + 1] == ' '))
  }

  /** The length of the whitespace run `s` starts with. */
  function SpaceRun(s: string): (k: nat)
    ensures k <= |s|
    ensures forall i :: 0 <= i < k ==> IsHtmlSpace(s[i])
    ensures k < |s| ==> !IsHtmlSpace(s[k])
  {
    if |s| > 0 && IsHtmlSpace(s[0]) then 1 + SpaceRun(s[1..]) else 0
  }

  /** `replace(/[\t\r\n\f ]+/g, ' ')`: every whitespace run becomes one
      space. */
  function Collapse(s: string): (r: string)
    ensures Condensed(r)
    ensures |r| <= |s|
    ensures |s| > 0 ==> |r| > 0
    ensures |r| > 0 && |s| > 0 ==> (r[0] == ' ' <==> IsHtmlSpace(s[0]))
    decreases |s|
  {
    if |s| == 0 then ""
    else if IsHtmlSpace(s[0]) then
      var k := SpaceRun(s);
      var rest := Collapse(s[k..]);
      assert k < |s| ==> !IsHtmlSpace(s[k..][0]);
      var r := [' '] + rest;
      assert forall i :: 1 <= i < |r| ==> r[i] == rest[i - 1];
      r
    else
      var rest := Collapse(s[1..]);
      var r := [s[0]] + rest;
      assert forall i :: 1 <= i < |r| ==> r[i] == rest[i - 1];
      r
  }

  /** The characters of a text that are not whitespace, in order. */
  function Visible(s: string): string {
    if |s| == 0 then ""
    else (if IsHtmlSpace(s[0]) then "" else [s[0]]) + Visible(s[1..])
  }

  lemma {:induction false} VisibleOfSpaceRun(s: string, k: nat)
    requires k <= |s| && forall i :: 0 <= i < k ==> IsHtmlSpace(s[i])
    ensures Visible(s) == Visible(s[k..])
    decreases k
  {
    if k > 0 {
      VisibleOfSpaceRun(s[1..], k - 1);
      assert s[1..][k - 1..] == s[k..];
    }
  }

  /** Collapsing keeps every visible character, in order. */
  lemma {:induction false} CollapseKeepsVisible(s: string)
    ensures Visible(Collapse(s)) == Visible(s)
    decreases |s|
  {
    if |s| > 0 {
      if IsHtmlSpace(s[0]) {
        var k := SpaceRun(s);
        CollapseKeepsVisible(s[k..]);
        VisibleOfSpaceRun(s, k);
        assert ([' '] + Collapse(s[k..]))[1..] == Collapse(s[k..]);
      } else {
        CollapseKeepsVisible(s[1..]);
        assert ([s[0]] + Collapse(s[1..]))[1..] == Collapse(s[1..]);
      }
    }
  }

  /** Text that is already condensed is left alone, so condensing twice is
      condensing once. */
  lemma {:induction false} CollapseCondensed(s: string)
    requires Condensed(s)
    ensures Collapse(s) == s
    decreases |s|
  {
    if |s| > 0 {
      assert Condensed(s[1..]);
      CollapseCondensed(s[1..]);
      if IsHtmlSpace(s[0]) {
        assert s[0] == ' ';
        assert |s| > 1 ==> !IsHtmlSpace(s[1]);
      }
    }
  }

  /** Whether a whitespace-only text node goes: it is first or last, touches
      a comment, or separates two elements and holds a line break. `prev`
      is the slot before it as the pass has left it, so a slot already
      emptied counts as missing. */
  predicate DropsWhitespace(prev: Option<Node>, next: Option<Node>, content: string) {
    prev.None? || next.None?
    || prev.value.Comment? || next.value.Comment?
    || (prev.value.Element? && next.value.Element? && ('\r' in content || '\n' in content))
  }

  /** One step of the condensing pass over the slot `i`. */
  function CondenseSlot(slots: seq<Option<Node>>, i: nat): (r: Option<Node>)
    requires i < |slots|
  {
    match slots[i]
    case None => None
    case Some(node) =>
      if !node.Text? then slots[i]
      else if AllHtmlSpace(node.content) then
        var prev := if i > 0 then slots[i - 1] else None;
        var next := if i + 1 < |slots| then slots[i + 1] else None;
        if DropsWhitespace(prev, next, node.content) then None
        else Some(Text(" ", node.loc))
      else Some(Text(Collapse(node.content), node.loc))
  }

  /** The condensing pass from slot `i` on, each step seeing the slots
      before it as already rewritten. */
  function CondenseFrom(slots: seq<Option<Node>>, i: nat): (r: seq<Option<Node>>)
    requires i <= |slots|
    ensures |r| == |slots|
    ensures r[..i] == slots[..i]
    ensures forall j :: i <= j < |r| && r[j].Some? ==> slots[j].Some? && (r[j].value.Text? <==> slots[j].value.Text?)
    ensures forall j :: i <= j < |r| && r[j].Some? && !r[j].value.Text? ==> r[j] == slots[j]
    ensures forall j :: i <= j < |r| && slots[j].Some? && !slots[j].value.Text? ==> r[j] == slots[j]
    ensures forall j :: i <= j < |r| && r[j].Some? && r[j].value.Text? ==> Condensed(r[j].value.content)
    ensures forall j :: i <= j < |r| && r[j].Some? && r[j].value.Text? ==> r[j].value.loc == slots[j].value.loc
    decreases |slots| - i
  {
    if i == |slots| then slots
    else CondenseFrom(slots[i := CondenseSlot(slots, i)], i + 1)
  }

  /** What the condensing pass leaves in slot `j`, said of the whole pass:
      `before` are the slots as read and `after` as the pass leaves them.
      A whitespace-only text node is dropped exactly when
      `DropsWhitespace` holds of the slot before it as rewritten and the
      slot after it as read, and otherwise becomes one space; any other
      text is collapsed; every other slot is kept. */
  predicate CondensedSlot(before: seq<Option<Node>>, after: seq<Option<Node>>, j: nat)
    requires |before| == |after| && j < |after|
  {
    match before[j]
    case None => after[j].None?
    case Some(node) =>
      if !node.Text? then after[j] == before[j]
      else if AllHtmlSpace(node.content) then
        var prev := if j > 0 then after[j - 1] else None;
        var next := if j + 1 < |before| then before[j + 1] else None;
        after[j] == (if DropsWhitespace(prev, next, node.content) then None else Some(Text(" ", node.loc)))
      else after[j] == Some(Text(Collapse(node.content), node.loc))
  }

  /** Every slot the pass visits is rewritten as `CondensedSlot` says. */
  lemma {:induction false} CondenseFromSlots(slots: seq<Option<Node>>, i: nat)
    requires i <= |slots|
    ensures forall j :: i <= j < |slots| ==> CondensedSlot(slots, CondenseFrom(slots, i), j)
    decreases |slots| - i
  {
    if i < |slots| {
      var s1 := slots[i := CondenseSlot(slots, i)];
      var r := CondenseFrom(s1, i + 1);
      CondenseFromSlots(s1, i + 1);
      assert r[..i + 1] == s1[..i + 1];
      assert r[i] == s1[i];
      assert i > 0 ==> r[i - 1] == slots[i - 1];
      forall j | i + 1 <= j < |slots|
        ensures CondensedSlot(slots, r, j)
      {
        assert CondensedSlot(s1, r, j);
        assert s1[j] == slots[j];
        assert j + 1 < |slots| ==> s1[j + 1] == slots[j + 1];
      }
    }
  }

  /** `CondensedSlot` fixes the outcome: two results that both satisfy it
      for every slot agree on every slot. */
  lemma {:induction false} CondensedSlotsAgree(before: seq<Option<Node>>, a: seq<Option<Node>>, b: seq<Option<Node>>, k: nat)
    requires |a| == |before| && |b| == |before| && k <= |before|
    requires forall j :: 0 <= j < |before| ==> CondensedSlot(before, a, j)
    requires forall j :: 0 <= j < |before| ==> CondensedSlot(before, b, j)
    ensures a[..k] == b[..k]
    decreases k
  {
    if k > 0 {
      CondensedSlotsAgree(before, a, b, k - 1);
      assert k - 1 > 0 ==> a[k - 2] == b[k - 2] by {
        if k - 1 > 0 {
          assert a[..k - 1][k - 2] == b[..k - 1][k - 2];
        }
      }
      assert CondensedSlot(before, a, k - 1) && CondensedSlot(before, b, k - 1);
      assert a[k - 1] == b[k - 1];
      assert a[..k] == a[..k - 1] + [a[k - 1]];
      assert b[..k] == b[..k - 1] + [b[k - 1]];
    }
  }

  /** The nodes present in a list of slots, in order. */
  function Present(slots: seq<Option<Node>>): (r: seq<Node>)
    ensures |r| <= |slots|
  {
    if |slots| == 0 then []
    else Present(slots[..|slots| - 1]) + (if slots[|slots| - 1].Some? then [slots[|slots| - 1].value] else [])
  }

  function AsSlots(ns: seq<Node>): (r: seq<Option<Node>>)
    ensures |r| == |ns|
    ensures forall i :: 0 <= i < |ns| ==> r[i] == Some(ns[i])
  {
    seq(|ns|, i requires 0 <= i < |ns| => Some(ns[i]))
  }

  /** The whitespace pass at the end of `parseChildren`, for a mode other
      than raw text and outside `<pre>`. */
  function Condense(nodes: seq<Node>): (r: seq<Node>)
    ensures |r| <= |nodes|
    ensures forall i :: 0 <= i < |r| && r[i].Text? ==> Condensed(r[i].content)
    ensures NonText(r) == NonText(nodes)
  {
    var slots := CondenseFrom(AsSlots(nodes), 0);
    PresentFacts(slots, nodes);
    Present(slots)
  }

  /** The condensing pass is the one rewriting of the slots that agrees
      with `CondensedSlot` at every slot: the result of `Condense` is the
      present nodes of any such rewriting. */
  lemma CondenseCharacterised(nodes: seq<Node>, after: seq<Option<Node>>)
    requires |after| == |nodes|
    requires forall j :: 0 <= j < |nodes| ==> CondensedSlot(AsSlots(nodes), after, j)
    ensures Condense(nodes) == Present(after)
  {
    var slots := CondenseFrom(AsSlots(nodes), 0);
    CondenseFromSlots(AsSlots(nodes), 0);
    CondensedSlotsAgree(AsSlots(nodes), slots, after, |nodes|);
    assert slots == slots[..|nodes|];
    assert after == after[..|nodes|];
  }

  lemma {:induction false} PresentFacts(slots: seq<Option<Node>>, nodes: seq<Node>)
    requires |slots| == |nodes|
    requires forall j :: 0 <= j < |slots| && slots[j].Some? ==> (slots[j].value.Text? <==> nodes[j].Text?)
    requires forall j :: 0 <= j < |slots| && !nodes[j].Text? ==> slots[j] == Some(nodes[j])
    requires forall j :: 0 <= j < |slots| && slots[j].Some? && slots[j].value.Text? ==> Condensed(slots[j].value.content)
    ensures forall i :: 0 <= i < |Present(slots)| && Present(slots)[i].Text? ==> Condensed(Present(slots)[i].content)
    ensures NonText(Present(slots)) == NonText(nodes)
  {
    if |slots| > 0 {
      var n := |slots| - 1;
      PresentFacts(slots[..n], nodes[..n]);
      var p := Present(slots[..n]);
      var tail := if slots[n].Some? then [slots[n].value] else [];
      assert Present(slots) == p + tail;
      NonTextAppend(p, tail);
      assert NonText(nodes) == NonText(nodes[..n]) + (if nodes[n].Text? then [] else [nodes[n]]);
    }
  }

  lemma {:induction false} NonTextAppend(a: seq<Node>, b: seq<Node>)
    requires |b| <= 1
    ensures NonText(a + b) == NonText(a) + NonText(b)
  {
    if |b| == 1 {
      assert (a + b)[..|a + b| - 1] == a;
      assert b[..0] == [];
    } else {
      assert a + b == a;
    }
  }

  /** `replace(/^\r?\n/, '')`: the line break right after `<pre>` is not
      content, as section 4.4.3 of the HTML Living Standard says. */
  function StripLeadingNewline(s: string): (r: string)
    ensures StartsWith(s, "\r\n") ==> r == s[2..]
    ensures !StartsWith(s, "\r\n") && StartsWith(s, "\n") ==> r == s[1..]
    ensures !StartsWith(s, "\r\n") && !StartsWith(s, "\n") ==> r == s
  {
    if StartsWith(s, "\r\n") then s[2..]
    else if StartsWith(s, "\n") then s[1..]
    else s
  }

  /** The whitespace handling at the end of `parseChildren`: nothing for raw
      text; outside `<pre>` the condensing pass; directly inside a pre tag,
      the leading line break of a first text child. */
  function FinishChildren(nodes: seq<Node>, mode: TextMode, inPre: bool, parentIsPre: bool): (r: seq<Node>)
    ensures mode == RawText ==> r == nodes
    ensures mode != RawText && !inPre ==> forall i :: 0 <= i < |r| && r[i].Text? ==> Condensed(r[i].content)
    ensures NonText(r) == NonText(nodes)
    ensures inPre ==> |r| == |nodes|
  {
    if mode == RawText then nodes
    else if !inPre then Condense(nodes)
    else if parentIsPre && |nodes| > 0 && nodes[0].Text? then
      var r := nodes[0 := Text(StripLeadingNewline(nodes[0].content), nodes[0].loc)];
      NonTextSameKinds(nodes, r);
      r
    else nodes
  }

  lemma {:induction false} NonTextSameKinds(a: seq<Node>, b: seq<Node>)
    requires |a| == |b|
    requires forall i :: 0 <= i < |a| ==> (a[i].Text? <==> b[i].Text?) && (!a[i].Text? ==> a[i] == b[i])
    ensures NonText(a) == NonText(b)
  {
    if |a| > 0 {
      NonTextSameKinds(a[..|a| - 1], b[..|b| - 1]);
    }
  }

  // ---------------------------------------------------------------------
  // Children lie in document order
  // ---------------------------------------------------------------------

  /** The nodes the parser produces, each of which carries a location. */
  predicate Located(n: Node) {
    n.Element? || n.Text? || n.Comment? || n.Interpolation?
  }

  /** A list of nodes read from `text` between offsets `from` and `to`:
      every location agrees with the text, and the nodes follow one another
      inside that range without overlapping. */
  predicate Laid(text: string, ns: seq<Node>, from: int, to: int)
    decreases |ns|
  {
    |ns| == 0
    || (var last := ns[|ns| - 1];
        Located(last) && Consistent(text, last.loc) && from <= last.loc.start.offset && last.loc.end.offset <= to
        && Laid(text, ns[..|ns| - 1], from, last.loc.start.offset))
  }

  lemma LaidWiden(text: string, ns: seq<Node>, from: int, to: int, to': int)
    requires Laid(text, ns, from, to) && to <= to'
    ensures Laid(text, ns, from, to')
  {
  }

  /** Filing a node read after the others keeps the list in order; a merged
      text node spans both pieces. */
  lemma PushNodeLaid(text: string, nodes: seq<Node>, node: Node, from: int, to: int)
    requires Located(node) && Consistent(text, node.loc) && node.loc.end.offset <= to
    requires from <= node.loc.start.offset
    requires Laid(text, nodes, from, node.loc.start.offset)
    ensures Laid(text, PushNode(nodes, node), from, to)
  {
    var r := PushNode(nodes, node);
    if node.Comment? {
      LaidWiden(text, nodes, from, node.loc.start.offset, to);
    } else if node.Text? && |nodes| > 0 && nodes[|nodes| - 1].Text?
       && nodes[|nodes| - 1].loc.end.offset == node.loc.start.offset {
      var prev := nodes[|nodes| - 1];
      MergedConsistent(text, prev, node);
      assert r[..|r| - 1] == nodes[..|nodes| - 1];
    } else {
      assert r[..|r| - 1] == nodes;
    }
  }

  /** Two touching pieces of text read as one span of the template. */
  lemma MergedConsistent(text: string, prev: Node, node: Node)
    requires prev.Text? && node.Text? && Located(prev) && Located(node)
    requires Consistent(text, prev.loc) && Consistent(text, node.loc)
    requires prev.loc.end.offset == node.loc.start.offset
    ensures Consistent(text, SourceLocation(prev.loc.start, node.loc.end, prev.loc.source + node.loc.source))
  {
    assert text[prev.loc.start.offset..node.loc.end.offset]
        == text[prev.loc.start.offset..prev.loc.end.offset] + text[node.loc.start.offset..node.loc.end.offset];
  }

  /** `pushNode` applied to each of `more` in turn. */
  function PushAll(nodes: seq<Node>, more: seq<Node>): (r: seq<Node>)
    ensures NoComments(nodes) ==> NoComments(r)
    decreases |more|
  {
    if |more| == 0 then nodes
    else PushNode(PushAll(nodes, more[..|more| - 1]), more[|more| - 1])
  }

  /** Pushing a batch keeps the text of both lists, in order. */
  lemma {:induction false} PushAllText(nodes: seq<Node>, more: seq<Node>)
    ensures TextOf(PushAll(nodes, more)) == TextOf(nodes) + TextOf(more)
    decreases |more|
  {
    if |more| > 0 {
      var init, last := more[..|more| - 1], more[|more| - 1];
      PushAllText(nodes, init);
    }
  }

  lemma {:induction false} PushAllLaid(text: string, nodes: seq<Node>, more: seq<Node>, from: int, mid: int, to: int)
    requires from <= mid <= to && Laid(text, nodes, from, mid) && Laid(text, more, mid, to)
    ensures Laid(text, PushAll(nodes, more), from, to)
    decreases |more|
  {
    if |more| > 0 {
      var n := |more| - 1;
      var node := more[n];
      PushAllLaid(text, nodes, more[..n], from, mid, node.loc.start.offset);
      PushNodeLaid(text, PushAll(nodes, more[..n]), node, from, to);
    } else {
      LaidWiden(text, nodes, from, mid, to);
    }
  }

  /** A list holds no comment exactly when its non-text part holds none. */
  lemma {:induction false} NoCommentsNonText(ns: seq<Node>)
    ensures NoComments(ns) <==> NoComments(NonText(ns))
  {
    if |ns| > 0 {
      var n := |ns| - 1;
      var p := ns[..n];
      NoCommentsNonText(p);
      var tail := if ns[n].Text? then [] else [ns[n]];
      assert NonText(ns) == NonText(p) + tail;
      assert NoComments(ns) <==> NoComments(p) && !ns[n].Comment? by {
        assert forall i :: 0 <= i < n ==> p[i] == ns[i];
      }
      NoCommentsAppend(NonText(p), tail);
      assert NoComments(tail) <==> !ns[n].Comment? by {
        if !ns[n].Text? {
          assert tail[0] == ns[n];
        }
      }
    }
  }

  lemma NoCommentsAppend(a: seq<Node>, b: seq<Node>)
    ensures NoComments(a + b) <==> NoComments(a) && NoComments(b)
  {
    assert forall i :: 0 <= i < |a| ==> (a + b)[i] == a[i];
    assert forall i :: 0 <= i < |b| ==> (a + b)[|a| + i] == b[i];
  }

  /** `Laid` for a list of slots, where the empty ones are skipped. */
  predicate SlotsLaid(text: string, slots: seq<Option<Node>>, from: int, to: int)
    decreases |slots|
  {
    |slots| == 0
    || (var last := slots[|slots| - 1];
        if last.None? then SlotsLaid(text, slots[..|slots| - 1], from, to)
        else
          Located(last.value) && Consistent(text, last.value.loc)
          && from <= last.value.loc.start.offset && last.value.loc.end.offset <= to
          && SlotsLaid(text, slots[..|slots| - 1], from, last.value.loc.start.offset))
  }

  lemma {:induction false} SlotsLaidWiden(text: string, slots: seq<Option<Node>>, from: int, to: int, to': int)
    requires SlotsLaid(text, slots, from, to) && to <= to'
    ensures SlotsLaid(text, slots, from, to')
    decreases |slots|
  {
    if |slots| > 0 && slots[|slots| - 1].None? {
      SlotsLaidWiden(text, slots[..|slots| - 1], from, to, to');
    }
  }

  /** Slots that each hold their node's location, or nothing, lie like the
      nodes. */
  lemma {:induction false} SlotsOfLaid(text: string, slots: seq<Option<Node>>, nodes: seq<Node>, from: int, to: int)
    requires |slots| == |nodes| && from <= to && Laid(text, nodes, from, to)
    requires forall j :: 0 <= j < |slots| && slots[j].Some? ==>
               Located(slots[j].value) && Located(nodes[j]) && slots[j].value.loc == nodes[j].loc
    ensures SlotsLaid(text, slots, from, to)
    decreases |slots|
  {
    if |slots| > 0 {
      var n := |slots| - 1;
      var mid := nodes[n].loc.start.offset;
      SlotsOfLaid(text, slots[..n], nodes[..n], from, mid);
      if slots[n].None? {
        SlotsLaidWiden(text, slots[..n], from, mid, to);
      }
    }
  }

  lemma {:induction false} PresentLaid(text: string, slots: seq<Option<Node>>, from: int, to: int)
    requires SlotsLaid(text, slots, from, to)
    ensures Laid(text, Present(slots), from, to)
    decreases |slots|
  {
    if |slots| > 0 {
      var n := |slots| - 1;
      if slots[n].Some? {
        PresentLaid(text, slots[..n], from, slots[n].value.loc.start.offset);
        var r := Present(slots);
        assert r[..|r| - 1] == Present(slots[..n]);
      } else {
        PresentLaid(text, slots[..n], from, to);
        assert Present(slots) == Present(slots[..n]);
      }
    }
  }

  /** Condensing drops and rewrites text but moves no location. */
  lemma CondenseLaid(text: string, nodes: seq<Node>, from: int, to: int)
    requires from <= to && Laid(text, nodes, from, to)
    ensures Laid(text, Condense(nodes), from, to)
  {
    var slots := CondenseFrom(AsSlots(nodes), 0);
    LaidLocated(text, nodes, from, to);
    SlotsOfLaid(text, slots, nodes, from, to);
    PresentLaid(text, slots, from, to);
  }

  lemma {:induction false} LaidLocated(text: string, ns: seq<Node>, from: int, to: int)
    requires Laid(text, ns, from, to)
    ensures forall i :: 0 <= i < |ns| ==> Located(ns[i])
    decreases |ns|
  {
    if |ns| > 0 {
      LaidLocated(text, ns[..|ns| - 1], from, ns[|ns| - 1].loc.start.offset);
    }
  }

  /** The whitespace handling at the end of a children list keeps the list
      in order and adds no comment. */
  lemma FinishChildrenLaid(text: string, nodes: seq<Node>, mode: TextMode, inPre: bool, parentIsPre: bool, from: int, to: int)
    requires from <= to && Laid(text, nodes, from, to)
    ensures Laid(text, FinishChildren(nodes, mode, inPre, parentIsPre), from, to)
    ensures NoComments(nodes) ==> NoComments(FinishChildren(nodes, mode, inPre, parentIsPre))
  {
    var r := FinishChildren(nodes, mode, inPre, parentIsPre);
    if mode != RawText && !inPre {
      CondenseLaid(text, nodes, from, to);
    } else if mode != RawText && parentIsPre && |nodes| > 0 && nodes[0].Text? {
      StripLaid(text, nodes, from, to);
    }
    NoCommentsNonText(nodes);
    NoCommentsNonText(r);
  }

  /** Rewriting the first text node's content leaves its place alone. */
  lemma StripLaid(text: string, nodes: seq<Node>, from: int, to: int)
    requires from <= to && Laid(text, nodes, from, to) && |nodes| > 0 && nodes[0].Text?
    ensures Laid(text, nodes[0 := Text(StripLeadingNewline(nodes[0].content), nodes[0].loc)], from, to)
  {
    var r := nodes[0 := Text(StripLeadingNewline(nodes[0].content), nodes[0].loc)];
    LaidLocated(text, nodes, from, to);
    SlotsOfLaid(text, AsSlots(r), nodes, from, to);
    PresentLaid(text, AsSlots(r), from, to);
    PresentAll(r);
  }

  lemma {:induction false} PresentAll(ns: seq<Node>)
    ensures Present(AsSlots(ns)) == ns
    decreases |ns|
  {
    if |ns| > 0 {
      var n := |ns| - 1;
      PresentAll(ns[..n]);
      assert AsSlots(ns)[..n] == AsSlots(ns[..n]);
    }
  }
}
