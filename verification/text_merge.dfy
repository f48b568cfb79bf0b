/** The exit callback of `transformText`: runs of adjacent text children
    (plain text and interpolations) are merged into one compound expression,
    joined by ` + `; then, unless the node keeps a lone text child for the
    runtime's fast path, every text-like child is wrapped in a
    `createTextVNode` call. */
module TransformText {
  import opened Wrappers
  import opened Ast
  import opened AstUtils
  import PatchFlags
  import Traverse

  /** The separator the merge puts between two pieces of text. */
  const Plus := Raw(" + ")

  /** The length of the run of text children `ns` starts with. */
  function TextRun(ns: seq<Node>): (k: nat)
    ensures k <= |ns|
    ensures forall i :: 0 <= i < k ==> IsText(ns[i])
    ensures k < |ns| ==> !IsText(ns[k])
    decreases |ns|
  {
    if |ns| > 0 && IsText(ns[0]) then 1 + TextRun(ns[1..]) else 0
  }

  /** The children of the compound expression a run becomes: the first
      piece, then ` + ` and the next piece for each later one, pushed in
      order. */
  function Joined(ts: seq<Node>): (r: seq<Node>)
    requires |ts| > 0
    ensures |r| == 2 * |ts| - 1
    decreases |ts|
  {
    if |ts| == 1 then [ts[0]] else Joined(ts[..|ts| - 1]) + [Plus, ts[|ts| - 1]]
  }

  /** The pieces of a joined list: every other entry. */
  function Pieces(cs: seq<Node>): (r: seq<Node>)
    decreases |cs|
  {
    if |cs| == 0 then [] else [cs[0]] + (if |cs| >= 2 then Pieces(cs[2..]) else [])
  }

  /** The merge loop: a run of two or more text children becomes one
      compound expression located where its first piece is; every other
      child stays as it is. */
  function MergeTexts(ns: seq<Node>): (r: seq<Node>)
    ensures |r| <= |ns|
    decreases |ns|
  {
    if |ns| == 0 then []
    else
      var k := TextRun(ns);
      if k >= 2 then [CompoundExpression(Joined(ns[..k]), ns[0].loc)] + MergeTexts(ns[k..])
      else [ns[0]] + MergeTexts(ns[1..])
  }

  /** No two text children are next to each other. */
  predicate NoAdjacentText(ns: seq<Node>) {
    forall i :: 0 <= i < |ns| - 1 ==> !(IsText(ns[i]) && IsText(ns[i + 1]))
  }

  /** The list the merge leaves starts with a text child only when the
      input starts with a lone one. */
  lemma {:induction false} MergeTextsHead(ns: seq<Node>)
    requires |ns| > 0
    ensures |MergeTexts(ns)| > 0
    ensures IsText(MergeTexts(ns)[0]) <==> TextRun(ns) == 1
  {
  }

  /** After the merge no two text children touch. */
  lemma {:induction false} MergeTextsSeparates(ns: seq<Node>)
    ensures NoAdjacentText(MergeTexts(ns))
    decreases |ns|
  {
    if |ns| > 0 {
      var k := TextRun(ns);
      var rest := if k >= 2 then ns[k..] else ns[1..];
      MergeTextsSeparates(rest);
      var r := MergeTexts(ns);
      var tail := MergeTexts(rest);
      assert r == [r[0]] + tail;
      if |rest| > 0 {
        MergeTextsHead(rest);
        if IsText(r[0]) {
          assert k == 1;
          assert TextRun(rest) == 0;
        }
      }
      forall i | 0 <= i < |r| - 1
        ensures !(IsText(r[i]) && IsText(r[i + 1]))
      {
        if i > 0 {
          assert r[i] == tail[i - 1] && r[i + 1] == tail[i];
        }
      }
    }
  }

  /** The pieces of a joined run are the run. */
  lemma {:induction false} PiecesOfJoined(ts: seq<Node>)
    requires |ts| > 0
    ensures Pieces(Joined(ts)) == ts
    decreases |ts|
  {
    if |ts| > 1 {
      var init := ts[..|ts| - 1];
      PiecesOfJoined(init);
      PiecesAppend(Joined(init), ts[|ts| - 1]);
      assert init + [ts[|ts| - 1]] == ts;
    }
  }

  /** Pushing ` + ` and a piece onto a joined list adds that piece. */
  lemma {:induction false} PiecesAppend(cs: seq<Node>, t: Node)
    requires |cs| % 2 == 1
    ensures Pieces(cs + [Plus, t]) == Pieces(cs) + [t]
    decreases |cs|
  {
    if |cs| == 1 {
      assert (cs + [Plus, t])[2..] == [t];
    } else {
      PiecesAppend(cs[2..], t);
      assert (cs + [Plus, t])[2..] == cs[2..] + [Plus, t];
    }
  }

  /** Spreading the merged compounds back into their pieces. */
  function Unmerge(ns: seq<Node>): seq<Node>
    decreases |ns|
  {
    if |ns| == 0 then []
    else (if ns[0].CompoundExpression? then Pieces(ns[0].children) else [ns[0]]) + Unmerge(ns[1..])
  }

  /** A suffix of a list without compound expressions has none either. */
  lemma NoCompoundSuffix(ns: seq<Node>, j: nat)
    requires j <= |ns|
    requires forall i :: 0 <= i < |ns| ==> !ns[i].CompoundExpression?
    ensures forall i :: 0 <= i < |ns[j..]| ==> !ns[j..][i].CompoundExpression?
  {
    forall i | 0 <= i < |ns[j..]|
      ensures !ns[j..][i].CompoundExpression?
    {
      assert ns[j..][i] == ns[j + i];
    }
  }

  /** One step of `Unmerge`. */
  lemma UnmergeCons(ns: seq<Node>)
    requires |ns| > 0
    ensures Unmerge(ns) == (if ns[0].CompoundExpression? then Pieces(ns[0].children) else [ns[0]]) + Unmerge(ns[1..])
  {
  }

  /** Merging loses nothing and reorders nothing: spreading the compounds
      back gives the children as they were (which hold no compound
      expression before the merge). */
  lemma {:induction false} MergeTextsUnmerge(ns: seq<Node>)
    requires forall i :: 0 <= i < |ns| ==> !ns[i].CompoundExpression?
    ensures Unmerge(MergeTexts(ns)) == ns
    decreases |ns|
  {
    if |ns| > 0 {
      var k := TextRun(ns);
      var r := MergeTexts(ns);
      if k >= 2 {
        var rest := ns[k..];
        NoCompoundSuffix(ns, k);
        MergeTextsUnmerge(rest);
        var head := CompoundExpression(Joined(ns[..k]), ns[0].loc);
        assert r == [head] + MergeTexts(rest);
        assert r[1..] == MergeTexts(rest);
        UnmergeCons(r);
        PiecesOfJoined(ns[..k]);
        assert ns == ns[..k] + rest;
      } else {
        var rest := ns[1..];
        NoCompoundSuffix(ns, 1);
        MergeTextsUnmerge(rest);
        assert r == [ns[0]] + MergeTexts(rest);
        assert r[1..] == MergeTexts(rest);
        UnmergeCons(r);
        assert ns == [ns[0]] + rest;
      }
    }
  }

  /** A list with no adjacent text is left as it is, so merging twice is
      merging once. */
  lemma {:induction false} MergeTextsNoop(ns: seq<Node>)
    requires NoAdjacentText(ns)
    ensures MergeTexts(ns) == ns
    decreases |ns|
  {
    if |ns| > 0 {
      assert TextRun(ns) <= 1 by {
        if |ns| > 1 && IsText(ns[0]) {
          assert !IsText(ns[1]);
          assert TextRun(ns[1..]) == 0;
        }
      }
      MergeTextsNoop(ns[1..]);
    }
  }

  lemma MergeTextsIdempotent(ns: seq<Node>)
    ensures MergeTexts(MergeTexts(ns)) == MergeTexts(ns)
  {
    MergeTextsSeparates(ns);
    MergeTextsNoop(MergeTexts(ns));
  }

  // ---------------------------------------------------------------------
  // createTextVNode calls
  // ---------------------------------------------------------------------

  /** The children the second loop wraps. */
  predicate TextLike(n: Node) {
    IsText(n) || n.CompoundExpression?
  }

  /** The arguments of the `createTextVNode` call for a child: the child,
      unless it is the text of one space (the helper's default), then the
      `TEXT` patch flag for anything but plain text when not rendering on
      the server. */
  function TextCallArgs(child: Node, ssr: bool): (r: seq<Node>)
    requires TextLike(child)
    ensures child in r <==> !(child.Text? && child.content == " ")
    ensures Raw(PatchFlags.Annotated(PatchFlags.TEXT)) in r <==> !ssr && !child.Text?
  {
    (if !child.Text? || child.content != " " then [child] else [])
    + (if !ssr && !child.Text? then [Raw(PatchFlags.Annotated(PatchFlags.TEXT))] else [])
  }

  /** The child a text-like child is replaced with. */
  function TextCallOf(child: Node, ssr: bool): (r: Node)
    requires TextLike(child)
  {
    TextCall(child, child.loc, Some(CallHelper(CreateText, TextCallArgs(child, ssr))))
  }

  /** The second loop over the merged children. */
  function WrapTexts(ns: seq<Node>, ssr: bool): (r: seq<Node>)
    ensures |r| == |ns|
    ensures forall i :: 0 <= i < |ns| ==> (if TextLike(ns[i]) then r[i] == TextCallOf(ns[i], ssr) else r[i] == ns[i])
    decreases |ns|
  {
    if |ns| == 0 then []
    else [if TextLike(ns[0]) then TextCallOf(ns[0], ssr) else ns[0]] + WrapTexts(ns[1..], ssr)
  }

  /** Whether the second loop is skipped: there was no text at all, or the
      one child left sits in the root or in a plain element. */
  predicate KeepsTexts(node: Node, children: seq<Node>, merged: seq<Node>) {
    (forall i :: 0 <= i < |children| ==> !IsText(children[i]))
    || (|merged| == 1 && (node.Root? || (node.Element? && node.tagType == PlainElement)))
  }

  /** The exit callback on a root, element, `v-for` or branch: the new
      children, and whether the `createTextVNode` helper was asked for. */
  function TransformTextExit(node: Node, ssr: bool): (r: (seq<Node>, bool))
    requires Traverse.HasChildren(node)
    ensures var merged := MergeTexts(node.children);
            && (KeepsTexts(node, node.children, merged) ==> r == (merged, false))
            && (!KeepsTexts(node, node.children, merged) ==> r.1 && r.0 == WrapTexts(merged, ssr))
  {
    var merged := MergeTexts(node.children);
    if KeepsTexts(node, node.children, merged) then (merged, false)
    else (WrapTexts(merged, ssr), true)
  }

  /** Once wrapped, no child is text-like, and unwrapping the calls gives
      back the merged children. */
  lemma WrappedTexts(ns: seq<Node>, ssr: bool)
    ensures forall i :: 0 <= i < |ns| ==> !TextLike(WrapTexts(ns, ssr)[i])
    ensures forall i :: 0 <= i < |ns| ==>
              ns[i] == (var c := WrapTexts(ns, ssr)[i]; if c.TextCall? && TextLike(ns[i]) then c.contentNode else c)
  {
  }

  /** A plain element whose children are one run of text keeps one
      compound child and no call, as the runtime sets its text directly. */
  lemma SingleRunKept(node: Node)
    requires node.Element? && node.tagType == PlainElement
    requires |node.children| >= 2 && forall i :: 0 <= i < |node.children| ==> IsText(node.children[i])
    ensures TransformTextExit(node, false).0 == [CompoundExpression(Joined(node.children), node.children[0].loc)]
    ensures !TransformTextExit(node, false).1
  {
    assert TextRun(node.children) == |node.children| by {
      TextRunAll(node.children);
    }
    assert node.children[|node.children|..] == [];
    assert node.children[..|node.children|] == node.children;
  }

  lemma {:induction false} TextRunAll(ns: seq<Node>)
    requires forall i :: 0 <= i < |ns| ==> IsText(ns[i])
    ensures TextRun(ns) == |ns|
    decreases |ns|
  {
    if |ns| > 0 {
      TextRunAll(ns[1..]);
    }
  }
}
