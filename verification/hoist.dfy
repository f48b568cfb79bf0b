/** Static hoisting (`hoistStatic`): a plain element whose whole subtree can
    never change is lifted out of the render function into a numbered
    `_hoisted_N` constant; an element that does change may still have its
    props lifted when its patch flag says they are fixed; a static
    `createTextVNode` call is lifted too. */
module StaticHoist {
  import opened Wrappers
  import opened Strings
  import opened Ast
  import opened AstUtils
  import opened TransformContext
  import PatchFlags
  import Traverse

  // ---------------------------------------------------------------------
  // getPatchFlag, hasDynamicKeyOrRef, hasCachedProps
  // ---------------------------------------------------------------------

  /** `getPatchFlag`: the number a vnode call's flag text starts with.
      `None` stands both for a missing (or empty) flag and for `NaN`. */
  function PatchFlagOf(call: Node): (r: Option<int>)
    requires call.VNodeCall?
    ensures call.patchFlag.None? ==> r.None?
    ensures call.patchFlag.Some? ==> r == ParseInt(call.patchFlag.value)
  {
    if call.patchFlag.None? then None else ParseInt(call.patchFlag.value)
  }

  /** `!flag`: no flag, a flag reading as zero, or one that does not read as
      a number. */
  predicate NoFlag(call: Node)
    requires call.VNodeCall?
  {
    PatchFlagOf(call).None? || PatchFlagOf(call) == Some(0)
  }

  /** The flag a hoisted call carries (`-1 /* HOISTED */ + ''`). */
  const HoistedFlag := "-1"

  /** Every flag the transforms print reads back as its value, and it counts
      as no flag exactly when it is zero. */
  lemma PatchFlagReadsBack(call: Node, f: PatchFlags.Flags)
    requires call.VNodeCall?
    requires call.patchFlag == Some(PatchFlags.Plain(f)) || call.patchFlag == Some(PatchFlags.Annotated(f))
    ensures PatchFlagOf(call) == Some(f as int)
    ensures NoFlag(call) <==> f == 0
  {
    if call.patchFlag == Some(PatchFlags.Plain(f)) {
      assert ParseInt(PatchFlags.Plain(f)) == Some(f as int);
    } else {
      assert ParseInt(PatchFlags.Annotated(f)) == Some(f as int);
    }
  }

  /** A hoisted call reads back as `-1`, so it never again counts as
      flag-free. */
  lemma HoistedFlagReadsBack(call: Node)
    requires call.VNodeCall? && call.patchFlag == Some(HoistedFlag)
    ensures PatchFlagOf(call) == Some(-1) && !NoFlag(call)
  {
    ParseIntOfIntToString(-1, "");
    assert IntToString(-1) + "" == HoistedFlag;
  }

  /** `hasDynamicKeyOrRef`: a bound `key` or `ref`. */
  predicate HasDynamicKeyOrRef(props: seq<Prop>) {
    FindProp(props, "key", true, false).Some? || FindProp(props, "ref", true, false).Some?
  }

  /** A prop value that is a cached handler, or an array of merged handlers
      one of which is cached. */
  predicate CachedValue(v: Node) {
    v.CacheExpression? || (v.ArrayExpression? && exists j :: 0 <= j < |v.elements| && v.elements[j].CacheExpression?)
  }

  /** `hasCachedProps`: the call's props are an object literal with a cached
      value. */
  predicate HasCachedProps(call: Node)
    requires call.VNodeCall?
  {
    call.vnodeProps.Some? && call.vnodeProps.value.ObjectExpression?
    && exists i :: 0 <= i < |call.vnodeProps.value.properties| && CachedValue(call.vnodeProps.value.properties[i].value)
  }

  // ---------------------------------------------------------------------
  // isStaticNode
  // ---------------------------------------------------------------------

  /** The test an element's own code must pass to be static: a vnode call
      with no flag, no bound key or ref, and no cached props. */
  predicate StaticSelf(n: Node)
    requires n.Element?
  {
    n.tagType == PlainElement && n.codegenNode.Some? && n.codegenNode.value.VNodeCall?
    && NoFlag(n.codegenNode.value) && !HasDynamicKeyOrRef(n.props) && !HasCachedProps(n.codegenNode.value)
  }

  /** `isStaticNode`: the node renders the same every time. Text and comments
      are static; an expression is static when it is constant; an element is
      static when its own code is and so is every child; structural nodes
      never are. The memo table only saves work and is not modelled. */
  function IsStaticNode(n: Node): (r: bool)
    ensures n.Text? || n.Comment? ==> r
    ensures n.If? || n.IfBranch? || n.For? || n.Root? ==> !r
    ensures n.Element? && r ==> StaticSelf(n)
    decreases n, 1
  {
    match n
    case Element(_, _, _, _, children, _, _, _) => StaticSelf(n) && AllStatic(children)
    case Text(_, _) => true
    case Comment(_, _) => true
    case Interpolation(c, _) => IsStaticNode(c)
    case TextCall(c, _, _) => IsStaticNode(c)
    case SimpleExpression(_, _, isConstant, _) => isConstant
    case CompoundExpression(parts, _) => AllStaticParts(parts)
    case _ => false
  }

  /** Every node of a child list is static. */
  function AllStatic(ns: seq<Node>): (r: bool)
    decreases ns, 0
  {
    |ns| == 0 || (IsStaticNode(ns[0]) && AllStatic(ns[1..]))
  }

  /** Every part of a compound expression is a string, a helper symbol, or a
      static node. */
  function AllStaticParts(ns: seq<Node>): (r: bool)
    decreases ns, 0
  {
    |ns| == 0 || ((ns[0].Raw? || ns[0].HelperRef? || IsStaticNode(ns[0])) && AllStaticParts(ns[1..]))
  }

  /** The elements of a subtree, the node itself first, reached through
      element children. */
  function ElementsOf(n: Node): (r: seq<Node>)
    ensures forall i :: 0 <= i < |r| ==> r[i].Element?
    decreases n, 1
  {
    if n.Element? then [n] + ElementsIn(n.children) else []
  }

  function ElementsIn(ns: seq<Node>): (r: seq<Node>)
    ensures forall i :: 0 <= i < |r| ==> r[i].Element?
    decreases ns, 0
  {
    if |ns| == 0 then [] else ElementsOf(ns[0]) + ElementsIn(ns[1..])
  }

  /** A static element's whole subtree is static in the element sense: every
      element in it is a plain element with a flag-free vnode call and no
      bound key or ref. */
  lemma {:induction false} StaticSubtree(n: Node)
    requires IsStaticNode(n)
    ensures forall i :: 0 <= i < |ElementsOf(n)| ==> StaticSelf(ElementsOf(n)[i])
    decreases n, 1
  {
    if n.Element? {
      StaticChildren(n.children);
    }
  }

  lemma {:induction false} StaticChildren(ns: seq<Node>)
    requires AllStatic(ns)
    ensures forall i :: 0 <= i < |ElementsIn(ns)| ==> StaticSelf(ElementsIn(ns)[i])
    decreases ns, 0
  {
    if |ns| > 0 {
      StaticSubtree(ns[0]);
      StaticChildren(ns[1..]);
    }
  }

  /** An element whose code was lifted (or whose call is marked hoisted) is
      not static any more, so a second walk would not lift it again. */
  lemma HoistedNotStatic(n: Node)
    requires n.Element? && n.codegenNode.Some?
    requires !n.codegenNode.value.VNodeCall? || n.codegenNode.value.patchFlag == Some(HoistedFlag)
    ensures !IsStaticNode(n)
  {
    if n.codegenNode.value.VNodeCall? {
      HoistedFlagReadsBack(n.codegenNode.value);
    }
  }

  // ---------------------------------------------------------------------
  // walk
  // ---------------------------------------------------------------------

  /** The walk only ever adds hoisted expressions at the end of the list and
      touches no other part of the context. */
  predicate Extends(s: State, t: State) {
    && t.helpers == s.helpers && t.components == s.components && t.directives == s.directives
    && t.temps == s.temps && t.cached == s.cached && t.identifiers == s.identifiers
    && |s.hoists| <= |t.hoists| && t.hoists[..|s.hoists|] == s.hoists
  }

  lemma ExtendsTrans(s: State, t: State, u: State)
    requires Extends(s, t) && Extends(t, u)
    ensures Extends(s, u)
  {
    assert u.hoists[..|t.hoists|][..|s.hoists|] == u.hoists[..|s.hoists|];
  }

  /** What gets lifted in place of a static element: its vnode call marked
      hoisted and no longer a block. */
  function HoistedCall(call: Node): (r: Node)
    requires call.VNodeCall?
    ensures r.VNodeCall? && r.patchFlag == Some(HoistedFlag) && !r.isBlock
    ensures r.vnodeTag == call.vnodeTag && r.vnodeProps == call.vnodeProps && r.vnodeChildren == call.vnodeChildren
  {
    VNodeCall(call.vnodeTag, call.vnodeProps, call.vnodeChildren, Some(HoistedFlag), call.dynamicProps,
              call.directives, false, call.isForBlock, call.loc)
  }

  /** The element with new code. */
  function WithCodegen(n: Node, codegen: Option<Node>): (r: Node)
    requires n.Element?
    ensures r.Element? && r.codegenNode == codegen && r.tag == n.tag && r.tagType == n.tagType
    ensures r.props == n.props && r.children == n.children
  {
    Element(n.ns, n.tag, n.tagType, n.props, n.children, n.isSelfClosing, n.loc, codegen)
  }

  /** A child the walk lifts as a whole: a static plain element at a level
      where hoisting is allowed. */
  predicate Hoistable(child: Node, doNotHoist: bool) {
    child.Element? && child.tagType == PlainElement && !doNotHoist && IsStaticNode(child)
  }

  /** A plain element whose props the walk lifts: a vnode call with no flag,
      or only `NEED_PATCH` or `TEXT`, no bound key or ref, no cached props,
      and props to lift. */
  predicate PropsHoistable(child: Node) {
    child.Element? && child.tagType == PlainElement && child.codegenNode.Some?
    && child.codegenNode.value.VNodeCall?
    && (NoFlag(child.codegenNode.value)
        || PatchFlagOf(child.codegenNode.value) == Some(PatchFlags.NEED_PATCH as int)
        || PatchFlagOf(child.codegenNode.value) == Some(PatchFlags.TEXT as int))
    && !HasDynamicKeyOrRef(child.props) && !HasCachedProps(child.codegenNode.value)
    && child.codegenNode.value.vnodeProps.Some?
  }

  /** The props of a non-hoisted plain element, lifted when allowed. */
  function HoistProps(child: Node, s: State): (r: (State, Node))
    requires child.Element?
    ensures Extends(s, r.0)
    ensures r.1 == child || PropsHoistable(child)
    ensures PropsHoistable(child) ==>
              var call := child.codegenNode.value;
              && r.0.hoists == s.hoists + [call.vnodeProps.value]
              && r.1 == WithCodegen(child, Some(call.(vnodeProps := Some(SimpleExpression(
                   HoistName(|r.0.hoists|), false, true, LocOf(call.vnodeProps.value))))))
    ensures !PropsHoistable(child) ==> r.0 == s
  {
    if PropsHoistable(child) then
      var call := child.codegenNode.value;
      var (s1, ref) := Hoist(s, call.vnodeProps.value);
      (s1, WithCodegen(child, Some(call.(vnodeProps := Some(ref)))))
    else (s, child)
  }

  /** The element with its walked children. Its vnode call lists the very
      array the walk rewrote, so a call whose children are that list sees the
      new children too. */
  function Relink(n: Node, kids: seq<Node>): (r: Node)
    requires n.Element?
    ensures r.Element? && r.children == kids && r.tag == n.tag && r.tagType == n.tagType && r.props == n.props
    ensures r.codegenNode.Some? <==> n.codegenNode.Some?
    ensures n.codegenNode.Some? ==> (r.codegenNode.value.VNodeCall? <==> n.codegenNode.value.VNodeCall?)
    ensures n.codegenNode.Some? && n.codegenNode.value.VNodeCall? ==>
              var c, d := n.codegenNode.value, r.codegenNode.value;
              d.vnodeTag == c.vnodeTag && d.vnodeProps == c.vnodeProps && d.patchFlag == c.patchFlag
              && d.dynamicProps == c.dynamicProps && d.directives == c.directives
    ensures n.codegenNode.Some? && !n.codegenNode.value.VNodeCall? ==> r.codegenNode == n.codegenNode
  {
    var codegen :=
      match n.codegenNode
      case Some(call) =>
        if call.VNodeCall? && call.vnodeChildren == Some(NodeList(n.children)) then
          Some(call.(vnodeChildren := Some(NodeList(kids))))
        else n.codegenNode
      case None => None;
    Element(n.ns, n.tag, n.tagType, n.props, kids, n.isSelfClosing, n.loc, codegen)
  }

  /** A vnode call no longer marked as a block. */
  function NonBlock(call: Node): (r: Node)
    requires call.VNodeCall?
    ensures r.VNodeCall? && !r.isBlock
    ensures r.vnodeTag == call.vnodeTag && r.vnodeProps == call.vnodeProps && r.vnodeChildren == call.vnodeChildren
    ensures r.patchFlag == call.patchFlag && r.dynamicProps == call.dynamicProps && r.directives == call.directives
  {
    VNodeCall(call.vnodeTag, call.vnodeProps, call.vnodeChildren, call.patchFlag, call.dynamicProps,
              call.directives, false, call.isForBlock, call.loc)
  }

  /** An element whose code, when it is a vnode call, is not a block. */
  predicate NotBlock(e: Node) {
    e.Element? && e.codegenNode.Some? && e.codegenNode.value.VNodeCall? ==> !e.codegenNode.value.isBlock
  }

  /** The subtree of a static element as `isStaticNode` leaves it: every
      element it finds static has its vnode call's block mark cleared (an
      `svg` or `foreignObject` that needs no nested updates needs no block),
      and every element inside a static element is static itself. Only that
      mark changes; the call's children list is the element's rewritten
      children. */
  function Unblock(n: Node): (r: Node)
    ensures !n.Element? ==> r == n
    ensures n.Element? ==> r.Element? && r.tag == n.tag && r.tagType == n.tagType && r.props == n.props
                           && r.children == UnblockAll(n.children)
    ensures n.Element? ==> (r.codegenNode.Some? <==> n.codegenNode.Some?)
    ensures n.Element? && n.codegenNode.Some? ==> (r.codegenNode.value.VNodeCall? <==> n.codegenNode.value.VNodeCall?)
    ensures n.Element? && n.codegenNode.Some? && !n.codegenNode.value.VNodeCall? ==> r.codegenNode == n.codegenNode
    ensures n.Element? && n.codegenNode.Some? && n.codegenNode.value.VNodeCall? ==>
              var c, d := n.codegenNode.value, r.codegenNode.value;
              !d.isBlock && d.vnodeTag == c.vnodeTag && d.vnodeProps == c.vnodeProps && d.patchFlag == c.patchFlag
              && d.dynamicProps == c.dynamicProps && d.directives == c.directives
    ensures NotBlock(r)
    decreases n, 1
  {
    if !n.Element? then n
    else
      var r0 := Relink(n, UnblockAll(n.children));
      if r0.codegenNode.Some? && r0.codegenNode.value.VNodeCall? then WithCodegen(r0, Some(NonBlock(r0.codegenNode.value)))
      else r0
  }

  function UnblockAll(ns: seq<Node>): (r: seq<Node>)
    ensures |r| == |ns| && forall i :: 0 <= i < |ns| ==> r[i] == Unblock(ns[i])
    decreases ns, 0
  {
    if |ns| == 0 then [] else [Unblock(ns[0])] + UnblockAll(ns[1..])
  }

  lemma UnblockAllAppend(a: seq<Node>, b: seq<Node>)
    ensures UnblockAll(a + b) == UnblockAll(a) + UnblockAll(b)
  {
    var l, r := UnblockAll(a + b), UnblockAll(a) + UnblockAll(b);
    assert |l| == |r|;
    forall i | 0 <= i < |l|
      ensures l[i] == r[i]
    {
      if i < |a| { assert (a + b)[i] == a[i]; } else { assert (a + b)[i] == b[i - |a|]; }
    }
  }

  /** The elements of an unblocked subtree are the unblocked elements of the
      subtree, in the same order: none of them is a block any more, and
      nothing else about them changed. */
  lemma {:induction false} UnblockElements(n: Node)
    ensures ElementsOf(Unblock(n)) == UnblockAll(ElementsOf(n))
    ensures forall i :: 0 <= i < |ElementsOf(Unblock(n))| ==> NotBlock(ElementsOf(Unblock(n))[i])
    decreases n, 1
  {
    if n.Element? {
      UnblockElementsIn(n.children);
      UnblockAllAppend([n], ElementsIn(n.children));
    }
  }

  lemma {:induction false} UnblockElementsIn(ns: seq<Node>)
    ensures ElementsIn(UnblockAll(ns)) == UnblockAll(ElementsIn(ns))
    decreases ns, 0
  {
    if |ns| > 0 {
      UnblockElements(ns[0]);
      UnblockElementsIn(ns[1..]);
      assert UnblockAll(ns)[1..] == UnblockAll(ns[1..]);
      UnblockAllAppend(ElementsOf(ns[0]), ElementsIn(ns[1..]));
    }
  }

  /** `walk` on one child: a hoistable element is replaced by a reference to
      its lifted call and not descended into; otherwise a plain element may
      have its props lifted, and the walk goes on into the children of
      elements, of `v-for` nodes (not hoisting a lone child, which must stay a
      block) and of every `v-if` branch (likewise); a `createTextVNode` call
      on static content is lifted. */
  function WalkChild(child: Node, s: State, doNotHoist: bool): (r: (State, Node))
    ensures Extends(s, r.0)
    ensures Hoistable(child, doNotHoist) ==>
              && r.0.hoists == s.hoists + [HoistedCall(Unblock(child).codegenNode.value)]
              && r.1 == WithCodegen(Unblock(child), Some(SimpleExpression(HoistName(|r.0.hoists|), false, true,
                                                                          child.codegenNode.value.loc)))
    ensures child.Element? && !Hoistable(child, doNotHoist) ==>
              && r.1.Element? && r.1.tag == child.tag && r.1.tagType == child.tagType && r.1.props == child.props
              && (r.1.codegenNode.Some? <==> child.codegenNode.Some?)
              && (child.codegenNode.Some? ==> (r.1.codegenNode.value.VNodeCall? <==> child.codegenNode.value.VNodeCall?))
    ensures child.TextCall? && IsStaticNode(child.contentNode) && child.codegenNode.Some? ==>
              && r.0.hoists == s.hoists + [child.codegenNode.value]
              && r.1 == TextCall(child.contentNode, child.loc, Some(SimpleExpression(HoistName(|r.0.hoists|), false, true,
                                                                                   LocOf(child.codegenNode.value))))
    ensures child.TextCall? && !(IsStaticNode(child.contentNode) && child.codegenNode.Some?) ==> r == (s, child)
    ensures !child.Element? && !child.For? && !child.If? && !child.TextCall? ==> r == (s, child)
    decreases child, 2
  {
    if Hoistable(child, doNotHoist) then
      var u := Unblock(child);
      var (s1, ref) := Hoist(s, HoistedCall(u.codegenNode.value));
      (s1, WithCodegen(u, Some(ref)))
    else if child.Element? then
      var (s1, c1) := HoistProps(child, s);
      var (s2, kids) := WalkList(child.children, s1, false);
      ExtendsTrans(s, s1, s2);
      (s2, Relink(c1, kids))
    else if child.For? then
      var (s1, kids) := WalkList(child.children, s, |child.children| == 1);
      (s1, Traverse.WithChildren(child, kids))
    else if child.If? then
      var (s1, bs) := WalkBranches(child.branches, s);
      (s1, If(bs, child.loc, child.codegenNode))
    else if child.TextCall? && IsStaticNode(child.contentNode) && child.codegenNode.Some? then
      var (s1, ref) := Hoist(s, child.codegenNode.value);
      (s1, TextCall(child.contentNode, child.loc, Some(ref)))
    else (s, child)
  }

  /** `walk` over a child list, left to right. */
  function WalkList(ns: seq<Node>, s: State, doNotHoist: bool): (r: (State, seq<Node>))
    ensures Extends(s, r.0)
    ensures |r.1| == |ns|
    decreases ns, 1
  {
    if |ns| == 0 then (s, [])
    else
      var (s1, c) := WalkChild(ns[0], s, doNotHoist);
      var (s2, rest) := WalkList(ns[1..], s1, doNotHoist);
      ExtendsTrans(s, s1, s2);
      (s2, [c] + rest)
  }

  /** The walk of each `v-if` branch's children. */
  function WalkBranches(bs: seq<Node>, s: State): (r: (State, seq<Node>))
    ensures Extends(s, r.0)
    ensures |r.1| == |bs|
    decreases bs, 1
  {
    if |bs| == 0 then (s, [])
    else
      var b := bs[0];
      var (s1, b1) :=
        if b.IfBranch? then
          var (t, kids) := WalkList(b.children, s, |b.children| == 1);
          (t, IfBranch(b.condition, kids, b.loc))
        else (s, b);
      var (s2, rest) := WalkBranches(bs[1..], s1);
      ExtendsTrans(s, s1, s2);
      (s2, [b1] + rest)
  }

  /** `hoistStatic`: the walk of the root's children, where a lone element
      child (the component's root, which may receive fallthrough attributes)
      is not hoisted. */
  function HoistStatic(children: seq<Node>, s: State): (r: (State, seq<Node>))
    ensures Extends(s, r.0) && |r.1| == |children|
  {
    WalkList(children, s, Traverse.IsSingleElementRoot(children))
  }

  /** A reference the walk left in the tree names the entry it lifted. */
  predicate RefersTo(ref: Node, hoists: seq<Node>, entry: Node) {
    ref.SimpleExpression? && exists k :: 1 <= k <= |hoists| && ref.content == HoistName(k) && hoists[k - 1] == entry
  }

  lemma RefersLater(ref: Node, hoists: seq<Node>, more: seq<Node>, entry: Node)
    requires RefersTo(ref, hoists, entry) && |hoists| <= |more| && more[..|hoists|] == hoists
    ensures RefersTo(ref, more, entry)
  {
    var k :| 1 <= k <= |hoists| && ref.content == HoistName(k) && hoists[k - 1] == entry;
    assert more[k - 1] == hoists[k - 1];
  }

  /** Over a whole child list: each hoistable element's code becomes a
      reference to the entry holding its lifted call, and a plain element
      whose code is a vnode call keeps a vnode call exactly when it is not
      hoistable. */
  lemma {:induction false} WalkListHoists(ns: seq<Node>, s: State, doNotHoist: bool)
    ensures var r := WalkList(ns, s, doNotHoist);
            forall i :: 0 <= i < |ns| && Hoistable(ns[i], doNotHoist) ==>
              r.1[i].Element? && r.1[i].codegenNode.Some?
              && RefersTo(r.1[i].codegenNode.value, r.0.hoists, HoistedCall(Unblock(ns[i]).codegenNode.value))
    ensures var r := WalkList(ns, s, doNotHoist);
            forall i :: 0 <= i < |ns| && ns[i].Element? && ns[i].codegenNode.Some? && ns[i].codegenNode.value.VNodeCall? ==>
              r.1[i].Element? && r.1[i].codegenNode.Some?
              && (r.1[i].codegenNode.value.VNodeCall? <==> !Hoistable(ns[i], doNotHoist))
    decreases |ns|
  {
    if |ns| > 0 {
      var r := WalkList(ns, s, doNotHoist);
      var (s1, c) := WalkChild(ns[0], s, doNotHoist);
      var (s2, rest) := WalkList(ns[1..], s1, doNotHoist);
      assert r.1 == [c] + rest && r.0 == s2;
      WalkListHoists(ns[1..], s1, doNotHoist);
      if Hoistable(ns[0], doNotHoist) {
        var k := |s1.hoists|;
        assert s1.hoists[k - 1] == HoistedCall(Unblock(ns[0]).codegenNode.value);
        assert RefersTo(c.codegenNode.value, s1.hoists, HoistedCall(Unblock(ns[0]).codegenNode.value));
        RefersLater(c.codegenNode.value, s1.hoists, s2.hoists, HoistedCall(Unblock(ns[0]).codegenNode.value));
      }
      forall i | 1 <= i < |ns|
        ensures r.1[i] == rest[i - 1] && ns[i] == ns[1..][i - 1]
      {
      }
    }
  }

  /** The root's lone element is never hoisted: its code stays a vnode call. */
  lemma SingleRootKept(children: seq<Node>, s: State)
    requires Traverse.IsSingleElementRoot(children)
    requires children[0].codegenNode.Some? && children[0].codegenNode.value.VNodeCall?
    ensures HoistStatic(children, s).1[0].codegenNode.Some?
    ensures HoistStatic(children, s).1[0].codegenNode.value.VNodeCall?
  {
    WalkListHoists(children, s, true);
  }
}
