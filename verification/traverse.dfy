// The tree walk of the transform pass. Each node is handed to every plugin in
// turn; a plugin may replace the node, remove it, or remove one of its
// siblings, and may register exit callbacks that run, in reverse order, once
// the node's children have been walked.
//
// A node is identified by its position in the list its parent held when the
// walk of that list began (`ids`), which is what JavaScript object identity
// gives the source.

module Traverse {
  import opened Wrappers
  import opened Positions
  import opened Ast
  import opened AstUtils
  import opened TransformContext
  import PatchFlags

  /** What a plugin asks of the context's hooks while it looks at a node:
      `replaceNode`, `removeNode()` and `removeNode(sibling)` (the sibling
      named by its index in the current child list). */
  datatype Action = Keep | Replace(node: Node) | RemoveSelf | RemoveSibling(index: nat)

  /** A plugin's reply: the hook calls it made, in order, the exit callbacks
      it returned (named by labels), and the helpers it asked for. */
  datatype Effect = Effect(actions: seq<Action>, exits: seq<nat>, helpers: seq<Helper>)

  /** A plugin sees the node, the list it sits in and its index there. */
  type Plugin = (Node, seq<Node>, int) -> Effect

  /** The list being walked, the original position of each entry, and the
      cursor (`context.childIndex`). */
  datatype Siblings = Siblings(nodes: seq<Node>, ids: seq<nat>, index: int)

  predicate Increasing(ids: seq<nat>) {
    forall a, b :: 0 <= a < b < |ids| ==> ids[a] < ids[b]
  }

  /** The cursor is on an entry. */
  predicate Valid(s: Siblings) {
    |s.nodes| == |s.ids| && 0 <= s.index < |s.nodes| && Increasing(s.ids)
  }

  /** The cursor separates the entries up to the one first reached as `cur`
      from the later ones: the next step of the walk goes to the first entry
      after `cur`. */
  predicate Splits(s: Siblings, cur: nat) {
    |s.nodes| == |s.ids| && -1 <= s.index < |s.ids| && Increasing(s.ids)
    && forall k :: 0 <= k < |s.ids| ==> (k <= s.index <==> s.ids[k] <= cur)
  }

  /** Only removals: every remaining id was there before. */
  predicate Shrinks(s: Siblings, r: Siblings) {
    forall k :: 0 <= k < |r.ids| ==> r.ids[k] in s.ids
  }

  function Without<T>(xs: seq<T>, j: int): (r: seq<T>)
    requires 0 <= j < |xs|
    ensures |r| == |xs| - 1
    ensures forall k :: 0 <= k < |r| ==> r[k] == (if k < j then xs[k] else xs[k + 1])
  {
    xs[..j] + xs[j + 1..]
  }

  /** `removeNode`: the entry at `j` is spliced out, and the cursor steps back
      when the entry was at or before it (`onNodeRemoved`). */
  function Remove(s: Siblings, j: int): Siblings
    requires |s.nodes| == |s.ids| && 0 <= j < |s.nodes|
  {
    Siblings(Without(s.nodes, j), Without(s.ids, j), if j <= s.index then s.index - 1 else s.index)
  }

  /** Removing an entry leaves the cursor just before the entries that come
      after the current one; the current entry survives unless it was the
      one removed. */
  lemma RemoveKeepsSplit(s: Siblings, j: int)
    requires Valid(s) && 0 <= j < |s.nodes|
    ensures Splits(Remove(s, j), s.ids[s.index]) && Shrinks(s, Remove(s, j))
    ensures s.ids[s.index] in Remove(s, j).ids <==> j != s.index
  {
    var r := Remove(s, j);
    var cur := s.ids[s.index];
    forall k | 0 <= k < |r.ids|
      ensures k <= r.index <==> r.ids[k] <= cur
    {
      if k < j {
        assert r.ids[k] == s.ids[k];
      } else {
        assert r.ids[k] == s.ids[k + 1];
      }
    }
    if j == s.index {
      forall k | 0 <= k < |r.ids|
        ensures r.ids[k] != cur
      {
        if k < j {
          assert r.ids[k] == s.ids[k] < cur;
        } else {
          assert r.ids[k] == s.ids[k + 1] > cur;
        }
      }
    }
  }

  /** Removing a sibling keeps the cursor on the current entry. */
  lemma RemoveSiblingKeepsCursor(s: Siblings, j: int)
    requires Valid(s) && 0 <= j < |s.nodes| && j != s.index
    ensures Valid(Remove(s, j))
    ensures Remove(s, j).nodes[Remove(s, j).index] == s.nodes[s.index]
    ensures Remove(s, j).ids[Remove(s, j).index] == s.ids[s.index]
  {
    var r := Remove(s, j);
    forall a, b | 0 <= a < b < |r.ids|
      ensures r.ids[a] < r.ids[b]
    {
      var a' := if a < j then a else a + 1;
      var b' := if b < j then b else b + 1;
      assert r.ids[a] == s.ids[a'] && r.ids[b] == s.ids[b'];
    }
  }

  /** One hook call. The flag tells whether the current node is gone. An index
      past the end of the list names no sibling and changes nothing. */
  function Apply(s: Siblings, a: Action): (Siblings, bool)
    requires Valid(s)
  {
    match a
    case Keep => (s, false)
    case Replace(n) => (s.(nodes := s.nodes[s.index := n]), false)
    case RemoveSelf => (Remove(s, s.index), true)
    case RemoveSibling(j) =>
      if j == s.index then (Remove(s, j), true)
      else if j < |s.nodes| then (Remove(s, j), false)
      else (s, false)
  }

  /** The node a list of hook calls leaves in place: the one the last
      `replaceNode` names, or the original one. */
  function LastReplacement(actions: seq<Action>, n: Node): Node
    decreases |actions|
  {
    if |actions| == 0 then n
    else LastReplacement(actions[1..], if actions[0].Replace? then actions[0].node else n)
  }

  /** The hook calls of one plugin, stopping at the removal of the node. */
  function ApplyAll(s: Siblings, actions: seq<Action>): (r: (Siblings, bool))
    requires Valid(s)
    ensures Splits(r.0, s.ids[s.index]) && Shrinks(s, r.0)
    ensures |r.0.nodes| - r.0.index <= |s.nodes| - s.index
    ensures !r.1 ==> Valid(r.0) && r.0.ids[r.0.index] == s.ids[s.index]
                     && r.0.nodes[r.0.index] == LastReplacement(actions, s.nodes[s.index])
    ensures r.1 <==> s.ids[s.index] !in r.0.ids
    decreases |actions|
  {
    if |actions| == 0 then
      assert Splits(s, s.ids[s.index]);
      (s, false)
    else
      var (s1, gone) := Apply(s, actions[0]);
      match actions[0]
      case Keep => ApplyAll(s1, actions[1..])
      case Replace(n) => ApplyAll(s1, actions[1..])
      case RemoveSelf => RemoveKeepsSplit(s, s.index); (s1, true)
      case RemoveSibling(j) =>
        if j < |s.nodes| then RemoveKeepsSplit(s, j); (if gone then (s1, true) else RemoveSiblingKeepsCursor(s, j); ApplyAll(s1, actions[1..]))
        else ApplyAll(s1, actions[1..])
  }

  /** What the plugin loop of one node produced: the list afterwards, whether
      the node was removed, the node each plugin was given and each plugin's
      reply. */
  datatype Outcome = Outcome(sib: Siblings, removed: bool, seen: seq<Node>, effects: seq<Effect>)

  /** The plugin loop of `traverseNode`. Each plugin is given the node as the
      plugins before it left it; a removal ends the loop. */
  function RunPlugins(plugins: seq<Plugin>, s: Siblings): (o: Outcome)
    requires Valid(s)
    ensures |o.seen| == |o.effects| <= |plugins|
    ensures Splits(o.sib, s.ids[s.index]) && Shrinks(s, o.sib)
    ensures |o.sib.nodes| - o.sib.index <= |s.nodes| - s.index
    ensures o.removed <==> s.ids[s.index] !in o.sib.ids
    ensures !o.removed ==> Valid(o.sib) && o.sib.ids[o.sib.index] == s.ids[s.index] && |o.seen| == |plugins|
    ensures o.removed ==> |o.seen| > 0
    decreases |plugins|
  {
    if |plugins| == 0 then Outcome(s, false, [], [])
    else
      var node := s.nodes[s.index];
      var e := plugins[0](node, s.nodes, s.index);
      var (s1, gone) := ApplyAll(s, e.actions);
      if gone then Outcome(s1, true, [node], [e])
      else
        var o := RunPlugins(plugins[1..], s1);
        Outcome(o.sib, o.removed, [node] + o.seen, [e] + o.effects)
  }

  /** A replaced node is rebound before the next plugin runs: the first
      plugin gets the node in the list, and each later one the node its
      predecessor's hook calls left in place. */
  lemma {:induction false} PluginsSeeRebound(plugins: seq<Plugin>, s: Siblings)
    requires Valid(s)
    ensures var o := RunPlugins(plugins, s);
            && (|o.seen| > 0 ==> o.seen[0] == s.nodes[s.index])
            && (forall k :: 0 <= k < |o.seen| - 1 ==> o.seen[k + 1] == LastReplacement(o.effects[k].actions, o.seen[k]))
    decreases |plugins|
  {
    if |plugins| > 0 {
      var node := s.nodes[s.index];
      var e := plugins[0](node, s.nodes, s.index);
      var (s1, gone) := ApplyAll(s, e.actions);
      if !gone {
        PluginsSeeRebound(plugins[1..], s1);
        var o := RunPlugins(plugins[1..], s1);
        var r := RunPlugins(plugins, s);
        assert forall k :: 0 < k < |r.seen| ==> r.seen[k] == o.seen[k - 1] && r.effects[k] == o.effects[k - 1];
      }
    }
  }

  /** After the loop the walk goes on with the node the last plugin left in
      place. */
  lemma {:induction false} PluginsLeaveRebound(plugins: seq<Plugin>, s: Siblings)
    requires Valid(s)
    ensures var o := RunPlugins(plugins, s);
            !o.removed ==> o.sib.nodes[o.sib.index] == Rebound(o, s.nodes[s.index])
    decreases |plugins|
  {
    if |plugins| > 0 {
      var node := s.nodes[s.index];
      var e := plugins[0](node, s.nodes, s.index);
      var (s1, gone) := ApplyAll(s, e.actions);
      if !gone {
        PluginsLeaveRebound(plugins[1..], s1);
      }
    }
  }

  /** The node the last plugin leaves in place. */
  function Rebound(o: Outcome, n: Node): Node
    requires |o.seen| == |o.effects|
  {
    if |o.seen| == 0 then n else LastReplacement(o.effects[|o.effects| - 1].actions, o.seen[|o.seen| - 1])
  }

  /** The exit callbacks the plugins registered, in registration order. */
  function ExitsOf(effects: seq<Effect>): seq<nat>
    decreases |effects|
  {
    if |effects| == 0 then [] else ExitsOf(effects[..|effects| - 1]) + effects[|effects| - 1].exits
  }

  /** The helpers the plugins asked for, in order. */
  function HelpersOf(effects: seq<Effect>): seq<Helper>
    decreases |effects|
  {
    if |effects| == 0 then [] else HelpersOf(effects[..|effects| - 1]) + effects[|effects| - 1].helpers
  }

  /** What the walk records: a node handed to the plugins, or an exit
      callback run. */
  datatype Event = Entered(node: Node) | Exited(callback: nat)

  /** The exit loop of `traverseNode`: the last registered callback first. */
  function RunExits(exits: seq<nat>): (r: seq<Event>)
    ensures |r| == |exits|
    ensures forall k :: 0 <= k < |r| ==> r[k] == Exited(exits[|exits| - 1 - k])
    decreases |exits|
  {
    if |exits| == 0 then [] else [Exited(exits[|exits| - 1])] + RunExits(exits[..|exits| - 1])
  }

  /** The node kinds whose children the walk descends into. */
  predicate HasChildren(n: Node) {
    n.Root? || n.Element? || n.IfBranch? || n.For?
  }

  /** The same node with a new child list. */
  function WithChildren(n: Node, children: seq<Node>): (r: Node)
    requires HasChildren(n)
    ensures HasChildren(r) && r.children == children
  {
    match n
    case Root(_, loc) => Root(children, loc)
    case Element(ns, tag, tagType, props, _, isSelfClosing, loc, codegenNode) =>
      Element(ns, tag, tagType, props, children, isSelfClosing, loc, codegenNode)
    case IfBranch(condition, _, loc) => IfBranch(condition, children, loc)
    case For(source, value, key, index, _, loc, codegenNode) => For(source, value, key, index, children, loc, codegenNode)
  }

  /** The positions 0 .. n - 1. */
  function Range(n: nat): (r: seq<nat>)
    ensures |r| == n && forall k :: 0 <= k < n ==> r[k] == k
  {
    seq(n, k => k)
  }

  /** `traverseNode`: the plugins, then (unless the node was removed) the
      helper its kind needs and the walk of its children, then the exit
      callbacks in reverse. `fuel` bounds the depth of the walk. */
  method TraverseNode(plugins: seq<Plugin>, ssr: bool, s: Siblings, helpers: seq<Helper>, fuel: nat)
    returns (r: Siblings, removed: bool, helpersOut: seq<Helper>, log: seq<Event>)
    requires Valid(s)
    ensures Splits(r, s.ids[s.index]) && Shrinks(s, r)
    ensures |r.nodes| - r.index <= |s.nodes| - s.index
    ensures removed <==> s.ids[s.index] !in r.ids
    ensures !removed ==> Valid(r) && r.ids[r.index] == s.ids[s.index]
    ensures |log| > 0 && log[0] == Entered(s.nodes[s.index])
    ensures removed ==> log == [Entered(s.nodes[s.index])]
    ensures var exits := ExitsOf(RunPlugins(plugins, s).effects);
            !removed ==> |log| >= 1 + |exits| && log[|log| - |exits|..] == RunExits(exits)
    ensures var exits := ExitsOf(RunPlugins(plugins, s).effects);
            !removed && fuel == 0 ==> log == [Entered(s.nodes[s.index])] + RunExits(exits)
    ensures forall h :: h in helpers ==> h in helpersOut
    ensures !removed && !ssr && r.nodes[r.index].Comment? ==> CreateComment in helpersOut
    ensures !removed && !ssr && r.nodes[r.index].Interpolation? ==> ToDisplayString in helpersOut
    decreases fuel, 1
  {
    var o := RunPlugins(plugins, s);
    helpersOut := AddAll(helpers, HelpersOf(o.effects));
    log := [Entered(s.nodes[s.index])];
    if o.removed {
      r, removed := o.sib, true;
      return;
    }
    removed := false;
    var node := o.sib.nodes[o.sib.index];
    var inner: seq<Event> := [];
    if node.Comment? && !ssr {
      helpersOut := AddOnce(helpersOut, CreateComment);
    } else if node.Interpolation? && !ssr {
      helpersOut := AddOnce(helpersOut, ToDisplayString);
    } else if node.If? && fuel > 0 {
      var branches, _, _, h, l := TraverseChildren(plugins, ssr, node.branches, helpersOut, fuel - 1);
      node := If(branches, node.loc, node.codegenNode);
      helpersOut, inner := h, l;
    } else if HasChildren(node) && fuel > 0 {
      var children, _, _, h, l := TraverseChildren(plugins, ssr, node.children, helpersOut, fuel - 1);
      node := WithChildren(node, children);
      helpersOut, inner := h, l;
    }
    r := o.sib.(nodes := o.sib.nodes[o.sib.index := node]);
    var exits := RunExits(ExitsOf(o.effects));
    log := log + inner + exits;
    assert log[|log| - |exits|..] == exits;
  }

  /** `traverseChildren`: every child is reached once, in order, although
      plugins remove children on the way. Raw strings are reached but not
      walked. */
  method TraverseChildren(plugins: seq<Plugin>, ssr: bool, children: seq<Node>, helpers: seq<Helper>, fuel: nat)
    returns (out: seq<Node>, ids: seq<nat>, reached: seq<nat>, helpersOut: seq<Helper>, log: seq<Event>)
    ensures |out| == |ids| && Increasing(ids) && Increasing(reached)
    ensures forall k :: 0 <= k < |ids| ==> ids[k] < |children| && ids[k] in reached
    ensures forall m :: 0 <= m < |reached| ==> reached[m] < |children|
    ensures forall h :: h in helpers ==> h in helpersOut
    decreases fuel, 2
  {
    out, ids, reached, helpersOut, log := children, Range(|children|), [], helpers, [];
    var i := 0;
    while i < |out|
      invariant |out| == |ids| && 0 <= i <= |out| && Increasing(ids) && Increasing(reached)
      invariant forall k :: 0 <= k < i ==> ids[k] in reached
      invariant forall k, m :: i <= k < |ids| && 0 <= m < |reached| ==> reached[m] < ids[k]
      invariant forall k :: 0 <= k < |ids| ==> ids[k] < |children|
      invariant forall m :: 0 <= m < |reached| ==> reached[m] < |children|
      invariant forall h :: h in helpers ==> h in helpersOut
      decreases |out| - i
    {
      var cur := ids[i];
      var before := Siblings(out, ids, i);
      var after := before;
      if !out[i].Raw? {
        var removed, h, l;
        after, removed, h, l := TraverseNode(plugins, ssr, before, helpersOut, fuel);
        helpersOut, log := h, log + l;
      } else {
        assert Splits(before, cur);
      }
      StepReached(before, after, reached);
      out, ids, reached, i := after.nodes, after.ids, reached + [cur], after.index + 1;
    }
  }

  /** In an increasing list, an entry no larger than the one at `i` sits at
      or before `i`. */
  lemma IncreasingBelow(ids: seq<nat>, m: nat, i: nat)
    requires Increasing(ids) && m < |ids| && i < |ids| && ids[m] <= ids[i]
    ensures m <= i
  {
  }

  /** The bookkeeping of one turn of `traverseChildren`: whatever the plugins
      removed, the entries before the new cursor have all been reached and
      the ones after it have not. */
  lemma StepReached(s: Siblings, r: Siblings, reached: seq<nat>)
    requires Valid(s) && Splits(r, s.ids[s.index]) && Shrinks(s, r)
    requires Increasing(reached)
    requires forall k :: 0 <= k < s.index ==> s.ids[k] in reached
    requires forall k, m :: s.index <= k < |s.ids| && 0 <= m < |reached| ==> reached[m] < s.ids[k]
    ensures Increasing(reached + [s.ids[s.index]])
    ensures forall k :: 0 <= k <= r.index ==> r.ids[k] in reached + [s.ids[s.index]]
    ensures forall k, m :: r.index < k < |r.ids| && 0 <= m < |reached| + 1 ==> (reached + [s.ids[s.index]])[m] < r.ids[k]
  {
    var cur := s.ids[s.index];
    var next := reached + [cur];
    forall k | 0 <= k <= r.index
      ensures r.ids[k] in next
    {
      var m :| 0 <= m < |s.ids| && s.ids[m] == r.ids[k];
      IncreasingBelow(s.ids, m, s.index);
    }
  }

  // ----- structural directives -----

  /** A directive the structural transform handles. */
  predicate Structural(p: Prop, matches: string -> bool) {
    p.Directive? && matches(p.name)
  }

  /** The props that are not handled by the transform, in order. */
  function Unhandled(props: seq<Prop>, matches: string -> bool): seq<Prop>
    decreases |props|
  {
    if |props| == 0 then []
    else
      var last := props[|props| - 1];
      Unhandled(props[..|props| - 1], matches) + (if Structural(last, matches) then [] else [last])
  }

  /** The element keeps exactly the props the transform does not handle. */
  lemma {:induction false} UnhandledMembers(props: seq<Prop>, matches: string -> bool, p: Prop)
    ensures p in Unhandled(props, matches) <==> p in props && !Structural(p, matches)
    decreases |props|
  {
    if |props| > 0 {
      var init := props[..|props| - 1];
      UnhandledMembers(init, matches, p);
      assert props == init + [props[|props| - 1]];
    }
  }

  /** One call of the handler: the element as the handler sees it, the
      directive, and the directive's position in the original prop list. */
  datatype Call = Call(node: Node, dir: Prop, at: nat)

  /** The handler calls for the first `n` props of an element: one per
      matching directive, in order, each seeing the element without that
      directive and without the matching ones before it. */
  function CallsUpTo(node: Node, matches: string -> bool, n: nat): seq<Call>
    requires node.Element? && n <= |node.props|
  {
    if n == 0 then []
    else
      var p := node.props[n - 1];
      CallsUpTo(node, matches, n - 1)
      + (if Structural(p, matches)
         then [Call(WithProps(node, Unhandled(node.props[..n], matches) + node.props[n..]), p, n - 1)]
         else [])
  }

  /** The exit callbacks the handler calls return, in order. */
  function ExitsFrom(calls: seq<Call>, fn: (Node, Prop) -> Option<nat>): seq<nat> {
    if |calls| == 0 then []
    else
      var last := calls[|calls| - 1];
      var onExit := fn(last.node, last.dir);
      ExitsFrom(calls[..|calls| - 1], fn) + (if onExit.Some? then [onExit.value] else [])
  }

  /** Each call names a matching directive of the element by its position. */
  predicate CallsSound(node: Node, matches: string -> bool, n: nat, calls: seq<Call>)
    requires node.Element? && n <= |node.props|
  {
    forall k :: 0 <= k < |calls| ==>
      calls[k].at < n && calls[k].dir == node.props[calls[k].at] && Structural(calls[k].dir, matches)
  }

  /** The calls follow the prop order. */
  predicate CallsOrdered(calls: seq<Call>) {
    forall k, m :: 0 <= k < m < |calls| ==> calls[k].at < calls[m].at
  }

  /** Every matching directive among the first `n` props has its call. */
  predicate CallsCover(node: Node, matches: string -> bool, n: nat, calls: seq<Call>)
    requires node.Element? && n <= |node.props|
  {
    forall j :: 0 <= j < n && Structural(node.props[j], matches) ==> exists k :: 0 <= k < |calls| && calls[k].at == j
  }

  /** One more prop adds at most one call, for that prop, at the end. */
  lemma CallsStep(node: Node, matches: string -> bool, n: nat)
    requires node.Element? && 0 < n <= |node.props|
    ensures var calls := CallsUpTo(node, matches, n);
            var before := CallsUpTo(node, matches, n - 1);
            && |calls| == |before| + (if Structural(node.props[n - 1], matches) then 1 else 0)
            && calls[..|before|] == before
            && (|calls| > |before| ==> calls[|before|].at == n - 1 && calls[|before|].dir == node.props[n - 1])
  {
  }

  lemma {:induction false} CallsSoundUpTo(node: Node, matches: string -> bool, n: nat)
    requires node.Element? && n <= |node.props|
    ensures CallsSound(node, matches, n, CallsUpTo(node, matches, n))
  {
    if n > 0 {
      var before := CallsUpTo(node, matches, n - 1);
      CallsSoundUpTo(node, matches, n - 1);
      CallsStep(node, matches, n);
      var calls := CallsUpTo(node, matches, n);
      forall k | 0 <= k < |calls|
        ensures calls[k].at < n && calls[k].dir == node.props[calls[k].at] && Structural(calls[k].dir, matches)
      {
        if k < |before| {
          assert calls[k] == calls[..|before|][k];
        }
      }
    }
  }

  lemma {:induction false} CallsOrderedUpTo(node: Node, matches: string -> bool, n: nat)
    requires node.Element? && n <= |node.props|
    ensures CallsOrdered(CallsUpTo(node, matches, n))
  {
    if n > 0 {
      var before := CallsUpTo(node, matches, n - 1);
      CallsOrderedUpTo(node, matches, n - 1);
      CallsSoundUpTo(node, matches, n - 1);
      CallsStep(node, matches, n);
      var calls := CallsUpTo(node, matches, n);
      forall k, m | 0 <= k < m < |calls|
        ensures calls[k].at < calls[m].at
      {
        assert calls[k] == calls[..|before|][k];
        if m < |before| {
          assert calls[m] == calls[..|before|][m];
        }
      }
    }
  }

  lemma {:induction false} CallsCoverUpTo(node: Node, matches: string -> bool, n: nat)
    requires node.Element? && n <= |node.props|
    ensures CallsCover(node, matches, n, CallsUpTo(node, matches, n))
  {
    if n > 0 {
      var before := CallsUpTo(node, matches, n - 1);
      CallsCoverUpTo(node, matches, n - 1);
      CallsStep(node, matches, n);
      var calls := CallsUpTo(node, matches, n);
      forall j | 0 <= j < n && Structural(node.props[j], matches)
        ensures exists k :: 0 <= k < |calls| && calls[k].at == j
      {
        if j < n - 1 {
          var k :| 0 <= k < |before| && before[k].at == j;
          assert calls[k] == calls[..|before|][k];
        } else {
          assert calls[|before|].at == j;
        }
      }
    }
  }

  /** The handler runs once for every matching directive and for nothing
      else, in prop order. */
  lemma CallsCoverMatches(node: Node, matches: string -> bool, n: nat)
    requires node.Element? && n <= |node.props|
    ensures CallsSound(node, matches, n, CallsUpTo(node, matches, n))
    ensures CallsOrdered(CallsUpTo(node, matches, n))
    ensures CallsCover(node, matches, n, CallsUpTo(node, matches, n))
  {
    CallsSoundUpTo(node, matches, n);
    CallsOrderedUpTo(node, matches, n);
    CallsCoverUpTo(node, matches, n);
  }



  /** How one turn of the splicing loop moves the prop list on: the entry
      under the cursor is the next original prop, and it is spliced out
      exactly when the transform handles it. */
  lemma SpliceStep(ps: seq<Prop>, matches: string -> bool, pos: nat)
    requires pos < |ps|
    ensures var props := Unhandled(ps[..pos], matches) + ps[pos..];
            var i := |Unhandled(ps[..pos], matches)|;
            && i < |props| && props[i] == ps[pos]
            && (Structural(ps[pos], matches) ==>
                 props[..i] + props[i + 1..] == Unhandled(ps[..pos + 1], matches) + ps[pos + 1..]
                 && i == |Unhandled(ps[..pos + 1], matches)|)
            && (!Structural(ps[pos], matches) ==>
                 props == Unhandled(ps[..pos + 1], matches) + ps[pos + 1..]
                 && i + 1 == |Unhandled(ps[..pos + 1], matches)|)
  {
    assert ps[..pos + 1][..pos] == ps[..pos];
    assert ps[pos..] == [ps[pos]] + ps[pos + 1..];
  }

  /** A `<template>` carrying `v-slot`, which structural transforms leave to
      the slot transform. */
  predicate SlotTemplate(node: Node) {
    node.Element? && node.tagType == TemplateWrapper && exists p :: p in node.props && IsVSlot(p)
  }

  /** The plugin `createStructuralDirectiveTransform(name, fn)` builds, on one
      node. Each matching directive is spliced out of the element before `fn`
      sees it; a `<template>` with `v-slot` is left to the slot transform; a
      node that is not an element is ignored. */
  method StructuralTransform(node: Node, matches: string -> bool, fn: (Node, Prop) -> Option<nat>)
    returns (r: Node, calls: seq<Call>, exits: seq<nat>)
    ensures !node.Element? || SlotTemplate(node) ==> r == node && calls == [] && exits == []
    ensures node.Element? && !SlotTemplate(node)
            ==> r == WithProps(node, Unhandled(node.props, matches))
                && calls == CallsUpTo(node, matches, |node.props|) && exits == ExitsFrom(calls, fn)
  {
    if !node.Element? || SlotTemplate(node) {
      r, calls, exits := node, [], [];
    } else {
      r, calls, exits := SpliceAll(node, matches, fn);
    }
  }

  /** The loop of the structural transform over an element's props. */
  method SpliceAll(node: Node, matches: string -> bool, fn: (Node, Prop) -> Option<nat>)
    returns (r: Node, calls: seq<Call>, exits: seq<nat>)
    requires node.Element?
    ensures r == WithProps(node, Unhandled(node.props, matches))
    ensures calls == CallsUpTo(node, matches, |node.props|) && exits == ExitsFrom(calls, fn)
  {
    calls, exits := [], [];
    var props := node.props;
    var i, pos := 0, 0;
    while pos < |node.props|
      invariant 0 <= pos <= |node.props|
      invariant props == Unhandled(node.props[..pos], matches) + node.props[pos..]
      invariant i == |Unhandled(node.props[..pos], matches)|
      invariant calls == CallsUpTo(node, matches, pos) && exits == ExitsFrom(calls, fn)
      decreases |node.props| - pos
    {
      props, i, calls, exits := SpliceTurn(node, matches, fn, props, i, pos, calls, exits);
      pos := pos + 1;
    }
    assert node.props[..pos] == node.props;
    r := WithProps(node, props);
  }

  /** One turn of the loop of the structural transform. */
  method SpliceTurn(node: Node, matches: string -> bool, fn: (Node, Prop) -> Option<nat>,
                    props: seq<Prop>, i: nat, pos: nat, calls: seq<Call>, exits: seq<nat>)
    returns (props': seq<Prop>, i': nat, calls': seq<Call>, exits': seq<nat>)
    requires node.Element? && pos < |node.props|
    requires props == Unhandled(node.props[..pos], matches) + node.props[pos..]
    requires i == |Unhandled(node.props[..pos], matches)|
    requires calls == CallsUpTo(node, matches, pos) && exits == ExitsFrom(calls, fn)
    ensures props' == Unhandled(node.props[..pos + 1], matches) + node.props[pos + 1..]
    ensures i' == |Unhandled(node.props[..pos + 1], matches)|
    ensures calls' == CallsUpTo(node, matches, pos + 1) && exits' == ExitsFrom(calls', fn)
  {
    SpliceStep(node.props, matches, pos);
    props', i', calls', exits' := props, i, calls, exits;
    var prop := props[i];
    if Structural(prop, matches) {
      props' := props[..i] + props[i + 1..];
      var seen := WithProps(node, props');
      calls' := calls + [Call(seen, prop, pos)];
      var onExit := fn(seen, prop);
      if onExit.Some? {
        exits' := exits + [onExit.value];
      }
      assert calls'[..|calls'| - 1] == calls;
    } else {
      i' := i + 1;
    }
  }

  /** The same element with a new prop list. */
  function WithProps(n: Node, props: seq<Prop>): (r: Node)
    requires n.Element?
    ensures r.Element? && r.props == props && r.tag == n.tag && r.tagType == n.tagType && r.children == n.children
  {
    Element(n.ns, n.tag, n.tagType, props, n.children, n.isSelfClosing, n.loc, n.codegenNode)
  }

  // ----- the root -----

  /** `isSingleElementRoot`: the root's one child is an element other than a
      `<slot>` outlet. */
  predicate IsSingleElementRoot(children: seq<Node>) {
    |children| == 1 && children[0].Element? && !IsSlotOutlet(children[0])
  }

  /** `createRootCodegen`: what the render function returns, and the helpers
      it needs. A single element's vnode call becomes a block; any other single
      child is returned as it is; several children go into a stable fragment
      block. */
  function RootCodegen(children: seq<Node>, helpers: seq<Helper>): (r: (Option<Node>, seq<Helper>))
    ensures forall h :: h in helpers ==> h in r.1
    ensures |children| == 0 <==> r.0 == None
    ensures IsSingleElementRoot(children) && children[0].codegenNode.Some? && children[0].codegenNode.value.VNodeCall?
            ==> r.0.Some? && r.0.value.VNodeCall? && r.0.value.isBlock && OpenBlock in r.1 && CreateBlock in r.1
                && r.0.value == children[0].codegenNode.value.(isBlock := true)
    ensures IsSingleElementRoot(children) && children[0].codegenNode.Some? && !children[0].codegenNode.value.VNodeCall?
            ==> r == (children[0].codegenNode, helpers)
    ensures |children| == 1 && !(IsSingleElementRoot(children) && children[0].codegenNode.Some?)
            ==> r == (Some(children[0]), helpers)
    ensures |children| == 0 ==> r.1 == helpers
    ensures |children| > 1 ==>
              r.0.Some? && r.0.value.VNodeCall? && r.0.value.isBlock && r.0.value.vnodeTag == HelperRef(Fragment)
              && r.0.value.vnodeChildren == Some(NodeList(children))
              && r.0.value.patchFlag == Some(PatchFlags.Annotated(PatchFlags.STABLE_FRAGMENT))
              && Fragment in r.1 && OpenBlock in r.1 && CreateBlock in r.1
  {
    if |children| == 1 then
      var child := children[0];
      if IsSingleElementRoot(children) && child.codegenNode.Some? then
        var codegen := child.codegenNode.value;
        if codegen.VNodeCall? then
          (Some(codegen.(isBlock := true)), AddAll(helpers, [OpenBlock, CreateBlock]))
        else (Some(codegen), helpers)
      else (Some(child), helpers)
    else if |children| > 1 then
      var fragment := VNodeCall(HelperRef(Fragment), None, Some(NodeList(children)),
                                Some(PatchFlags.Annotated(PatchFlags.STABLE_FRAGMENT)), None, None, true, false, LocStub);
      (Some(fragment), AddAll(helpers, [Fragment, OpenBlock, CreateBlock]))
    else (None, helpers)
  }
}
