// The bookkeeping a transform pass keeps next to the tree it rewrites: the
// helpers, components and directives it asked for, the hoisted and cached
// expressions it numbered, and the reference-counted table of identifiers
// that are in scope at the node being transformed.

module TransformContext {
  import opened Wrappers
  import opened Strings
  import opened Positions
  import opened Ast
  import opened AstUtils

  /** The state part of `createTransformContext`. The helpers, components
      and directives are JavaScript `Set`s, kept here as sequences in
      insertion order, the order the code generator prints them in. */
  datatype State = State(
    helpers: seq<Helper>,
    components: seq<string>,
    directives: seq<string>,
    hoists: seq<Node>,
    temps: nat,
    cached: nat,
    identifiers: map<string, int>)

  /** A fresh context: nothing requested, nothing numbered, nothing in scope. */
  const Initial := State([], [], [], [], 0, 0, map[])

  /** A piece of generated code and the helper list after building it. */
  datatype Built = Built(node: Node, helpers: seq<Helper>)

  /** No helper is listed twice. */
  predicate Distinct<T(==)>(xs: seq<T>) {
    forall a, b :: 0 <= a < b < |xs| ==> xs[a] != xs[b]
  }

  /** Adding to a JavaScript `Set`: a new member goes to the end of the
      insertion order, a member already present changes nothing. */
  function AddOnce<T(==,!new)>(xs: seq<T>, x: T): (r: seq<T>)
    ensures x in r && forall y :: y in r <==> y in xs || y == x
    ensures Distinct(xs) ==> Distinct(r)
    ensures |xs| <= |r| <= |xs| + 1 && r[..|xs|] == xs
  {
    if x in xs then xs else xs + [x]
  }

  /** `context.helper`: records that the generated code uses `h`. */
  function AddHelper(s: State, h: Helper): (r: State)
    ensures r.helpers == AddOnce(s.helpers, h)
    ensures r.hoists == s.hoists && r.cached == s.cached && r.identifiers == s.identifiers
  {
    s.(helpers := AddOnce(s.helpers, h))
  }

  /** The user-component case of `resolveComponentType`: the tag is
      recorded among the components to resolve, `resolveComponent` is
      asked for, and the element refers to the component by its asset id. */
  function AddComponent(s: State, tag: string): (r: (string, State))
    ensures r.0 == ToValidAssetId(tag, "component")
    ensures r.1.components == AddOnce(s.components, tag) && r.1.helpers == AddOnce(s.helpers, ResolveComponent)
    ensures r.1.directives == s.directives && r.1.hoists == s.hoists && r.1.temps == s.temps
    ensures r.1.cached == s.cached && r.1.identifiers == s.identifiers
  {
    (ToValidAssetId(tag, "component"),
     State(AddOnce(s.helpers, ResolveComponent), AddOnce(s.components, tag), s.directives, s.hoists, s.temps, s.cached,
           s.identifiers))
  }

  /** Several helpers in order. */
  function AddAll<T(==,!new)>(xs: seq<T>, more: seq<T>): (r: seq<T>)
    ensures forall y :: y in r <==> y in xs || y in more
    ensures Distinct(xs) ==> Distinct(r)
    ensures |xs| <= |r| && r[..|xs|] == xs
    decreases |more|
  {
    if |more| == 0 then xs
    else
      var init := AddAll(xs, more[..|more| - 1]);
      var r := AddOnce(init, more[|more| - 1]);
      assert r[..|xs|] == init[..|init|][..|xs|];
      r
  }

  // ----- scope identifiers -----

  /** The count the table holds for `id`; a missing entry counts as 0. */
  function Count(ids: map<string, int>, id: string): int {
    if id in ids then ids[id] else 0
  }

  /** `addId`: a missing entry starts at 0; the entry then goes up by one. */
  function AddId(ids: map<string, int>, id: string): (r: map<string, int>)
    ensures id in r && r[id] == Count(ids, id) + 1
    ensures forall x :: x != id ==> Count(r, x) == Count(ids, x)
    ensures r.Keys == ids.Keys + {id}
  {
    ids[id := Count(ids, id) + 1]
  }

  /** `removeId`: the entry goes down by one. The compiler only removes an
      identifier it added, so the entry exists. */
  function RemoveId(ids: map<string, int>, id: string): (r: map<string, int>)
    requires id in ids
    ensures id in r && r[id] == ids[id] - 1
    ensures forall x :: x != id ==> Count(r, x) == Count(ids, x)
    ensures r.Keys == ids.Keys
  {
    ids[id := ids[id] - 1]
  }

  /** `addIdentifiers` over a list of names (`exp.identifiers.forEach(addId)`),
      in order. */
  function AddIds(ids: map<string, int>, names: seq<string>): map<string, int>
    decreases |names|
  {
    if |names| == 0 then ids else AddId(AddIds(ids, names[..|names| - 1]), names[|names| - 1])
  }

  /** `removeIdentifiers` over a list of names, in order. */
  function RemoveIds(ids: map<string, int>, names: seq<string>): (r: map<string, int>)
    requires forall i :: 0 <= i < |names| ==> names[i] in ids
    ensures r.Keys == ids.Keys
    decreases |names|
  {
    if |names| == 0 then ids
    else
      var init := names[..|names| - 1];
      assert forall i :: 0 <= i < |init| ==> init[i] == names[i];
      RemoveId(RemoveIds(ids, init), names[|names| - 1])
  }

  /** Adding a list of names raises each name's count by the number of times
      it occurs in the list. */
  lemma {:induction false} AddIdsCount(ids: map<string, int>, names: seq<string>, x: string)
    ensures Count(AddIds(ids, names), x) == Count(ids, x) + multiset(names)[x]
    ensures forall i :: 0 <= i < |names| ==> names[i] in AddIds(ids, names)
    decreases |names|
  {
    if |names| > 0 {
      var init := names[..|names| - 1];
      assert names == init + [names[|names| - 1]];
      AddIdsCount(ids, init, x);
      forall i | 0 <= i < |names|
        ensures names[i] in AddIds(ids, names)
      {
        if i < |init| {
          assert init[i] == names[i];
        }
      }
    }
  }

  /** Removing a list of names lowers each name's count by the number of
      times it occurs in the list. */
  lemma {:induction false} RemoveIdsCount(ids: map<string, int>, names: seq<string>, x: string)
    requires forall i :: 0 <= i < |names| ==> names[i] in ids
    ensures Count(RemoveIds(ids, names), x) == Count(ids, x) - multiset(names)[x]
    decreases |names|
  {
    if |names| > 0 {
      var init := names[..|names| - 1];
      assert names == init + [names[|names| - 1]];
      assert forall i :: 0 <= i < |init| ==> init[i] == names[i];
      RemoveIdsCount(ids, init, x);
    }
  }

  /** Entering and leaving a scope restores every count, so a name is in scope
      after `removeIdentifiers` exactly when it was before `addIdentifiers`. */
  lemma ScopeRestored(ids: map<string, int>, names: seq<string>, y: string)
    ensures forall i :: 0 <= i < |names| ==> names[i] in AddIds(ids, names)
    ensures Count(RemoveIds(AddIds(ids, names), names), y) == Count(ids, y)
    ensures InScope(RemoveIds(AddIds(ids, names), names), y) <==> InScope(ids, y)
  {
    AddIdsCount(ids, names, y);
    RemoveIdsCount(AddIds(ids, names), names, y);
  }

  /** While a scope is open, each of its names is in scope, provided no count
      had gone negative. */
  lemma ScopeOpen(ids: map<string, int>, names: seq<string>, i: int)
    requires forall x :: x in ids ==> ids[x] >= 0
    requires 0 <= i < |names|
    ensures InScope(AddIds(ids, names), names[i])
  {
    AddIdsCount(ids, names, names[i]);
    assert names[i] in multiset(names);
  }

  /** Opening a scope changes no other name. */
  lemma ScopeOthers(ids: map<string, int>, names: seq<string>, y: string)
    requires y !in names
    ensures InScope(AddIds(ids, names), y) <==> InScope(ids, y)
  {
    AddIdsCount(ids, names, y);
    assert multiset(names)[y] == 0;
  }

  // ----- hoisting and caching -----

  /** The name `hoist` gives the n-th hoisted expression (counting from 1). */
  function HoistName(n: nat): string {
    "_hoisted_" + NatToString(n)
  }

  /** Distinct positions get distinct names. */
  lemma HoistNameInjective(a: nat, b: nat)
    requires HoistName(a) == HoistName(b)
    ensures a == b
  {
    var p := "_hoisted_";
    assert NatToString(a) == HoistName(a)[|p|..];
    assert NatToString(b) == HoistName(b)[|p|..];
    DigitsOfNat(a);
    DigitsOfNat(b);
  }

  /** The location a node carries, `locStub` for the nodes built without one. */
  function LocOf(n: Node): SourceLocation {
    match n
    case Root(_, loc) => loc
    case Element(_, _, _, _, _, _, loc, _) => loc
    case Text(_, loc) => loc
    case Comment(_, loc) => loc
    case SimpleExpression(_, _, _, loc) => loc
    case Interpolation(_, loc) => loc
    case CompoundExpression(_, loc) => loc
    case If(_, loc, _) => loc
    case IfBranch(_, _, loc) => loc
    case For(_, _, _, _, _, loc, _) => loc
    case TextCall(_, loc, _) => loc
    case VNodeCall(_, _, _, _, _, _, _, _, loc) => loc
    case CallExpression(_, _, loc) => loc
    case ObjectExpression(_, loc) => loc
    case ArrayExpression(_, loc) => loc
    case FunctionExpression(_, _, _, _, loc) => loc
    case _ => LocStub
  }

  /** `hoist`: the expression joins the hoisted list, and the node left in its
      place names its 1-based position there. */
  function Hoist(s: State, exp: Node): (r: (State, Node))
    ensures r.0.hoists == s.hoists + [exp] && r.0.cached == s.cached && r.0.helpers == s.helpers
    ensures r.1.SimpleExpression? && !r.1.isStatic && r.1.isConstant && r.1.loc == LocOf(exp)
    ensures r.1.content == HoistName(|r.0.hoists|) && r.0.hoists[|r.0.hoists| - 1] == exp
  {
    var hoists := s.hoists + [exp];
    (s.(hoists := hoists), SimpleExpression(HoistName(|hoists|), false, true, LocOf(exp)))
  }

  /** Two expressions hoisted one after the other never share a name, and the
      name of each leads back to its own entry. */
  lemma HoistTwice(s: State, a: Node, b: Node)
    ensures var (s1, ra) := Hoist(s, a);
            var (s2, rb) := Hoist(s1, b);
            ra.content != rb.content
            && s2.hoists[|s.hoists|] == a && s2.hoists[|s.hoists| + 1] == b
  {
    var (s1, ra) := Hoist(s, a);
    var (s2, rb) := Hoist(s1, b);
    if ra.content == rb.content {
      HoistNameInjective(|s1.hoists|, |s2.hoists|);
    }
  }

  /** `cache`: the counter goes up first, so cache slots are numbered from 1. */
  function Cache(s: State, exp: Node, isVNode: bool): (r: (State, Node))
    ensures r.0.cached == s.cached + 1 && r.0.hoists == s.hoists && r.0.helpers == s.helpers
    ensures r.1 == CacheExpression(r.0.cached, exp, isVNode) && r.1.index >= 1
  {
    var cached := s.cached + 1;
    (s.(cached := cached), CacheExpression(cached, exp, isVNode))
  }

  /** Every slot handed out by a run of `cache` calls is fresh: caching a list
      of expressions yields the slots after the current counter, in order. */
  function CacheAll(s: State, exps: seq<Node>): (r: (State, seq<Node>))
    decreases |exps|
  {
    if |exps| == 0 then (s, [])
    else
      var (s1, out) := CacheAll(s, exps[..|exps| - 1]);
      var (s2, c) := Cache(s1, exps[|exps| - 1], false);
      (s2, out + [c])
  }

  lemma {:induction false} CacheAllFresh(s: State, exps: seq<Node>)
    ensures |CacheAll(s, exps).1| == |exps|
    ensures CacheAll(s, exps).0.cached == s.cached + |exps|
    ensures forall i :: 0 <= i < |exps| ==> CacheAll(s, exps).1[i] == CacheExpression(s.cached + i + 1, exps[i], false)
    decreases |exps|
  {
    if |exps| > 0 {
      var init := exps[..|exps| - 1];
      CacheAllFresh(s, init);
      var (s1, out) := CacheAll(s, init);
      forall i | 0 <= i < |exps|
        ensures CacheAll(s, exps).1[i] == CacheExpression(s.cached + i + 1, exps[i], false)
      {
        if i < |init| {
          assert init[i] == exps[i];
        }
      }
    }
  }
}
