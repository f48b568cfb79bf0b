/** Queries and small rewrites over AST nodes shared by the transforms:
    directive and attribute lookup, identifier tests, prop injection, asset
    ids and the scope-reference check used by slots and v-model. */
module AstUtils {
  import opened Wrappers
  import opened Strings
  import opened Positions
  import opened Ast

  /** The index of the first element satisfying `p`, or -1. */
  function FirstIndex<T>(s: seq<T>, p: T -> bool): (r: int)
    ensures -1 <= r < |s|
    ensures r >= 0 ==> p(s[r])
    ensures forall i :: 0 <= i < |s| && (r == -1 || i < r) ==> !p(s[i])
  {
    if |s| == 0 then -1
    else if p(s[0]) then 0
    else
      var r := FirstIndex(s[1..], p);
      assert forall i :: 1 <= i < |s| ==> s[i] == s[1..][i - 1];
      if r == -1 then -1 else r + 1
  }

  /** A directive whose name is one of `names` and that has an expression
      unless empty ones are allowed. */
  predicate DirMatches(p: Prop, names: set<string>, allowEmpty: bool) {
    p.Directive? && (allowEmpty || p.exp.Some?) && p.name in names
  }

  /** `findDir`: the first directive on the element matching `names`. A
      regular expression over names is given as the set of names it accepts. */
  function FindDir(props: seq<Prop>, names: set<string>, allowEmpty: bool): (r: Option<Prop>)
    ensures r.Some? <==> exists i :: 0 <= i < |props| && DirMatches(props[i], names, allowEmpty)
    ensures r.Some? ==>
              exists i :: 0 <= i < |props| && props[i] == r.value &&
                          DirMatches(props[i], names, allowEmpty) &&
                          forall j :: 0 <= j < i ==> !DirMatches(props[j], names, allowEmpty)
  {
    var i := FirstIndex(props, p => DirMatches(p, names, allowEmpty));
    if i == -1 then None else Some(props[i])
  }

  /** `isBindKey`: a static simple-expression argument spelling `name`. */
  predicate IsBindKey(arg: Option<Node>, name: string) {
    arg.Some? && arg.value.SimpleExpression? && arg.value.isStatic && arg.value.content == name
  }

  /** The test `findProp` applies to each prop. */
  predicate PropMatches(p: Prop, name: string, dynamicOnly: bool, allowEmpty: bool) {
    if p.Attribute? then !dynamicOnly && p.name == name && (p.value.Some? || allowEmpty)
    else p.name == "bind" && p.exp.Some? && IsBindKey(p.arg, name)
  }

  /** `findProp`: the first attribute `name` (with a value unless empty ones
      are allowed, and never when only dynamic ones are wanted) or the first
      `v-bind:name` with an expression. */
  function FindProp(props: seq<Prop>, name: string, dynamicOnly: bool, allowEmpty: bool): (r: Option<Prop>)
    ensures r.Some? <==> exists i :: 0 <= i < |props| && PropMatches(props[i], name, dynamicOnly, allowEmpty)
    ensures r.Some? ==>
              exists i :: 0 <= i < |props| && props[i] == r.value &&
                          PropMatches(props[i], name, dynamicOnly, allowEmpty) &&
                          forall j :: 0 <= j < i ==> !PropMatches(props[j], name, dynamicOnly, allowEmpty)
    ensures r.Some? && dynamicOnly ==> r.value.Directive?
  {
    var i := FirstIndex(props, p => PropMatches(p, name, dynamicOnly, allowEmpty));
    if i == -1 then None else Some(props[i])
  }

  /** A `v-bind` whose target key is only known at run time. */
  predicate IsDynamicKeyBind(p: Prop) {
    p.Directive? && p.name == "bind"
    && (p.arg.None? || !p.arg.value.SimpleExpression? || !p.arg.value.isStatic)
  }

  /** `hasDynamicKeyVBind`. */
  predicate HasDynamicKeyVBind(props: seq<Prop>) {
    exists i :: 0 <= i < |props| && IsDynamicKeyBind(props[i])
  }

  /** `isText`: the node kinds that render as text. */
  predicate IsText(n: Node) {
    n.Interpolation? || n.Text?
  }

  predicate IsVSlot(p: Prop) {
    p.Directive? && p.name == "slot"
  }

  predicate IsTemplateNode(n: Node) {
    n.Element? && n.tagType == TemplateWrapper
  }

  predicate IsSlotOutlet(n: Node) {
    n.Element? && n.tagType == SlotOutlet
  }

  /** The characters an identifier may contain: `[\w$]`. */
  predicate IsIdentChar(c: char) { IsWordChar(c) || c == '$' }

  /** The characters an identifier may start with: `[A-Za-z_$]`. */
  predicate IsIdentStart(c: char) { IsAsciiLetter(c) || c == '_' || c == '$' }

  /** `isSimpleIdentifier`: no leading digit and only `[\w$]` characters.
      The empty name passes, as it does in the source. */
  predicate IsSimpleIdentifier(name: string) {
    !(|name| > 0 && IsDigit(name[0])) && forall i :: 0 <= i < |name| ==> IsIdentChar(name[i])
  }

  /** The length of the run of identifier characters `s` starts with. */
  function IdentRun(s: string): (k: nat)
    ensures k <= |s|
    ensures forall i :: 0 <= i < k ==> IsIdentChar(s[i])
    ensures k < |s| ==> !IsIdentChar(s[k])
  {
    if |s| > 0 && IsIdentChar(s[0]) then 1 + IdentRun(s[1..]) else 0
  }

  /** The accessors that may follow the head of a member expression:
      `.name` or `[anything but a closing bracket]`, repeated. */
  predicate MemberTail(s: string)
    decreases |s|
  {
    if |s| == 0 then true
    else if s[0] == '.' then
      |s| >= 2 && IsIdentStart(s[1]) && MemberTail(s[2..][IdentRun(s[2..])..])
    else if s[0] == '[' then
      var close := FindChar(s[1..], ']');
      close >= 1 && MemberTail(s[1..][close + 1..])
    else false
  }

  /** `isMemberExpression`: an identifier followed by property accesses, the
      shape `v-model` requires of its expression. */
  predicate IsMemberExpression(path: string) {
    |path| >= 1 && IsIdentStart(path[0]) && MemberTail(path[1..][IdentRun(path[1..])..])
  }

  /** Without property accesses, a member expression is exactly a non-empty
      simple identifier. */
  lemma MemberExpressionOfIdentifier(x: string)
    requires forall i :: 0 <= i < |x| ==> x[i] != '.' && x[i] != '['
    ensures IsMemberExpression(x) <==> (|x| > 0 && IsSimpleIdentifier(x))
  {
    if |x| > 0 {
      var k := IdentRun(x[1..]);
      if IsIdentStart(x[0]) && k < |x| - 1 {
        assert x[1..][k..][0] == x[k + 1];
      }
      if IsSimpleIdentifier(x) {
        assert forall i :: 0 <= i < |x| - 1 ==> x[1..][i] == x[i + 1];
        assert IsIdentChar(x[0]) && !IsDigit(x[0]);
      }
      if IsMemberExpression(x) {
        assert forall i :: 1 <= i < |x| ==> x[i] == x[1..][i - 1];
      }
    }
  }

  /** `isBuiltInType`: the tag written as the PascalCase name or its
      hyphenated form. */
  predicate IsBuiltInType(tag: string, expected: string, hyphenated: string) {
    tag == expected || tag == hyphenated
  }

  /** `isCoreComponent`: the built-in components the compiler resolves to
      runtime helpers. */
  function CoreComponent(tag: string): (r: Option<Helper>)
    ensures r.Some? ==> r.value in {Teleport, Suspense, KeepAlive, BaseTransition}
    ensures r.Some? <==> tag in {"Teleport", "teleport", "Suspense", "suspense", "KeepAlive", "keep-alive", "BaseTransition", "base-transition"}
  {
    if IsBuiltInType(tag, "Teleport", "teleport") then Some(Teleport)
    else if IsBuiltInType(tag, "Suspense", "suspense") then Some(Suspense)
    else if IsBuiltInType(tag, "KeepAlive", "keep-alive") then Some(KeepAlive)
    else if IsBuiltInType(tag, "BaseTransition", "base-transition") then Some(BaseTransition)
    else None
  }

  /** `toValidAssetId`: `_type_` followed by the name with every character
      outside `\w` replaced by an underscore. */
  function ToValidAssetId(name: string, kind: string): (r: string)
    ensures |r| == |kind| + |name| + 2
    ensures r[..|kind| + 2] == "_" + kind + "_"
    ensures forall i :: |kind| + 2 <= i < |r| ==> IsWordChar(r[i])
    ensures forall i :: 0 <= i < |name| ==> (IsWordChar(name[i]) <==> r[|kind| + 2 + i] == name[i])
  {
    "_" + kind + "_" + seq(|name|, i requires 0 <= i < |name| => if IsWordChar(name[i]) then name[i] else '_')
  }

  /** A vnode call marked as a block (`vnodeCall.isBlock = true`). */
  function AsBlock(call: Node): (r: Node)
    requires call.VNodeCall?
    ensures r.VNodeCall? && r.isBlock
    ensures r.vnodeTag == call.vnodeTag && r.vnodeProps == call.vnodeProps && r.vnodeChildren == call.vnodeChildren
    ensures r.patchFlag == call.patchFlag && r.dynamicProps == call.dynamicProps && r.directives == call.directives
    ensures r.isForBlock == call.isForBlock && r.loc == call.loc
  {
    VNodeCall(call.vnodeTag, call.vnodeProps, call.vnodeChildren, call.patchFlag, call.dynamicProps, call.directives,
              true, call.isForBlock, call.loc)
  }

  /** The result of `injectProp`: the rewritten node and whether the
      `mergeProps` helper was needed. */
  datatype Injection = Injection(node: Node, usesMergeProps: bool)

  /** The props `injectProp` looks at: a vnode call's props, or the third
      argument of a `renderSlot` call. */
  function PropsOf(n: Node): Option<Node> {
    if n.VNodeCall? then n.vnodeProps
    else if n.CallExpression? && |n.args| > 2 then Some(n.args[2])
    else None
  }

  /** A property list already has a simple-expression key spelled `name`. */
  predicate HasKeyNamed(properties: seq<Property>, name: string) {
    exists i :: 0 <= i < |properties| && properties[i].key.SimpleExpression? && properties[i].key.content == name
  }

  /** The props with `prop` injected, following the four shapes props can
      take: none (or a plain string), a `mergeProps` call, an object literal,
      or a single spread expression. */
  function InjectInto(props: Option<Node>, prop: Property): (r: (Node, bool))
    ensures props.None? || props.value.Raw? ==> r.0 == ObjectExpression([prop], LocStub)
    ensures props.Some? && props.value.ObjectExpression? ==>
      r.0.ObjectExpression? &&
      if prop.key.SimpleExpression? && HasKeyNamed(props.value.properties, prop.key.content)
      then r.0 == props.value
      else r.0.properties == [prop] + props.value.properties
    ensures props.Some? && props.value.CallExpression? ==>
      r.0.CallExpression? && r.0.callee == props.value.callee && r.0.loc == props.value.loc &&
      if |props.value.args| > 0 && props.value.args[0].ObjectExpression?
      then |r.0.args| == |props.value.args| && r.0.args[1..] == props.value.args[1..]
           && r.0.args[0].ObjectExpression? && r.0.args[0].loc == props.value.args[0].loc
           && r.0.args[0].properties == [prop] + props.value.args[0].properties
      else r.0.args == [ObjectExpression([prop], LocStub)] + props.value.args
    ensures props.Some? && !props.value.Raw? && !props.value.CallExpression? && !props.value.ObjectExpression? ==>
      r.0 == CallHelper(MergeProps, [ObjectExpression([prop], LocStub), props.value])
    ensures r.1 <==> props.Some? && !props.value.Raw? && !props.value.CallExpression? && !props.value.ObjectExpression?
  {
    match props
    case None => (ObjectExpression([prop], LocStub), false)
    case Some(p) =>
      if p.Raw? then (ObjectExpression([prop], LocStub), false)
      else if p.CallExpression? then
        if |p.args| > 0 && p.args[0].ObjectExpression? then
          var first := p.args[0];
          (p.(args := [first.(properties := [prop] + first.properties)] + p.args[1..]), false)
        else
          (p.(args := [ObjectExpression([prop], LocStub)] + p.args), false)
      else if p.ObjectExpression? then
        var exists_ := prop.key.SimpleExpression? && HasKeyNamed(p.properties, prop.key.content);
        if exists_ then (p, false) else (p.(properties := [prop] + p.properties), false)
      else
        (CallHelper(MergeProps, [ObjectExpression([prop], LocStub), p]), true)
  }

  /** `injectProp`: puts `prop` first among a vnode call's (or `renderSlot`
      call's) props, never overriding a key the user wrote. A call with
      fewer than two arguments has no props slot to write and is left as it
      is. */
  function InjectProp(n: Node, prop: Property): (r: Injection)
    ensures !n.VNodeCall? && !(n.CallExpression? && |n.args| >= 2) ==> r.node == n && !r.usesMergeProps
    ensures n.VNodeCall? ==> r.node == n.(vnodeProps := Some(InjectInto(n.vnodeProps, prop).0))
    ensures n.CallExpression? && |n.args| >= 2 ==>
      r.node.CallExpression? && r.node.callee == n.callee && |r.node.args| == Max(|n.args|, 3)
      && r.node.args[..2] == n.args[..2] && r.node.args[3..] == n.args[Min(3, |n.args|)..]
      && r.node.args[2] == InjectInto(PropsOf(n), prop).0
  {
    if n.VNodeCall? then
      var (p, m) := InjectInto(n.vnodeProps, prop);
      Injection(n.(vnodeProps := Some(p)), m)
    else if n.CallExpression? && |n.args| >= 2 then
      var (p, m) := InjectInto(PropsOf(n), prop);
      var args := if |n.args| > 2 then n.args[2 := p] else n.args + [p];
      Injection(n.(args := args), m)
    else Injection(n, false)
  }

  /** A scope-variable table entry is truthy: present with a non-zero count. */
  predicate InScope(ids: map<string, int>, name: string) {
    name in ids && ids[name] != 0
  }

  /** The identifiers `hasScopeRef` can see in a node: non-static simple
      identifiers in directive arguments and expressions, loop sources,
      branch conditions, compound parts and interpolations. */
  function ScopeRefs(n: Node): set<string>
    decreases n, 1
  {
    match n
    case Element(_, _, _, props, children, _, _, _) =>
      PropRefs(props) + ChildRefs(children)
    case For(source, _, _, _, children, _, _) => ScopeRefs(source) + ChildRefs(children)
    case If(branches, _, _) => ChildRefs(branches)
    case IfBranch(condition, children, _) =>
      (if condition.Some? then ScopeRefs(condition.value) else {}) + ChildRefs(children)
    case SimpleExpression(content, isStatic, _, _) =>
      if !isStatic && IsSimpleIdentifier(content) then {content} else {}
    case CompoundExpression(children, _) => ChildRefs(children)
    case Interpolation(c, _) => ScopeRefs(c)
    case TextCall(c, _, _) => ScopeRefs(c)
    case _ => {}
  }

  function ChildRefs(ns: seq<Node>): set<string>
    decreases ns, 0
  {
    if |ns| == 0 then {} else ScopeRefs(ns[0]) + ChildRefs(ns[1..])
  }

  function PropRefs(props: seq<Prop>): set<string>
    decreases props
  {
    if |props| == 0 then {}
    else
      (if props[0].Directive? then
         (if props[0].arg.Some? then ScopeRefs(props[0].arg.value) else {})
         + (if props[0].exp.Some? then ScopeRefs(props[0].exp.value) else {})
       else {})
      + PropRefs(props[1..])
  }

  /** `hasScopeRef`: does the node mention a variable currently in scope? */
  function HasScopeRef(n: Option<Node>, ids: map<string, int>): bool {
    n.Some? && |ids| > 0 && NodeHasScopeRef(n.value, ids)
  }

  function NodeHasScopeRef(n: Node, ids: map<string, int>): bool
    decreases n, 1
  {
    match n
    case Element(_, _, _, props, children, _, _, _) =>
      PropsHaveScopeRef(props, ids) || ChildrenHaveScopeRef(children, ids)
    case For(source, _, _, _, children, _, _) =>
      NodeHasScopeRef(source, ids) || ChildrenHaveScopeRef(children, ids)
    case If(branches, _, _) => ChildrenHaveScopeRef(branches, ids)
    case IfBranch(condition, children, _) =>
      (condition.Some? && NodeHasScopeRef(condition.value, ids)) || ChildrenHaveScopeRef(children, ids)
    case SimpleExpression(content, isStatic, _, _) =>
      !isStatic && IsSimpleIdentifier(content) && InScope(ids, content)
    case CompoundExpression(children, _) => ChildrenHaveScopeRef(children, ids)
    case Interpolation(c, _) => NodeHasScopeRef(c, ids)
    case TextCall(c, _, _) => NodeHasScopeRef(c, ids)
    case _ => false
  }

  function ChildrenHaveScopeRef(ns: seq<Node>, ids: map<string, int>): bool
    decreases ns, 0
  {
    |ns| > 0 && (NodeHasScopeRef(ns[0], ids) || ChildrenHaveScopeRef(ns[1..], ids))
  }

  function PropsHaveScopeRef(props: seq<Prop>, ids: map<string, int>): bool
    decreases props
  {
    |props| > 0 &&
    ((props[0].Directive? &&
      ((props[0].arg.Some? && NodeHasScopeRef(props[0].arg.value, ids))
       || (props[0].exp.Some? && NodeHasScopeRef(props[0].exp.value, ids))))
     || PropsHaveScopeRef(props[1..], ids))
  }

  /** Some identifier of `refs` is a live scope variable. */
  predicate AnyInScope(ids: map<string, int>, refs: set<string>) {
    exists x :: x in refs && InScope(ids, x)
  }

  lemma AnyInScopeUnion(ids: map<string, int>, a: set<string>, b: set<string>)
    ensures AnyInScope(ids, a + b) <==> AnyInScope(ids, a) || AnyInScope(ids, b)
  {
  }

  /** `hasScopeRef` answers yes exactly when one of the identifiers the node
      mentions is a live scope variable. */
  lemma {:induction false} ScopeRefSound(n: Node, ids: map<string, int>)
    ensures NodeHasScopeRef(n, ids) <==> AnyInScope(ids, ScopeRefs(n))
    decreases n, 1
  {
    if n.Element? {
      PropsScopeRefSound(n.props, ids);
      ChildrenScopeRefSound(n.children, ids);
      AnyInScopeUnion(ids, PropRefs(n.props), ChildRefs(n.children));
    } else if n.For? {
      ScopeRefSound(n.source, ids);
      ChildrenScopeRefSound(n.children, ids);
      AnyInScopeUnion(ids, ScopeRefs(n.source), ChildRefs(n.children));
    } else if n.IfBranch? {
      if n.condition.Some? { ScopeRefSound(n.condition.value, ids); }
      ChildrenScopeRefSound(n.children, ids);
      BranchScopeRef(n, ids);
    } else if n.If? {
      ChildrenScopeRefSound(n.branches, ids);
    } else if n.CompoundExpression? {
      ChildrenScopeRefSound(n.children, ids);
    } else if n.Interpolation? || n.TextCall? {
      ScopeRefSound(n.contentNode, ids);
    } else {
      LeafScopeRef(n, ids);
    }
  }

  lemma BranchScopeRef(n: Node, ids: map<string, int>)
    requires n.IfBranch?
    requires n.condition.Some? ==> (NodeHasScopeRef(n.condition.value, ids) <==> AnyInScope(ids, ScopeRefs(n.condition.value)))
    requires ChildrenHaveScopeRef(n.children, ids) <==> AnyInScope(ids, ChildRefs(n.children))
    ensures NodeHasScopeRef(n, ids) <==> AnyInScope(ids, ScopeRefs(n))
  {
    var c := if n.condition.Some? then ScopeRefs(n.condition.value) else {};
    AnyInScopeUnion(ids, c, ChildRefs(n.children));
  }

  /** The nodes with no sub-expression `hasScopeRef` looks into. */
  lemma LeafScopeRef(n: Node, ids: map<string, int>)
    requires !n.Element? && !n.For? && !n.If? && !n.IfBranch? && !n.CompoundExpression?
    requires !n.Interpolation? && !n.TextCall?
    ensures NodeHasScopeRef(n, ids) <==> AnyInScope(ids, ScopeRefs(n))
  {
    if n.SimpleExpression? {
      assert InScope(ids, n.content) ==> n.content in {n.content};
    }
  }

  lemma {:induction false} ChildrenScopeRefSound(ns: seq<Node>, ids: map<string, int>)
    ensures ChildrenHaveScopeRef(ns, ids) <==> AnyInScope(ids, ChildRefs(ns))
    decreases ns, 0
  {
    if |ns| > 0 {
      ScopeRefSound(ns[0], ids);
      ChildrenScopeRefSound(ns[1..], ids);
      AnyInScopeUnion(ids, ScopeRefs(ns[0]), ChildRefs(ns[1..]));
    }
  }

  lemma {:induction false} PropsScopeRefSound(props: seq<Prop>, ids: map<string, int>)
    ensures PropsHaveScopeRef(props, ids) <==> AnyInScope(ids, PropRefs(props))
    decreases props
  {
    if |props| > 0 {
      var p := props[0];
      var a := if p.Directive? && p.arg.Some? then ScopeRefs(p.arg.value) else {};
      var e := if p.Directive? && p.exp.Some? then ScopeRefs(p.exp.value) else {};
      if p.Directive? {
        if p.arg.Some? { ScopeRefSound(p.arg.value, ids); }
        if p.exp.Some? { ScopeRefSound(p.exp.value, ids); }
      }
      PropsScopeRefSound(props[1..], ids);
      AnyInScopeUnion(ids, a, e);
      AnyInScopeUnion(ids, a + e, PropRefs(props[1..]));
      assert PropRefs(props) == (a + e) + PropRefs(props[1..]);
    }
  }
}
