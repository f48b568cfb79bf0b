/** The simple-identifier fast path of `processExpression`, and the places
    `transformExpression` applies it: a bare name that is not a scope
    variable and not a known global becomes a read of the render context
    (`_ctx.name`); a bare name that stays as it is, and is not a scope
    variable, is marked constant so the hoister may lift it. */
module Expressions {
  import opened Wrappers
  import opened Strings
  import opened Ast
  import opened AstUtils
  import opened TransformContext

  /** The literal names the fast path never prefixes. */
  predicate IsLiteralWhitelisted(name: string) {
    name == "true" || name == "false" || name == "null" || name == "this"
  }

  /** The prefix that turns a name into a read of the render context. */
  const CtxPrefix := "_ctx."

  /** What the fast path needs to know besides the expression: whether
      identifiers are prefixed at all, the scope table, and the platform's
      list of globals (`isGloballyWhitelisted`, which the model takes as a
      parameter). */
  datatype Scope = Scope(prefixIdentifiers: bool, identifiers: map<string, int>, isGlobal: string -> bool)

  /** A name the fast path rewrites to `_ctx.name`. */
  predicate Prefixed(sc: Scope, name: string, asParams: bool) {
    !asParams && !InScope(sc.identifiers, name) && !sc.isGlobal(name) && !IsLiteralWhitelisted(name)
  }

  /** The outcome of `processExpression`: the expression after the fast
      path, or `General` when the expression needs the general path (a
      parse of the JavaScript, outside this model). */
  datatype Processed = Done(node: Node) | General

  /** `processExpression` up to its general path. Nothing changes when
      identifiers are not prefixed or the expression is blank; a simple
      identifier is prefixed, or else marked constant unless it is a scope
      variable or holds a `(`. */
  function ProcessExpression(node: Node, sc: Scope, asParams: bool): (r: Processed)
    requires node.SimpleExpression?
    ensures !sc.prefixIdentifiers || Trim(node.content) == "" ==> r == Done(node)
    ensures sc.prefixIdentifiers && Trim(node.content) != "" ==> (r.General? <==> !IsSimpleIdentifier(node.content))
    ensures r.Done? ==> r.node.SimpleExpression? && r.node.isStatic == node.isStatic && r.node.loc == node.loc
    ensures r.Done? && r.node.content != node.content ==> r.node.content == CtxPrefix + node.content
    ensures r.Done? && !node.isConstant && r.node.isConstant ==> !InScope(sc.identifiers, node.content)
  {
    var raw := node.content;
    if !sc.prefixIdentifiers || Trim(raw) == "" then Done(node)
    else
      var bailConstant := '(' in raw;
      if IsSimpleIdentifier(raw) then
        if Prefixed(sc, raw, asParams) then Done(SimpleExpression(CtxPrefix + raw, node.isStatic, node.isConstant, node.loc))
        else if !InScope(sc.identifiers, raw) && !bailConstant then Done(SimpleExpression(raw, node.isStatic, true, node.loc))
        else Done(node)
      else General
  }

  /** A simple identifier never holds `(`, so the constant rule reduces to
      "not a scope variable". */
  lemma IdentifierHasNoParen(name: string)
    requires IsSimpleIdentifier(name)
    ensures '(' !in name
  {
  }

  /** The fast path on a non-blank simple identifier, both ways: the name
      is rewritten exactly when `Prefixed` holds, and is marked constant
      (having not been) exactly when it is neither rewritten nor a scope
      variable. */
  lemma FastPathIff(node: Node, sc: Scope, asParams: bool)
    requires node.SimpleExpression? && !node.isConstant
    requires sc.prefixIdentifiers && Trim(node.content) != "" && IsSimpleIdentifier(node.content)
    ensures ProcessExpression(node, sc, asParams).Done?
    ensures ProcessExpression(node, sc, asParams).node.content == CtxPrefix + node.content
            <==> Prefixed(sc, node.content, asParams)
    ensures ProcessExpression(node, sc, asParams).node.isConstant
            <==> !Prefixed(sc, node.content, asParams) && !InScope(sc.identifiers, node.content)
  {
    IdentifierHasNoParen(node.content);
    assert |CtxPrefix + node.content| > |node.content|;
  }

  /** The prefixed name is no longer a simple identifier, so a second pass
      hands it to the general path instead of prefixing it twice. */
  lemma PrefixedOnce(node: Node, sc: Scope, asParams: bool)
    requires node.SimpleExpression? && sc.prefixIdentifiers
    requires ProcessExpression(node, sc, asParams).Done?
    requires ProcessExpression(node, sc, asParams).node.content != node.content
    ensures !IsSimpleIdentifier(ProcessExpression(node, sc, asParams).node.content)
  {
    var c := ProcessExpression(node, sc, asParams).node.content;
    assert c[4] == '.';
    assert !IsIdentChar(c[4]);
  }

  /** Inside a scope that declares `names` (the aliases of a `v-for`, the
      props of a slot), each of those names is read as it is written, never
      from the render context. */
  lemma ScopeNameNotPrefixed(node: Node, sc: Scope, names: seq<string>, i: int, asParams: bool)
    requires node.SimpleExpression? && 0 <= i < |names| && node.content == names[i]
    requires forall x :: x in sc.identifiers ==> sc.identifiers[x] >= 0
    ensures ProcessExpression(node, sc.(identifiers := AddIds(sc.identifiers, names)), asParams) != General
            ==> ProcessExpression(node, sc.(identifiers := AddIds(sc.identifiers, names)), asParams).node.content == node.content
  {
    ScopeOpen(sc.identifiers, names, i);
  }

  /** Once the scope is closed again the fast path treats every name as it
      did before the scope was opened. */
  lemma ScopeClosedAgain(node: Node, sc: Scope, names: seq<string>, asParams: bool)
    requires node.SimpleExpression?
    ensures forall i :: 0 <= i < |names| ==> names[i] in AddIds(sc.identifiers, names)
    ensures ProcessExpression(node, sc.(identifiers := RemoveIds(AddIds(sc.identifiers, names), names)), asParams)
            == ProcessExpression(node, sc, asParams)
  {
    ScopeRestored(sc.identifiers, names, node.content);
  }

  // ---------------------------------------------------------------------
  // transformExpression
  // ---------------------------------------------------------------------

  /** The fast path's result, keeping the expression as it was where the
      general path would take over, and keeping anything that is not a
      simple expression (the directive transforms only ever hand over
      simple ones). */
  function Fast(node: Node, sc: Scope, asParams: bool): (r: Node)
    ensures !sc.prefixIdentifiers || !node.SimpleExpression? ==> r == node
    ensures node.SimpleExpression? ==>
              r.SimpleExpression? && r.loc == node.loc && r.isStatic == node.isStatic
              && (r.content == node.content || r.content == CtxPrefix + node.content)
    ensures node.SimpleExpression? && asParams ==> r.content == node.content
    ensures node.SimpleExpression? && sc.prefixIdentifiers && Trim(node.content) != "" && IsSimpleIdentifier(node.content)
            ==> (r.content == CtxPrefix + node.content <==> Prefixed(sc, node.content, asParams))
  {
    if !node.SimpleExpression? then node
    else
      match ProcessExpression(node, sc, asParams)
      case Done(n) => n
      case General => node
  }

  /** The directive expression `transformExpression` processes: any
      directive but `v-for`, whose expression is simple and which is not a
      `v-on` with an argument; `v-slot` expressions are function
      parameters. */
  function ProcessDirectiveExp(p: Prop, sc: Scope): (r: Prop)
  {
    if p.Directive? && p.name != "for" && p.exp.Some? && p.exp.value.SimpleExpression?
       && !(p.name == "on" && p.arg.Some?) then
      p.(exp := Some(Fast(p.exp.value, sc, p.name == "slot")))
    else p
  }

  /** The directive argument `transformExpression` processes: a dynamic
      simple argument of any directive but `v-for`. */
  function ProcessDirectiveArg(p: Prop, sc: Scope): (r: Prop)
  {
    if p.Directive? && p.name != "for" && p.arg.Some? && p.arg.value.SimpleExpression? && !p.arg.value.isStatic then
      p.(arg := Some(Fast(p.arg.value, sc, false)))
    else p
  }

  /** `transformExpression` on an element's props. */
  function TransformProps(props: seq<Prop>, sc: Scope): (r: seq<Prop>)
    ensures |r| == |props|
    ensures forall i :: 0 <= i < |props| && props[i].Attribute? ==> r[i] == props[i]
    ensures forall i :: 0 <= i < |props| && props[i].Directive? && props[i].name == "for" ==> r[i] == props[i]
    ensures forall i :: 0 <= i < |props| && props[i].Directive? ==>
              r[i].Directive? && r[i].name == props[i].name && r[i].modifiers == props[i].modifiers
              && r[i].loc == props[i].loc
    ensures forall i :: 0 <= i < |props| && props[i].Directive? && props[i].name == "on" && props[i].arg.Some? ==>
              r[i].exp == props[i].exp
    decreases |props|
  {
    if |props| == 0 then []
    else [ProcessDirectiveArg(ProcessDirectiveExp(props[0], sc), sc)] + TransformProps(props[1..], sc)
  }

  /** `transformExpression`: an interpolation's expression, or an element's
      directive expressions and dynamic arguments. */
  function TransformExpression(node: Node, sc: Scope): (r: Node)
    ensures node.Interpolation? && node.contentNode.SimpleExpression? ==>
              r == Interpolation(Fast(node.contentNode, sc, false), node.loc)
    ensures node.Element? ==> r == node.(props := TransformProps(node.props, sc))
    ensures !node.Interpolation? && !node.Element? ==> r == node
  {
    if node.Interpolation? && node.contentNode.SimpleExpression? then
      Interpolation(Fast(node.contentNode, sc, false), node.loc)
    else if node.Element? then node.(props := TransformProps(node.props, sc))
    else node
  }

  /** A `v-slot` expression names the slot's props, so it is never read
      from the render context, whatever the scope holds. */
  lemma SlotPropsNeverPrefixed(p: Prop, sc: Scope)
    requires p.Directive? && p.name == "slot" && p.exp.Some? && p.exp.value.SimpleExpression?
    ensures ProcessDirectiveExp(p, sc).exp.value.content == p.exp.value.content
  {
  }
}
