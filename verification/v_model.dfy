/** `v-model` (`transformModel`): the checks on the bound expression, in
    the order the compiler makes them, and the props a valid binding turns
    into — the value, the update handler and, on a component, the
    modifiers object. */
module VModel {
  import opened Wrappers
  import opened Strings
  import opened Positions
  import opened Ast
  import opened AstUtils
  import opened TransformContext
  import ErrorCodes

  /** The compiler settings the transform reads. */
  datatype Options = Options(prefixIdentifiers: bool, cacheHandlers: bool)

  /** What the transform returns, with the errors it reported and the
      context after it. */
  datatype ModelResult = ModelResult(props: seq<Property>, errors: seq<CompilerError>, state: State)

  /** The text `isMemberExpression` is asked about: a simple expression's
      content, or the source text of any other expression. */
  function ExpString(exp: Node): string {
    if exp.SimpleExpression? then exp.content else LocOf(exp).source
  }

  /** The third check: with identifier prefixing on, an expression that is
      just the name of a variable of an enclosing scope cannot be assigned. */
  predicate ScopeVariable(o: Options, s: State, exp: Node) {
    o.prefixIdentifiers && IsSimpleIdentifier(ExpString(exp)) && InScope(s.identifiers, ExpString(exp))
  }

  /** Whether a directive passes all three checks. */
  predicate Valid(o: Options, s: State, dir: Prop)
    requires dir.Directive?
  {
    dir.exp.Some? && IsMemberExpression(ExpString(dir.exp.value)) && !ScopeVariable(o, s, dir.exp.value)
  }

  /** The error a directive earns: the first check it fails, located at the
      directive for a missing expression and at the expression otherwise. */
  function FirstError(o: Options, s: State, dir: Prop): (r: Option<CompilerError>)
    requires dir.Directive?
  {
    if dir.exp.None? then Some(CompilerError(ErrorCodes.VModelNoExpression, dir.loc.start))
    else if !IsMemberExpression(ExpString(dir.exp.value)) then
      Some(CompilerError(ErrorCodes.VModelMalformedExpression, LocOf(dir.exp.value).start))
    else if ScopeVariable(o, s, dir.exp.value) then
      Some(CompilerError(ErrorCodes.VModelOnScopeVariable, LocOf(dir.exp.value).start))
    else None
  }

  /** A static argument: a name known at compile time. */
  predicate StaticArg(arg: Option<Node>) {
    arg.Some? && arg.value.SimpleExpression? && arg.value.isStatic
  }

  /** The key of the update handler: `onUpdate:` and the static name, a
      run-time concatenation for a dynamic argument, or
      `onUpdate:modelValue`. */
  function EventKey(arg: Option<Node>): (r: Node)
    ensures arg.None? || StaticArg(arg) <==> r.SimpleExpression?
    ensures r.SimpleExpression? ==>
              r.isStatic && r.content == "onUpdate:" + (if arg.Some? then arg.value.content else "modelValue")
    ensures !r.SimpleExpression? ==> r.CompoundExpression? && arg.value in r.children
  {
    if arg.Some? then
      if StaticArg(arg) then Simple("onUpdate:" + arg.value.content, true)
      else CompoundExpression([Raw("\"onUpdate:\" + "), arg.value], LocStub)
    else Simple("onUpdate:modelValue", true)
  }

  /** The key of the modifiers object, built the same way from `Modifiers`. */
  function ModifiersKey(arg: Option<Node>): (r: Node)
    ensures arg.None? || StaticArg(arg) <==> r.SimpleExpression?
    ensures r.SimpleExpression? ==>
              r.isStatic && r.content == (if arg.Some? then arg.value.content else "model") + "Modifiers"
    ensures !r.SimpleExpression? ==> r.CompoundExpression? && arg.value in r.children
  {
    if arg.Some? then
      if StaticArg(arg) then Simple(arg.value.content + "Modifiers", true)
      else CompoundExpression([arg.value, Raw(" + \"Modifiers\"")], LocStub)
    else Simple("modelModifiers", true)
  }

  /** A modifier as an object key: bare when it is an identifier, quoted
      otherwise. */
  function ModifierKey(m: string): string {
    if IsSimpleIdentifier(m) then m else JsonQuote(m)
  }

  /** The modifiers object literal, `{ m: true, ... }`. */
  function ModifiersText(mods: seq<string>): string {
    "{ " + Join(seq(|mods|, i requires 0 <= i < |mods| => ModifierKey(mods[i]) + ": true"), ", ") + " }"
  }

  /** The update handler: an arrow function assigning `$event` to the bound
      expression. */
  function Handler(exp: Node): Node {
    CompoundExpression([Raw("$event => ("), exp, Raw(" = $event)")], LocStub)
  }

  /** The handler is cached when identifiers are prefixed, handler caching
      is on and it mentions no variable of an enclosing scope. */
  predicate Cacheable(o: Options, s: State, exp: Node) {
    o.prefixIdentifiers && o.cacheHandlers && !HasScopeRef(Some(exp), s.identifiers)
  }

  /** The update handler prop: the handler, in a fresh cache slot when it
      can be cached, under the `onUpdate:` key. Only a cached handler uses a
      cache slot. */
  function UpdateProp(o: Options, s: State, exp: Node, arg: Option<Node>): (r: (Property, State))
    ensures r.0.key == EventKey(arg)
    ensures Cacheable(o, s, exp) <==> r.0.value.CacheExpression?
    ensures Cacheable(o, s, exp) ==>
              r.0.value == CacheExpression(s.cached + 1, Handler(exp), false) && r.1.cached == s.cached + 1
    ensures !Cacheable(o, s, exp) ==> r.0.value == Handler(exp) && r.1 == s
    ensures r.1.identifiers == s.identifiers && r.1.hoists == s.hoists && r.1.helpers == s.helpers
  {
    if Cacheable(o, s, exp) then
      var (s1, h) := Cache(s, Handler(exp), false);
      (Property(EventKey(arg), h), s1)
    else (Property(EventKey(arg), Handler(exp)), s)
  }

  /** The props of a valid binding: the value prop, keyed by the argument or
      `modelValue`, the update handler, keyed `onUpdate:` plus the value's
      key, and, on a component with modifiers, the modifiers object. */
  function ModelProps(o: Options, s: State, exp: Node, arg: Option<Node>, mods: seq<string>, tagType: ElementType,
                      loc: SourceLocation): (r: (seq<Property>, State))
    ensures |r.0| == (if |mods| > 0 && tagType == Component then 3 else 2)
    ensures r.0[0].value == exp
    ensures arg.Some? ==> r.0[0].key == arg.value
    ensures arg.None? ==> r.0[0].key == Simple("modelValue", true)
    ensures (r.0[1], r.1) == UpdateProp(o, s, exp, arg)
    ensures |r.0| == 3 ==> r.0[2] == Property(ModifiersKey(arg), SimpleExpression(ModifiersText(mods), false, true, loc))
  {
    var propName := if arg.Some? then arg.value else Simple("modelValue", true);
    var (update, s1) := UpdateProp(o, s, exp, arg);
    if |mods| > 0 && tagType == Component then
      ([Property(propName, exp), update, Property(ModifiersKey(arg), SimpleExpression(ModifiersText(mods), false, true, loc))], s1)
    else ([Property(propName, exp), update], s1)
  }

  /** `transformModel` on a directive of an element of the given kind. The
      checks run in order and the first one that fails is the only error: a
      binding reports an error exactly when it is not valid, and then
      produces no props and leaves the context alone. */
  function TransformModel(o: Options, s: State, dir: Prop, tagType: ElementType): (r: ModelResult)
    requires dir.Directive?
    ensures Valid(o, s, dir) <==> r.errors == []
    ensures !Valid(o, s, dir) ==> r.props == [] && r.state == s && |r.errors| == 1
    ensures dir.exp.None? ==> r.errors == [CompilerError(ErrorCodes.VModelNoExpression, dir.loc.start)]
    ensures dir.exp.Some? && !IsMemberExpression(ExpString(dir.exp.value)) ==>
              r.errors == [CompilerError(ErrorCodes.VModelMalformedExpression, LocOf(dir.exp.value).start)]
    ensures dir.exp.Some? && IsMemberExpression(ExpString(dir.exp.value)) && ScopeVariable(o, s, dir.exp.value) ==>
              r.errors == [CompilerError(ErrorCodes.VModelOnScopeVariable, LocOf(dir.exp.value).start)]
    ensures Valid(o, s, dir) ==> (r.props, r.state) == ModelProps(o, s, dir.exp.value, dir.arg, dir.modifiers, tagType, dir.loc)
  {
    var err := FirstError(o, s, dir);
    if err.Some? then ModelResult([], [err.value], s)
    else
      var (props, s1) := ModelProps(o, s, dir.exp.value, dir.arg, dir.modifiers, tagType, dir.loc);
      ModelResult(props, [], s1)
  }

  /** Each modifier reads back from its key: an identifier stands as it is,
      anything else as a string literal of its text. */
  lemma ModifierKeyRoundTrip(m: string)
    ensures IsSimpleIdentifier(m) ==> ModifierKey(m) == m
    ensures !IsSimpleIdentifier(m) ==> JsonUnquote(ModifierKey(m)) == Some(m)
  {
    if !IsSimpleIdentifier(m) {
      JsonRoundTrip(m);
    }
  }
}
