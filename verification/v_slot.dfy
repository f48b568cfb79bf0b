/** `buildSlots`: the slots object a component's children compile to. A
    `v-slot` on the component itself makes one slot of all its children;
    otherwise each `<template v-slot>` child is a named slot, those with
    `v-if` / `v-else` / `v-for` becoming dynamic slots passed to
    `createSlots`, and the remaining children form the implicit default
    slot. */
module VSlot {
  import opened Wrappers
  import opened Positions
  import opened Ast
  import opened AstUtils
  import opened TransformContext
  import ErrorCodes
  import Expressions
  import VFor
  import VIf

  /** The alternate of a conditional slot whose condition fails. */
  const DefaultFallback := Simple("undefined", false)

  /** `isStaticExp`. */
  predicate IsStaticExp(n: Node) {
    n.SimpleExpression? && n.isStatic
  }

  /** `buildClientSlotFn`: a slot function returning the children, located
      at the first child when there is one. */
  function SlotFn(params: Option<Node>, children: seq<Node>, loc: SourceLocation): (r: Node)
    ensures r.FunctionExpression? && r.isSlot && !r.newline && r.params == params
    ensures r.returnValue == Some(NodeList(children))
  {
    FunctionExpression(params, Some(NodeList(children)), false, true, if |children| > 0 then LocOf(children[0]) else loc)
  }

  /** `buildDynamicSlot`: an object `{ name, fn }`. */
  function DynamicSlot(name: Node, fn: Node): (r: Node)
    ensures r.ObjectExpression? && |r.properties| == 2
    ensures r.properties[0] == PropertyOf("name", name) && r.properties[1] == PropertyOf("fn", fn)
  {
    ObjectExpression([PropertyOf("name", name), PropertyOf("fn", fn)], LocStub)
  }

  /** The name a slot directive gives its slot: its argument, or a static
      `default`. */
  function SlotName(dir: Prop): Node
    requires dir.Directive?
  {
    dir.arg.GetOr(Simple("default", true))
  }

  /** A property whose key is a static, non-empty name: the names the
      duplicate check compares. */
  predicate StaticKey(p: Property) {
    p.key.SimpleExpression? && p.key.isStatic && p.key.content != ""
  }

  /** No two slot properties share a static name. */
  predicate DistinctStatic(props: seq<Property>) {
    forall i, j :: 0 <= i < j < |props| && StaticKey(props[i]) && StaticKey(props[j]) ==>
      props[i].key.content != props[j].key.content
  }

  /** `<template v-slot>`: the child's slot directive, if it is one. */
  function TemplateSlotDir(child: Node): (r: Option<Prop>)
    ensures r.Some? ==> IsTemplateNode(child) && r.value.Directive? && r.value.name == "slot"
  {
    if IsTemplateNode(child) then FindDir(child.props, {"slot"}, true) else None
  }

  /** How the expression of a `v-for` slot reads: not a simple expression
      (its text cannot be matched, so the program throws), not an
      `alias in source` form, or parsed. */
  datatype ForSource = NotSimple | Malformed | Parsed(parse: VFor.ForParse)

  /** The four kinds of template slot, told apart by the child's first
      `v-if`, else its `v-else` / `v-else-if`, else its `v-for`. */
  datatype SlotKind =
    | IfSlot(test: Node)
    | ElseSlotOf(exp: Option<Node>, loc: SourceLocation)
    | ForSlotOf(loc: SourceLocation, source: ForSource)
    | PlainSlot

  /** The kind of a child. A `v-for` slot's expression is parsed, and with
      prefixed identifiers processed, in the scope `ps`. */
  function KindOf(n: Node, ps: Expressions.Scope): (k: SlotKind)
  {
    if !n.Element? then PlainSlot
    else
      var vIf := FindDir(n.props, {"if"}, false);
      if vIf.Some? then IfSlot(vIf.value.exp.value)
      else
        var vElse := FindDir(n.props, {"else", "else-if"}, true);
        if vElse.Some? then ElseSlotOf(vElse.value.exp, vElse.value.loc)
        else
          var vFor := FindDir(n.props, {"for"}, false);
          if vFor.None? then PlainSlot
          else
            var e := vFor.value.exp.value;
            ForSlotOf(vFor.value.loc,
                      if !e.SimpleExpression? then NotSimple
                      else match VFor.ParseForExpression(e, ps)
                        case None => Malformed
                        case Some(p) => Parsed(p))
  }

  /** A child as the loop over the children sees it: the node, its slot
      directive when it is a `<template v-slot>`, and the kind of slot its
      other directives make it. */
  datatype Child = Child(node: Node, slot: Option<Prop>, kind: SlotKind)

  /** The facts about a child the loop relies on. */
  predicate Shaped(c: Child) {
    c.slot.Some? ==> c.node.Element? && c.slot.value.Directive?
  }

  function Classify(n: Node, ps: Expressions.Scope): (c: Child)
    ensures c.node == n && c.slot == TemplateSlotDir(n) && c.kind == KindOf(n, ps) && Shaped(c)
  {
    Child(n, TemplateSlotDir(n), KindOf(n, ps))
  }

  function ClassifyAll(ns: seq<Node>, ps: Expressions.Scope): (cs: seq<Child>)
    ensures |cs| == |ns| && forall i :: 0 <= i < |ns| ==> cs[i] == Classify(ns[i], ps)
    decreases |ns|
  {
    if |ns| == 0 then [] else [Classify(ns[0], ps)] + ClassifyAll(ns[1..], ps)
  }

  /** The last child that is not a comment: what the backwards scan for a
      `v-if` sibling stops at. */
  function LastNonComment(kept: seq<Child>): (r: Option<Child>)
    ensures r.Some? ==> !r.value.node.Comment?
    decreases |kept|
  {
    if |kept| == 0 then None
    else if !kept[|kept| - 1].node.Comment? then Some(kept[|kept| - 1])
    else LastNonComment(kept[..|kept| - 1])
  }

  /** A `<template>` with a `v-if` expression. */
  predicate IsIfTemplate(c: Child) {
    IsTemplateNode(c.node) && c.kind.IfSlot?
  }

  /** What the loop over the children has gathered: the static slot
      properties, the dynamic slots, the flags, the implicit default
      children, the static names seen, the errors reported, the children
      still in place (a `v-else` slot is spliced out), the helpers, and
      whether the loop broke off or the program would have thrown. */
  datatype Acc = Acc(
    props: seq<Property>,
    dynamic: seq<Node>,
    hasDynamic: bool,
    hasTemplateSlots: bool,
    hasNamedDefault: bool,
    implicit: seq<Node>,
    seen: set<string>,
    errors: seq<CompilerError>,
    kept: seq<Child>,
    helpers: seq<Helper>,
    stopped: bool,
    threw: bool)

  /** A child that is not a template slot: kept, and part of the implicit
      default slot unless it is a comment. */
  function Implicit(c: Child, acc: Acc): (r: Acc)
    ensures r.props == acc.props && r.seen == acc.seen && r.dynamic == acc.dynamic && r.errors == acc.errors
    ensures r.hasDynamic == acc.hasDynamic && r.hasTemplateSlots == acc.hasTemplateSlots && r.helpers == acc.helpers
    ensures r.hasNamedDefault == acc.hasNamedDefault && r.threw == acc.threw && r.stopped == acc.stopped
    ensures r.kept == acc.kept + [c]
  {
    acc.(implicit := if c.node.Comment? then acc.implicit else acc.implicit + [c.node], kept := acc.kept + [c])
  }

  /** A `v-if` slot: a conditional dynamic slot falling back to
      `undefined`. */
  function IfSlotStep(c: Child, test: Node, dyn: Node, acc: Acc): (r: Acc)
    ensures r.props == acc.props && r.seen == acc.seen && r.hasNamedDefault == acc.hasNamedDefault
    ensures r.hasTemplateSlots == acc.hasTemplateSlots && r.hasDynamic && r.errors == acc.errors
    ensures r.threw == acc.threw && r.stopped == acc.stopped && r.kept == acc.kept + [c]
    ensures r.dynamic == acc.dynamic + [ConditionalExpression(test, dyn, DefaultFallback, true)]
  {
    acc.(hasDynamic := true, kept := acc.kept + [c],
         dynamic := acc.dynamic + [ConditionalExpression(test, dyn, DefaultFallback, true)])
  }

  /** A `v-else` / `v-else-if` slot: attached to the conditional of the
      `v-if` slot before it, or an error when there is none. Attaching to a
      dynamic slot that is not a conditional reads a field of `undefined`,
      so the program throws. */
  function ElseSlot(c: Child, exp: Option<Node>, loc: SourceLocation, dyn: Node, acc: Acc): (r: Acc)
    ensures r.props == acc.props && r.seen == acc.seen && r.hasNamedDefault == acc.hasNamedDefault
    ensures r.hasTemplateSlots == acc.hasTemplateSlots && r.hasDynamic == acc.hasDynamic && r.stopped == acc.stopped
    ensures r.errors == acc.errors || r.errors == acc.errors + [CompilerError(ErrorCodes.VElseNoAdjacentIf, loc.start)]
  {
    var prev := LastNonComment(acc.kept);
    if prev.Some? && IsIfTemplate(prev.value) then
      var n := |acc.dynamic|;
      if n == 0 || !acc.dynamic[n - 1].ConditionalExpression? then acc.(threw := true)
      else
        var arm := if exp.Some? then ConditionalExpression(exp.value, dyn, DefaultFallback, true) else dyn;
        acc.(dynamic := acc.dynamic[..n - 1] + [VIf.Attach(acc.dynamic[n - 1], arm)])
    else
      acc.(errors := acc.errors + [CompilerError(ErrorCodes.VElseNoAdjacentIf, loc.start)], kept := acc.kept + [c])
  }

  /** A `v-for` slot: a `renderList` over the source building one dynamic
      slot per item, or an error when the expression does not parse. */
  function ForSlot(c: Child, loc: SourceLocation, source: ForSource, dyn: Node, acc: Acc): (r: Acc)
    ensures r.props == acc.props && r.seen == acc.seen && r.hasNamedDefault == acc.hasNamedDefault
    ensures r.hasTemplateSlots == acc.hasTemplateSlots && r.hasDynamic && r.stopped == acc.stopped
    ensures r.kept == acc.kept + [c] && r.threw == (acc.threw || source.NotSimple?)
    ensures r.errors == acc.errors || r.errors == acc.errors + [CompilerError(ErrorCodes.VForMalformedExpression, loc.start)]
  {
    var acc1 := acc.(hasDynamic := true, kept := acc.kept + [c]);
    match source
    case NotSimple => acc1.(threw := true)
    case Malformed => acc1.(errors := acc.errors + [CompilerError(ErrorCodes.VForMalformedExpression, loc.start)])
    case Parsed(p) =>
      var params := NodeList(VFor.ForLoopParams(p.value, p.key, p.index));
      var call := CallHelper(RenderList, [p.source, FunctionExpression(Some(params), Some(dyn), true, false, LocStub)]);
      acc1.(dynamic := acc.dynamic + [call], helpers := AddOnce(acc.helpers, RenderList))
  }

  /** A slot with neither condition nor loop: a property of the slots
      object, unless its static name was seen before. */
  function NamedSlot(c: Child, dir: Prop, name: Node, fn: Node, acc: Acc): (r: Acc)
    requires dir.Directive?
    ensures r.hasTemplateSlots == acc.hasTemplateSlots && r.hasDynamic == acc.hasDynamic && r.dynamic == acc.dynamic
    ensures r.threw == acc.threw && r.stopped == acc.stopped && r.kept == acc.kept + [c]
    ensures r.errors == acc.errors || r.errors == acc.errors + [CompilerError(ErrorCodes.VSlotDuplicateSlotNames, dir.loc.start)]
  {
    var acc1 := acc.(kept := acc.kept + [c]);
    if IsStaticExp(name) && name.content != "" then
      if name.content in acc.seen then
        acc1.(errors := acc.errors + [CompilerError(ErrorCodes.VSlotDuplicateSlotNames, dir.loc.start)])
      else
        acc1.(seen := acc.seen + {name.content}, hasNamedDefault := acc.hasNamedDefault || name.content == "default",
              props := acc.props + [Property(name, fn)])
    else acc1.(props := acc.props + [Property(name, fn)])
  }

  /** The state a template slot starts from: template slots were seen, and
      a slot whose name is only known at run time makes the slots
      dynamic. */
  function Opened(dir: Prop, acc: Acc): Acc
    requires dir.Directive?
  {
    acc.(hasTemplateSlots := true, hasDynamic := acc.hasDynamic || !IsStaticExp(SlotName(dir)))
  }

  /** One `<template v-slot>` child when the component has no slot of its
      own. */
  function TemplateSlot(c: Child, dir: Prop, acc: Acc): (r: Acc)
    requires c.node.Element? && dir.Directive?
    ensures r.hasTemplateSlots && r.stopped == acc.stopped
    ensures !c.kind.PlainSlot? ==> r.props == acc.props && r.seen == acc.seen && r.hasNamedDefault == acc.hasNamedDefault
  {
    var name := SlotName(dir);
    var fn := SlotFn(dir.exp, c.node.children, c.node.loc);
    var dyn := DynamicSlot(name, fn);
    match c.kind
    case IfSlot(test) => IfSlotStep(c, test, dyn, Opened(dir, acc))
    case ElseSlotOf(exp, loc) => ElseSlot(c, exp, loc, dyn, Opened(dir, acc))
    case ForSlotOf(loc, source) => ForSlot(c, loc, source, dyn, Opened(dir, acc))
    case PlainSlot => NamedSlot(c, dir, name, fn, Opened(dir, acc))
  }

  /** One pass of the loop over the children. */
  function Step(c: Child, onComponent: bool, acc: Acc): (r: Acc)
    requires Shaped(c)
  {
    if c.slot.None? then Implicit(c, acc)
    else if onComponent then
      acc.(errors := acc.errors + [CompilerError(ErrorCodes.VSlotMixedSlotUsage, c.slot.value.loc.start)],
           kept := acc.kept + [c], stopped := true)
    else TemplateSlot(c, c.slot.value, acc)
  }

  /** All children were classified. */
  predicate AllShaped(cs: seq<Child>) {
    forall i :: 0 <= i < |cs| ==> Shaped(cs[i])
  }

  /** The loop over the children, until it breaks off or throws. */
  function Loop(cs: seq<Child>, onComponent: bool, acc: Acc): (r: Acc)
    requires AllShaped(cs)
    decreases |cs|
  {
    if |cs| == 0 || acc.stopped || acc.threw then acc
    else Loop(cs[1..], onComponent, Step(cs[0], onComponent, acc))
  }

  /** What the caller of `buildSlots` learns about the slot's surroundings:
      whether identifiers are prefixed, the depth of enclosing slots and
      loops, the scope variables, and the platform's globals. */
  datatype SlotScope = SlotScope(prefixIdentifiers: bool, vSlot: nat, vFor: nat, identifiers: map<string, int>,
                                 isGlobal: string -> bool)

  /** The scope a `v-for` slot's expression is processed in. */
  function ParseScope(sc: SlotScope): Expressions.Scope {
    Expressions.Scope(sc.prefixIdentifiers, sc.identifiers, sc.isGlobal)
  }

  /** The result of `buildSlots`: the slots expression, whether the slots
      must be patched as dynamic, the errors reported, the helpers. */
  datatype Slots = Slots(slots: Node, hasDynamicSlots: bool, errors: seq<CompilerError>, helpers: seq<Helper>)

  /** The slot on the component itself (`<Comp v-slot="props">`). */
  function OnComponentSlot(node: Node): (r: Option<Prop>)
    requires node.Element?
    ensures r.Some? ==> r.value.Directive? && r.value.name == "slot"
  {
    FindDir(node.props, {"slot"}, true)
  }

  /** Whether the slots start out dynamic: with prefixing, when the
      component mentions a scope variable; otherwise when it sits in a
      slot or a loop. */
  function StartsDynamic(node: Node, sc: SlotScope): bool {
    if sc.prefixIdentifiers then HasScopeRef(Some(node), sc.identifiers) else sc.vSlot > 0 || sc.vFor > 0
  }

  /** The state the loop starts from. */
  function Start(node: Node, sc: SlotScope, helpers: seq<Helper>): (r: Acc)
    requires node.Element?
    ensures r.dynamic == [] && r.errors == [] && r.kept == [] && r.seen == {} && !r.stopped && !r.threw
    ensures !r.hasTemplateSlots && !r.hasNamedDefault && r.hasDynamic == StartsDynamic(node, sc)
    ensures r.helpers == AddOnce(helpers, WithCtx)
    ensures r.props == match OnComponentSlot(node)
                       case Some(d) => [Property(SlotName(d), SlotFn(d.exp, node.children, node.loc))]
                       case None => []
  {
    var onComp := OnComponentSlot(node);
    var props := if onComp.Some? then [Property(SlotName(onComp.value), SlotFn(onComp.value.exp, node.children, node.loc))] else [];
    Acc(props, [], StartsDynamic(node, sc), false, false, [], {}, [], [], AddOnce(helpers, WithCtx), false, false)
  }

  /** The properties of the slots object before its `_` marker: the loop's
      properties, then the implicit default slot when there is one. */
  function FinalProps(node: Node, onComponent: bool, acc: Acc): (r: (seq<Property>, seq<CompilerError>))
    requires node.Element?
  {
    if onComponent then (acc.props, acc.errors)
    else if !acc.hasTemplateSlots then (acc.props + [PropertyOf("default", SlotFn(None, node.children, node.loc))], acc.errors)
    else if |acc.implicit| > 0 then
      if acc.hasNamedDefault then
        (acc.props, acc.errors + [CompilerError(ErrorCodes.VSlotExtraneousDefaultSlotChildren, LocOf(acc.implicit[0]).start)])
      else (acc.props + [PropertyOf("default", SlotFn(None, acc.implicit, node.loc))], acc.errors)
    else (acc.props, acc.errors)
  }

  /** The marker property every compiled slots object ends with. */
  const CompiledMarker := PropertyOf("_", Simple("1", false))

  /** The result once the loop is done. */
  function Finish(node: Node, onComponent: bool, acc: Acc): (r: Option<Slots>)
    requires node.Element?
  {
    if acc.threw then None
    else
      var (props, errors) := FinalProps(node, onComponent, acc);
      var obj := ObjectExpression(props + [CompiledMarker], node.loc);
      if |acc.dynamic| > 0 then
        Some(Slots(CallHelper(CreateSlots, [obj, ArrayExpression(acc.dynamic, LocStub)]), acc.hasDynamic, errors,
                   AddOnce(acc.helpers, CreateSlots)))
      else Some(Slots(obj, acc.hasDynamic, errors, acc.helpers))
  }

  /** `buildSlots` on a component element; nothing when the program
      throws. */
  function BuildSlots(node: Node, sc: SlotScope, helpers: seq<Helper>): (r: Option<Slots>)
    requires node.Element?
  {
    var onComp := OnComponentSlot(node).Some?;
    Finish(node, onComp, Loop(ClassifyAll(node.children, ParseScope(sc)), onComp, Start(node, sc, helpers)))
  }

  /** The slots object inside the result. */
  function ObjectOf(slots: Node): Node {
    if slots.CallExpression? && |slots.args| == 2 then slots.args[0] else slots
  }

  // ---------------------------------------------------------------------
  // Properties
  // ---------------------------------------------------------------------

  /** A child that is not a template slot only joins the implicit default
      slot. */
  lemma StepImplicit(c: Child, onComponent: bool, acc: Acc)
    requires Shaped(c) && c.slot.None?
    ensures Step(c, onComponent, acc) == Implicit(c, acc)
  {
  }

  /** The loop over children none of which is a template slot gathers no
      slot and reports nothing. */
  lemma {:induction false} LoopWithoutTemplateSlots(cs: seq<Child>, onComponent: bool, acc: Acc)
    requires AllShaped(cs) && forall i :: 0 <= i < |cs| ==> cs[i].slot.None?
    requires !acc.stopped && !acc.threw
    ensures var r := Loop(cs, onComponent, acc);
            && r.props == acc.props && r.dynamic == acc.dynamic && r.errors == acc.errors && r.helpers == acc.helpers
            && r.hasDynamic == acc.hasDynamic && r.hasTemplateSlots == acc.hasTemplateSlots && !r.threw
    decreases |cs|
  {
    if |cs| > 0 {
      StepImplicit(cs[0], onComponent, acc);
      LoopWithoutTemplateSlots(cs[1..], onComponent, Step(cs[0], onComponent, acc));
    }
  }

  lemma FinalPropsWithoutTemplates(node: Node, acc: Acc)
    requires node.Element? && !acc.hasTemplateSlots
    ensures FinalProps(node, false, acc) == (acc.props + [PropertyOf("default", SlotFn(None, node.children, node.loc))], acc.errors)
  {
  }

  /** A component with no slot directive at all gets one default slot of
      all its children (comments included), no dynamic slot and no
      error. */
  lemma ImplicitDefaultOnly(node: Node, sc: SlotScope, helpers: seq<Helper>)
    requires node.Element? && OnComponentSlot(node).None?
    requires forall i :: 0 <= i < |node.children| ==> TemplateSlotDir(node.children[i]).None?
    ensures BuildSlots(node, sc, helpers)
            == Some(Slots(ObjectExpression([PropertyOf("default", SlotFn(None, node.children, node.loc)), CompiledMarker], node.loc),
                          StartsDynamic(node, sc), [], AddOnce(helpers, WithCtx)))
  {
    var start := Start(node, sc, helpers);
    var cs := ClassifyAll(node.children, ParseScope(sc));
    LoopWithoutTemplateSlots(cs, false, start);
    var acc := Loop(cs, false, start);
    FinalPropsWithoutTemplates(node, acc);
    var dflt := PropertyOf("default", SlotFn(None, node.children, node.loc));
    assert acc.props + [dflt] + [CompiledMarker] == [dflt, CompiledMarker];
  }

  // ----- slot names -----

  /** What the loop keeps true about slot names: every static name among
      the properties was recorded as seen, no two are equal, `default` was
      seen exactly when a named default slot was, and before the first
      template slot there is no property. With a slot on the component the
      loop adds no property at all. */
  predicate NamesKept(acc: Acc, onComponent: bool) {
    if onComponent then |acc.props| <= 1
    else
      && (forall k :: 0 <= k < |acc.props| && StaticKey(acc.props[k]) ==> acc.props[k].key.content in acc.seen)
      && DistinctStatic(acc.props)
      && (acc.hasNamedDefault <==> "default" in acc.seen)
      && (!acc.hasTemplateSlots ==> acc.props == [])
  }

  /** A property whose static name is unseen keeps the names distinct. */
  lemma DistinctPush(props: seq<Property>, seen: set<string>, p: Property)
    requires forall k :: 0 <= k < |props| && StaticKey(props[k]) ==> props[k].key.content in seen
    requires DistinctStatic(props)
    requires StaticKey(p) ==> p.key.content !in seen
    ensures DistinctStatic(props + [p])
  {
    var ps := props + [p];
    forall i, j | 0 <= i < j < |ps| && StaticKey(ps[i]) && StaticKey(ps[j])
      ensures ps[i].key.content != ps[j].key.content
    {
      if j == |props| {
        assert ps[i] == props[i];
      } else {
        assert ps[i] == props[i] && ps[j] == props[j];
      }
    }
  }

  /** A named slot with a fresh static name, or a name the check skips,
      keeps the names apart. */
  lemma NamedSlotNames(c: Child, dir: Prop, name: Node, fn: Node, acc: Acc)
    requires dir.Directive? && NamesKept(acc, false) && acc.hasTemplateSlots
    ensures NamesKept(NamedSlot(c, dir, name, fn, acc), false)
  {
    var r := NamedSlot(c, dir, name, fn, acc);
    var p := Property(name, fn);
    if IsStaticExp(name) && name.content != "" {
      if name.content !in acc.seen {
        assert r.props == acc.props + [p] && r.seen == acc.seen + {name.content};
        assert r.hasNamedDefault == (acc.hasNamedDefault || name.content == "default");
        DistinctPush(acc.props, acc.seen, p);
        assert forall k :: 0 <= k < |r.props| - 1 ==> r.props[k] == acc.props[k];
      } else {
        assert r.props == acc.props && r.seen == acc.seen && r.hasNamedDefault == acc.hasNamedDefault;
      }
    } else {
      assert !StaticKey(p);
      assert r.props == acc.props + [p] && r.seen == acc.seen && r.hasNamedDefault == acc.hasNamedDefault;
      DistinctPush(acc.props, acc.seen, p);
      assert forall k :: 0 <= k < |r.props| - 1 ==> r.props[k] == acc.props[k];
    }
  }

  lemma StepNames(c: Child, onComponent: bool, acc: Acc)
    requires Shaped(c) && NamesKept(acc, onComponent)
    ensures NamesKept(Step(c, onComponent, acc), onComponent)
  {
    if c.slot.Some? && !onComponent && c.kind.PlainSlot? {
      var dir := c.slot.value;
      NamedSlotNames(c, dir, SlotName(dir), SlotFn(dir.exp, c.node.children, c.node.loc), Opened(dir, acc));
    }
  }

  lemma {:induction false} LoopNames(cs: seq<Child>, onComponent: bool, acc: Acc)
    requires AllShaped(cs) && NamesKept(acc, onComponent)
    ensures NamesKept(Loop(cs, onComponent, acc), onComponent)
    decreases |cs|
  {
    if |cs| > 0 && !acc.stopped && !acc.threw {
      StepNames(cs[0], onComponent, acc);
      LoopNames(cs[1..], onComponent, Step(cs[0], onComponent, acc));
    }
  }

  /** Once the loop keeps the names apart, so does the finished object. */
  lemma FinishNames(node: Node, onComponent: bool, acc: Acc)
    requires node.Element? && NamesKept(acc, onComponent)
    ensures var r := Finish(node, onComponent, acc);
            r.Some? ==>
              var obj := ObjectOf(r.value.slots);
              && obj.ObjectExpression? && |obj.properties| >= 1
              && obj.properties[|obj.properties| - 1] == CompiledMarker
              && DistinctStatic(obj.properties[..|obj.properties| - 1])
  {
    var props := FinalProps(node, onComponent, acc).0;
    if !onComponent && acc.hasTemplateSlots && |acc.implicit| > 0 && !acc.hasNamedDefault {
      DistinctPush(acc.props, acc.seen, PropertyOf("default", SlotFn(None, acc.implicit, node.loc)));
    }
    assert DistinctStatic(props);
    assert (props + [CompiledMarker])[..|props|] == props;
  }

  /** The slots object never names the same static slot twice, and it ends
      with the compiled marker. */
  lemma SlotNamesDistinct(node: Node, sc: SlotScope, helpers: seq<Helper>)
    requires node.Element?
    ensures var r := BuildSlots(node, sc, helpers);
            r.Some? ==>
              var obj := ObjectOf(r.value.slots);
              && obj.ObjectExpression? && |obj.properties| >= 1
              && obj.properties[|obj.properties| - 1] == CompiledMarker
              && DistinctStatic(obj.properties[..|obj.properties| - 1])
  {
    var onComp := OnComponentSlot(node).Some?;
    var cs := ClassifyAll(node.children, ParseScope(sc));
    LoopNames(cs, onComp, Start(node, sc, helpers));
    FinishNames(node, onComp, Loop(cs, onComp, Start(node, sc, helpers)));
  }

  // ----- a slot on the component itself -----

  /** The slot directive of the first template slot among classified
      children. */
  function FirstSlot(cs: seq<Child>): (r: Option<Prop>)
    ensures r.None? <==> forall i :: 0 <= i < |cs| ==> cs[i].slot.None?
    ensures r.Some? ==> exists i :: 0 <= i < |cs| && cs[i].slot == r && forall j :: 0 <= j < i ==> cs[j].slot.None?
    decreases |cs|
  {
    if |cs| == 0 then None
    else if cs[0].slot.Some? then cs[0].slot
    else
      var r := FirstSlot(cs[1..]);
      assert r.Some? ==> exists i :: 1 <= i < |cs| && cs[i].slot == r && forall j :: 0 <= j < i ==> cs[j].slot.None? by {
        if r.Some? {
          var i :| 0 <= i < |cs[1..]| && cs[1..][i].slot == r && forall j :: 0 <= j < i ==> cs[1..][j].slot.None?;
          assert cs[i + 1].slot == r;
          assert forall j :: 0 <= j < i + 1 ==> cs[j].slot.None? by {
            forall j | 0 <= j < i + 1 ensures cs[j].slot.None? {
              if j > 0 { assert cs[j] == cs[1..][j - 1]; }
            }
          }
        }
      }
      r
  }

  /** The slot directive of the first `<template v-slot>` child. */
  function FirstTemplateSlot(children: seq<Node>, ps: Expressions.Scope): (r: Option<Prop>)
    ensures r.None? <==> forall i :: 0 <= i < |children| ==> TemplateSlotDir(children[i]).None?
    ensures r.Some? ==> exists i :: 0 <= i < |children| && TemplateSlotDir(children[i]) == r
                                    && forall j :: 0 <= j < i ==> TemplateSlotDir(children[j]).None?
  {
    FirstSlot(ClassifyAll(children, ps))
  }

  /** With a slot on the component the loop only reports the first
      template slot child, once, and stops there. */
  lemma {:induction false} LoopOnComponent(cs: seq<Child>, acc: Acc)
    requires AllShaped(cs) && !acc.stopped && !acc.threw
    ensures var r := Loop(cs, true, acc);
            && !r.threw && r.props == acc.props && r.dynamic == acc.dynamic && r.hasDynamic == acc.hasDynamic
            && r.errors == acc.errors + (match FirstSlot(cs)
                                         case Some(d) => [CompilerError(ErrorCodes.VSlotMixedSlotUsage, d.loc.start)]
                                         case None => [])
    decreases |cs|
  {
    if |cs| > 0 && cs[0].slot.None? {
      StepImplicit(cs[0], true, acc);
      LoopOnComponent(cs[1..], Step(cs[0], true, acc));
    }
  }

  /** A component with its own `v-slot` has exactly one slot, the directive's
      argument (or `default`) over all the children; a `<template v-slot>`
      child besides is reported once as mixed usage, and nothing else is. */
  lemma OnComponentSlotOnly(node: Node, sc: SlotScope, helpers: seq<Helper>)
    requires node.Element? && OnComponentSlot(node).Some?
    ensures var r := BuildSlots(node, sc, helpers);
            var d := OnComponentSlot(node).value;
            && r.Some?
            && r.value.slots == ObjectExpression([Property(SlotName(d), SlotFn(d.exp, node.children, node.loc)), CompiledMarker], node.loc)
            && r.value.errors == (match FirstTemplateSlot(node.children, ParseScope(sc))
                                  case Some(t) => [CompilerError(ErrorCodes.VSlotMixedSlotUsage, t.loc.start)]
                                  case None => [])
  {
    var d := OnComponentSlot(node).value;
    var cs := ClassifyAll(node.children, ParseScope(sc));
    var start := Start(node, sc, helpers);
    LoopOnComponent(cs, start);
    var acc := Loop(cs, true, start);
    FinishOnComponent(node, acc);
    assert [Property(SlotName(d), SlotFn(d.exp, node.children, node.loc))] + [CompiledMarker]
           == [Property(SlotName(d), SlotFn(d.exp, node.children, node.loc)), CompiledMarker];
  }

  lemma FinishOnComponent(node: Node, acc: Acc)
    requires node.Element? && acc.dynamic == [] && !acc.threw
    ensures Finish(node, true, acc) == Some(Slots(ObjectExpression(acc.props + [CompiledMarker], node.loc), acc.hasDynamic, acc.errors, acc.helpers))
  {
  }

  // ----- errors when the component has no slot of its own -----

  /** Every error reported has one of `codes`. */
  predicate CodesIn(errors: seq<CompilerError>, codes: set<nat>) {
    forall k :: 0 <= k < |errors| ==> errors[k].code in codes
  }

  /** The errors the loop can report over template slots. */
  const TemplateSlotCodes: set<nat> := {ErrorCodes.VElseNoAdjacentIf, ErrorCodes.VForMalformedExpression, ErrorCodes.VSlotDuplicateSlotNames}

  lemma CodesPush(errors: seq<CompilerError>, codes: set<nat>, e: CompilerError)
    requires CodesIn(errors, codes) && e.code in codes
    ensures CodesIn(errors + [e], codes)
  {
    assert forall k :: 0 <= k < |errors| ==> (errors + [e])[k] == errors[k];
  }

  lemma StepCodes(c: Child, acc: Acc)
    requires Shaped(c) && CodesIn(acc.errors, TemplateSlotCodes)
    ensures CodesIn(Step(c, false, acc).errors, TemplateSlotCodes)
  {
    var r := Step(c, false, acc);
    if r.errors != acc.errors {
      var e :| r.errors == acc.errors + [e] && e.code in TemplateSlotCodes;
      CodesPush(acc.errors, TemplateSlotCodes, e);
    }
  }

  lemma {:induction false} LoopCodes(cs: seq<Child>, acc: Acc)
    requires AllShaped(cs) && CodesIn(acc.errors, TemplateSlotCodes)
    ensures CodesIn(Loop(cs, false, acc).errors, TemplateSlotCodes)
    decreases |cs|
  {
    if |cs| > 0 && !acc.stopped && !acc.threw {
      StepCodes(cs[0], acc);
      LoopCodes(cs[1..], Step(cs[0], false, acc));
    }
  }

  /** Without a slot on the component, mixed usage is never reported: the
      errors are about `v-else`, `v-for`, duplicate names and extraneous
      default children only. */
  lemma NoMixedUsageWithoutComponentSlot(node: Node, sc: SlotScope, helpers: seq<Helper>)
    requires node.Element? && OnComponentSlot(node).None?
    ensures var r := BuildSlots(node, sc, helpers);
            r.Some? ==> CodesIn(r.value.errors, TemplateSlotCodes + {ErrorCodes.VSlotExtraneousDefaultSlotChildren})
  {
    var acc := Loop(ClassifyAll(node.children, ParseScope(sc)), false, Start(node, sc, helpers));
    LoopCodes(ClassifyAll(node.children, ParseScope(sc)), Start(node, sc, helpers));
    var codes := TemplateSlotCodes + {ErrorCodes.VSlotExtraneousDefaultSlotChildren};
    assert CodesIn(acc.errors, codes);
    if acc.hasTemplateSlots && |acc.implicit| > 0 && acc.hasNamedDefault {
      CodesPush(acc.errors, codes, CompilerError(ErrorCodes.VSlotExtraneousDefaultSlotChildren, LocOf(acc.implicit[0]).start));
    }
  }

  // ----- dynamic slots -----

  /** Dynamic slots are only ever gathered once the slots are marked
      dynamic. */
  predicate DynamicMarked(acc: Acc) {
    |acc.dynamic| > 0 ==> acc.hasDynamic
  }

  lemma StepDynamic(c: Child, onComponent: bool, acc: Acc)
    requires Shaped(c) && DynamicMarked(acc)
    ensures DynamicMarked(Step(c, onComponent, acc))
    ensures acc.hasDynamic ==> Step(c, onComponent, acc).hasDynamic
  {
  }

  lemma {:induction false} LoopDynamic(cs: seq<Child>, onComponent: bool, acc: Acc)
    requires AllShaped(cs) && DynamicMarked(acc)
    ensures DynamicMarked(Loop(cs, onComponent, acc))
    ensures acc.hasDynamic ==> Loop(cs, onComponent, acc).hasDynamic
    decreases |cs|
  {
    if |cs| > 0 && !acc.stopped && !acc.threw {
      StepDynamic(cs[0], onComponent, acc);
      LoopDynamic(cs[1..], onComponent, Step(cs[0], onComponent, acc));
    }
  }

  /** Slots built through `createSlots` are always flagged dynamic, and a
      slot that refers to a scope variable (or, without prefixing, sits in
      another slot or a loop) is too. */
  lemma CreateSlotsIsDynamic(node: Node, sc: SlotScope, helpers: seq<Helper>)
    requires node.Element?
    ensures var r := BuildSlots(node, sc, helpers);
            r.Some? ==>
              && (r.value.slots.CallExpression? ==> r.value.hasDynamicSlots && CreateSlots in r.value.helpers)
              && (StartsDynamic(node, sc) ==> r.value.hasDynamicSlots)
  {
    var onComp := OnComponentSlot(node).Some?;
    LoopDynamic(ClassifyAll(node.children, ParseScope(sc)), onComp, Start(node, sc, helpers));
  }

  // ----- conditional slots -----

  /** A child as the slot transform expects it once the structural
      transforms have run: a `<template>` with `v-if` is a slot (a plain
      one was already turned into an `if` node), and a `v-for` slot's
      expression is a simple expression. */
  predicate ChildReady(c: Child) {
    && (IsIfTemplate(c) ==> c.slot.Some?)
    && (c.slot.Some? && c.kind.ForSlotOf? ==> !c.kind.source.NotSimple?)
  }

  predicate SlotReady(n: Node, ps: Expressions.Scope) {
    ChildReady(Classify(n, ps))
  }

  /** When the last child kept is a `v-if` slot, the last dynamic slot is
      its conditional. */
  predicate ElseAttachable(acc: Acc) {
    var prev := LastNonComment(acc.kept);
    prev.Some? && IsIfTemplate(prev.value) ==>
      |acc.dynamic| > 0 && acc.dynamic[|acc.dynamic| - 1].ConditionalExpression?
  }

  lemma LastNonCommentPush(kept: seq<Child>, c: Child)
    ensures LastNonComment(kept + [c]) == if c.node.Comment? then LastNonComment(kept) else Some(c)
  {
    assert (kept + [c])[..|kept|] == kept;
  }

  lemma ElseSlotAttachable(c: Child, exp: Option<Node>, loc: SourceLocation, dyn: Node, acc: Acc)
    requires !IsIfTemplate(c) && ElseAttachable(acc) && !acc.threw
    ensures ElseAttachable(ElseSlot(c, exp, loc, dyn, acc)) && !ElseSlot(c, exp, loc, dyn, acc).threw
  {
    LastNonCommentPush(acc.kept, c);
    var prev := LastNonComment(acc.kept);
    if prev.Some? && IsIfTemplate(prev.value) {
      var n := |acc.dynamic|;
      var arm := if exp.Some? then ConditionalExpression(exp.value, dyn, DefaultFallback, true) else dyn;
      var d := acc.dynamic[..n - 1] + [VIf.Attach(acc.dynamic[n - 1], arm)];
      assert d[|d| - 1].ConditionalExpression?;
    }
  }

  lemma StepAttachable(c: Child, onComponent: bool, acc: Acc)
    requires Shaped(c) && ChildReady(c) && ElseAttachable(acc) && !acc.threw
    ensures var r := Step(c, onComponent, acc);
            !r.threw && (!r.stopped ==> ElseAttachable(r))
  {
    LastNonCommentPush(acc.kept, c);
    if c.slot.Some? && !onComponent && c.kind.ElseSlotOf? {
      var dir := c.slot.value;
      var dyn := DynamicSlot(SlotName(dir), SlotFn(dir.exp, c.node.children, c.node.loc));
      ElseSlotAttachable(c, c.kind.exp, c.kind.loc, dyn, Opened(dir, acc));
    }
  }

  lemma {:induction false} LoopAttachable(cs: seq<Child>, onComponent: bool, acc: Acc)
    requires AllShaped(cs) && forall i :: 0 <= i < |cs| ==> ChildReady(cs[i])
    requires !acc.threw && (!acc.stopped ==> ElseAttachable(acc))
    ensures !Loop(cs, onComponent, acc).threw
    decreases |cs|
  {
    if |cs| > 0 && !acc.stopped {
      StepAttachable(cs[0], onComponent, acc);
      LoopAttachable(cs[1..], onComponent, Step(cs[0], onComponent, acc));
    }
  }

  /** On children the structural transforms have prepared, `buildSlots`
      always completes: every `v-else` slot that follows a `v-if` slot
      finds that slot's conditional to attach to. */
  lemma ReadySlotsBuild(node: Node, sc: SlotScope, helpers: seq<Helper>)
    requires node.Element? && forall i :: 0 <= i < |node.children| ==> SlotReady(node.children[i], ParseScope(sc))
    ensures BuildSlots(node, sc, helpers).Some?
  {
    LoopAttachable(ClassifyAll(node.children, ParseScope(sc)), OnComponentSlot(node).Some?, Start(node, sc, helpers));
  }
}
