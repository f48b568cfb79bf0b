/** `<slot>` outlets: the slot name and the props a `<slot>` element passes
    on (`processSlotOutlet`), and the `renderSlot` call it compiles to
    (`transformSlotOutlet`). */
module SlotOutlet {
  import opened Wrappers
  import opened Strings
  import opened Positions
  import opened Ast
  import opened AstUtils
  import opened TransformContext
  import ErrorCodes
  import ElementProps

  /** The name of the slot an outlet without a `name` renders. */
  const DefaultSlotName := Raw("\"default\"")

  /** The empty props object placed before a fallback when the outlet has no
      props of its own. */
  const EmptyProps := Raw("{}")

  /** What `processSlotOutlet` returns, with the errors it reported and the
      helper list after it. */
  datatype Outlet = Outlet(slotName: Node, slotProps: Option<Node>, errors: seq<CompilerError>, helpers: seq<Helper>)

  /** The test `findProp(node, 'name')` applies: a `name` attribute with a
      value, or a `:name` binding with an expression. */
  predicate NameProp(p: Prop) {
    PropMatches(p, "name", false, false)
  }

  /** The position of the prop that names the slot, or -1. */
  function NameIndex(props: seq<Prop>): (r: int)
    ensures -1 <= r < |props|
    ensures r >= 0 ==> NameProp(props[r]) && forall j :: 0 <= j < r ==> !NameProp(props[j])
    ensures r == -1 <==> forall j :: 0 <= j < |props| ==> !NameProp(props[j])
  {
    FirstIndex(props, NameProp)
  }

  /** The slot name a naming prop gives: the attribute's text as a string
      literal, or the bound expression. */
  function SlotNameOf(name: Prop): Node {
    if name.Attribute? && name.value.Some? then Raw(JsonQuote(name.value.value.content))
    else if name.Directive? && name.exp.Some? then name.exp.value
    else DefaultSlotName
  }

  /** The props without the one at `i`. */
  function Without(props: seq<Prop>, i: int): (r: seq<Prop>)
    ensures 0 <= i < |props| ==> |r| == |props| - 1
    ensures !(0 <= i < |props|) ==> r == props
  {
    if 0 <= i < |props| then props[..i] + props[i + 1..] else props
  }

  /** The outlet for a slot name and the props left after removing the
      naming one: `buildProps` over them, reporting a runtime directive on
      the outlet after the errors `buildProps` reported. */
  function OutletOf(site: ElementProps.Site, slotName: Node, rest: seq<Prop>, helpers: seq<Helper>): (r: Outlet)
    ensures |helpers| <= |r.helpers| && r.helpers[..|helpers|] == helpers
  {
    if |rest| > 0 then
      var b := ElementProps.BuildProps(site, rest, helpers);
      var extra := if |b.directives| > 0
                   then [CompilerError(ErrorCodes.VSlotUnexpectedDirectiveOnSlotOutlet, b.directives[0].dir.loc.start)]
                   else [];
      Outlet(slotName, b.props, b.errors + extra, b.helpers)
    else Outlet(slotName, None, [], helpers)
  }

  /** `processSlotOutlet`: the name, then `buildProps` over the remaining
      props, reporting a runtime directive on the outlet after the errors
      `buildProps` reported. */
  function ProcessSlotOutlet(site: ElementProps.Site, props: seq<Prop>, helpers: seq<Helper>): (r: Outlet)
    ensures |helpers| <= |r.helpers| && r.helpers[..|helpers|] == helpers
  {
    var i := NameIndex(props);
    OutletOf(site, if i >= 0 then SlotNameOf(props[i]) else DefaultSlotName, Without(props, i), helpers)
  }

  /** The name the outlet renders: a static `name` reads back, through the
      string literal the outlet prints, as the attribute's text; a `:name`
      gives its bound expression; with neither the slot is `"default"`. */
  lemma SlotNameRead(site: ElementProps.Site, props: seq<Prop>, helpers: seq<Helper>)
    ensures var r := ProcessSlotOutlet(site, props, helpers);
            var i := NameIndex(props);
            && (i >= 0 && props[i].Attribute? ==>
                  r.slotName.Raw? && JsonUnquote(r.slotName.code) == Some(props[i].value.value.content))
            && (i >= 0 && props[i].Directive? ==> r.slotName == props[i].exp.value)
            && (i == -1 ==> r.slotName == DefaultSlotName)
  {
    var i := NameIndex(props);
    if i >= 0 && props[i].Attribute? {
      JsonRoundTrip(props[i].value.value.content);
    }
  }

  /** The props passed on are exactly the outlet's props other than the one
      naming the slot, in their order: `buildProps` sees them and nothing
      else, and none at all means no props object and no error. A directive
      left for the runtime is reported once, at the first such directive,
      after what `buildProps` reported. */
  lemma {:induction false} PropsPassedOn(site: ElementProps.Site, props: seq<Prop>, helpers: seq<Helper>)
    ensures var r := ProcessSlotOutlet(site, props, helpers);
            var i := NameIndex(props);
            var rest := Without(props, i);
            var b := ElementProps.BuildProps(site, rest, helpers);
            && (forall p :: p in rest ==> p in props)
            && (forall j :: 0 <= j < |props| && j != i ==> props[j] in rest)
            && (|rest| == 0 ==> r.slotProps.None? && r.errors == [] && r.helpers == helpers)
            && (|rest| > 0 ==> r.slotProps == b.props && r.helpers == b.helpers)
            && (|rest| > 0 && |b.directives| == 0 ==> r.errors == b.errors)
            && (|rest| > 0 && |b.directives| > 0 ==>
                  r.errors == b.errors + [CompilerError(ErrorCodes.VSlotUnexpectedDirectiveOnSlotOutlet,
                                                        b.directives[0].dir.loc.start)])
  {
    var i := NameIndex(props);
    var rest := Without(props, i);
    if 0 <= i < |props| {
      assert rest == props[..i] + props[i + 1..];
      forall j | 0 <= j < |props| && j != i
        ensures props[j] in rest
      {
        if j < i { assert rest[j] == props[j]; } else { assert rest[j - 1] == props[j]; }
      }
    }
  }

  // ---------------------------------------------------------------------
  // transformSlotOutlet
  // ---------------------------------------------------------------------

  /** The fallback content as a function with no parameters. */
  function Fallback(children: seq<Node>, loc: SourceLocation): Node {
    FunctionExpression(Some(NodeList([])), Some(NodeList(children)), false, false, loc)
  }

  /** The arguments of `renderSlot`: the slots object, the name, the props
      (an empty object when there are none but a fallback follows), and the
      fallback when the outlet has children. */
  function SlotArgs(prefixIdentifiers: bool, o: Outlet, children: seq<Node>, loc: SourceLocation): seq<Node> {
    [Raw(if prefixIdentifiers then "_ctx.$slots" else "$slots"), o.slotName]
    + (if o.slotProps.Some? then [o.slotProps.value] else [])
    + (if |children| > 0 then (if o.slotProps.None? then [EmptyProps] else []) + [Fallback(children, loc)] else [])
  }

  /** `transformSlotOutlet` on an element: a `<slot>` gets the `renderSlot`
      call as its code, any other element is left as it is. */
  function TransformSlotOutlet(n: Node, site: ElementProps.Site, prefixIdentifiers: bool, helpers: seq<Helper>)
    : (r: (Node, seq<CompilerError>, seq<Helper>))
    requires n.Element?
    ensures r.0.Element? && r.0.props == n.props && r.0.children == n.children && r.0.tag == n.tag
    ensures !IsSlotOutlet(n) ==> r == (n, [], helpers)
    ensures IsSlotOutlet(n) ==> RenderSlot in r.2 && r.0.codegenNode.Some?
    ensures |helpers| <= |r.2| && r.2[..|helpers|] == helpers
  {
    if IsSlotOutlet(n) then
      var o := ProcessSlotOutlet(site, n.props, helpers);
      var call := CallExpression(HelperRef(RenderSlot), SlotArgs(prefixIdentifiers, o, n.children, n.loc), n.loc);
      (Element(n.ns, n.tag, n.tagType, n.props, n.children, n.isSelfClosing, n.loc, Some(call)), o.errors,
       AddOnce(o.helpers, RenderSlot))
    else (n, [], helpers)
  }

  // ----- what the runtime's `renderSlot(slots, name, props = {}, fallback)` reads -----

  /** The props argument; the empty object stands for none. */
  function ReadProps(args: seq<Node>): Option<Node> {
    if |args| > 2 && args[2] != EmptyProps then Some(args[2]) else None
  }

  /** The fallback children. */
  function ReadFallback(args: seq<Node>): seq<Node> {
    if |args| > 3 && args[3].FunctionExpression? && args[3].returnValue.Some? && args[3].returnValue.value.NodeList?
    then args[3].returnValue.value.items
    else []
  }

  /** The call reads back as the outlet's name, props and fallback, and the
      argument list stops after the last of them that is present. */
  lemma SlotArgsRoundTrip(prefixIdentifiers: bool, o: Outlet, children: seq<Node>, loc: SourceLocation)
    requires o.slotProps.None? || o.slotProps.value != EmptyProps
    ensures var a := SlotArgs(prefixIdentifiers, o, children, loc);
            && a[1] == o.slotName
            && ReadProps(a) == o.slotProps
            && ReadFallback(a) == children
            && |a| == (if |children| > 0 then 4 else if o.slotProps.Some? then 3 else 2)
  {
    var a := SlotArgs(prefixIdentifiers, o, children, loc);
    var s := Raw(if prefixIdentifiers then "_ctx.$slots" else "$slots");
    if |children| > 0 {
      if o.slotProps.Some? { assert a == [s, o.slotName, o.slotProps.value, Fallback(children, loc)]; }
      else { assert a == [s, o.slotName, EmptyProps, Fallback(children, loc)]; }
    } else if o.slotProps.Some? {
      assert a == [s, o.slotName, o.slotProps.value];
    } else {
      assert a == [s, o.slotName];
    }
  }
}
