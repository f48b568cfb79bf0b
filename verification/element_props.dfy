/** `buildProps`: an element's attributes and directives become the props
    expression of its vnode call, the list of directives left for the
    runtime, and the patch flag analysis that tells the runtime's diff what
    can change. */
module ElementProps {
  import opened Wrappers
  import opened Strings
  import opened Positions
  import opened Ast
  import opened AstUtils
  import opened TransformContext
  import opened PatchFlags
  import ErrorCodes
  import StaticHoist
  import Dedupe

  /** What a directive transform asks of the runtime: nothing, the directive
      itself, or a runtime helper that implements it. */
  datatype NeedRuntime = NoRuntime | Runtime | RuntimeHelper(helper: Helper)

  /** What a directive transform returns. */
  datatype DirectiveOutcome = DirectiveOutcome(props: seq<Property>, needRuntime: NeedRuntime)

  /** A directive applied at run time, with the helper its transform named
      (the entry of `directiveImportMap`). */
  datatype RuntimeDirective = RuntimeDirective(dir: Prop, helper: Option<Helper>)

  /** The element the props belong to and the compiler's settings: its tag,
      whether it is a component, its location, whether the compile targets
      server rendering, and the directive transforms the compiler was
      configured with (`context.directiveTransforms`, bound to this
      element). */
  datatype Site = Site(tag: string, isComponent: bool, loc: SourceLocation, ssr: bool,
                       transform: Prop -> Option<DirectiveOutcome>)

  // ---------------------------------------------------------------------
  // Patch flag analysis of one property
  // ---------------------------------------------------------------------

  /** The flags and names `analyzePatchFlag` collects. */
  datatype Analysis = Analysis(hasRef: bool, hasClass: bool, hasStyle: bool, hasHydration: bool,
                               hasDynamicKeys: bool, names: seq<string>)

  const NoAnalysis := Analysis(false, false, false, false, false, [])

  /** `isOn`: `on` followed by a character that is not a lower-case letter. */
  predicate IsOn(name: string) {
    |name| >= 3 && name[0] == 'o' && name[1] == 'n' && !('a' <= name[2] <= 'z')
  }

  /** A value that never changes: a cached handler, or an expression the
      hoister considers static. */
  predicate ConstantValue(v: Node) {
    v.CacheExpression? || ((v.SimpleExpression? || v.CompoundExpression?) && StaticHoist.IsStaticNode(v))
  }

  /** A property whose key is known at compile time. */
  predicate KeyedStatic(p: Property) {
    p.key.SimpleExpression? && p.key.isStatic
  }

  /** A static event handler key the hydration pass must attach, other than
      a click handler or a `v-model` update. */
  predicate HydrationProp(isComponent: bool, p: Property) {
    KeyedStatic(p) && !isComponent && IsOn(p.key.content)
    && ToLower(p.key.content) != "onclick" && p.key.content != "onUpdate:modelValue"
  }

  /** A static key whose value can change. */
  predicate Bound(p: Property) {
    KeyedStatic(p) && !ConstantValue(p.value)
  }

  predicate RefProp(p: Property) {
    Bound(p) && p.key.content == "ref"
  }

  predicate ClassProp(isComponent: bool, p: Property) {
    Bound(p) && p.key.content == "class" && !isComponent
  }

  predicate StyleProp(isComponent: bool, p: Property) {
    Bound(p) && p.key.content == "style" && !isComponent
  }

  /** A changing property the runtime diffs by name: any but `ref` and
      `key`, and, on a plain element, `class` and `style`. */
  predicate NamedProp(isComponent: bool, p: Property, name: string) {
    Bound(p) && p.key.content == name && name != "ref" && name != "key"
    && (isComponent || (name != "class" && name != "style"))
  }

  /** The five flags of the analysis, by name. */
  datatype Flag = RefFlag | ClassFlag | StyleFlag | HydrationFlag | DynamicFlag

  function FlagOf(an: Analysis, f: Flag): bool {
    match f
    case RefFlag => an.hasRef
    case ClassFlag => an.hasClass
    case StyleFlag => an.hasStyle
    case HydrationFlag => an.hasHydration
    case DynamicFlag => an.hasDynamicKeys
  }

  /** Whether a property calls for a flag. */
  predicate PropFlag(isComponent: bool, p: Property, f: Flag) {
    match f
    case RefFlag => RefProp(p)
    case ClassFlag => ClassProp(isComponent, p)
    case StyleFlag => StyleProp(isComponent, p)
    case HydrationFlag => HydrationProp(isComponent, p)
    case DynamicFlag => !KeyedStatic(p)
  }

  /** `analyzePatchFlag` on one property. */
  function Analyze(isComponent: bool, an: Analysis, p: Property): (r: Analysis)
    ensures r.hasRef <==> an.hasRef || RefProp(p)
    ensures r.hasClass <==> an.hasClass || ClassProp(isComponent, p)
    ensures r.hasStyle <==> an.hasStyle || StyleProp(isComponent, p)
    ensures r.hasHydration <==> an.hasHydration || HydrationProp(isComponent, p)
    ensures r.hasDynamicKeys <==> an.hasDynamicKeys || !KeyedStatic(p)
    ensures forall x :: x in r.names <==> x in an.names || NamedProp(isComponent, p, x)
    ensures Distinct(an.names) ==> Distinct(r.names)
  {
    if KeyedStatic(p) then
      var name := p.key.content;
      var an1 := if HydrationProp(isComponent, p) then an.(hasHydration := true) else an;
      if ConstantValue(p.value) then an1
      else if name == "ref" then an1.(hasRef := true)
      else if name == "class" && !isComponent then an1.(hasClass := true)
      else if name == "style" && !isComponent then an1.(hasStyle := true)
      else if name != "key" then an1.(names := AddOnce(an1.names, name))
      else an1
    else an.(hasDynamicKeys := true)
  }

  /** `props.forEach(analyzePatchFlag)`. */
  function AnalyzeAll(isComponent: bool, an: Analysis, ps: seq<Property>): (r: Analysis)
    ensures Distinct(an.names) ==> Distinct(r.names)
    decreases |ps|
  {
    if |ps| == 0 then an
    else Analyze(isComponent, AnalyzeAll(isComponent, an, ps[..|ps| - 1]), ps[|ps| - 1])
  }

  /** After analysing a list, a flag is set exactly when it was set before
      or some property of the list calls for it. */
  lemma {:induction false} AnalyzeAllFlag(isComponent: bool, an: Analysis, ps: seq<Property>, f: Flag)
    ensures FlagOf(AnalyzeAll(isComponent, an, ps), f) <==>
              FlagOf(an, f) || exists k :: 0 <= k < |ps| && PropFlag(isComponent, ps[k], f)
    decreases |ps|
  {
    if |ps| > 0 {
      var q := ps[..|ps| - 1];
      AnalyzeAllFlag(isComponent, an, q, f);
      assert forall k :: 0 <= k < |q| ==> q[k] == ps[k];
    }
  }

  /** After analysing a list, a name is listed exactly when it was before
      or some property of the list calls for it. */
  lemma {:induction false} AnalyzeAllNames(isComponent: bool, an: Analysis, ps: seq<Property>)
    ensures forall x :: x in AnalyzeAll(isComponent, an, ps).names <==>
              x in an.names || exists k :: 0 <= k < |ps| && NamedProp(isComponent, ps[k], x)
    decreases |ps|
  {
    if |ps| > 0 {
      var q := ps[..|ps| - 1];
      AnalyzeAllNames(isComponent, an, q);
      assert forall k :: 0 <= k < |q| ==> q[k] == ps[k];
    }
  }

  // ---------------------------------------------------------------------
  // The loop over the props
  // ---------------------------------------------------------------------

  /** The loop's variables: the pending object properties, the arguments of
      a `mergeProps` call, the runtime directives, the analysis, the errors
      reported and the helpers asked for. */
  datatype Acc = Acc(properties: seq<Property>, mergeArgs: seq<Node>, runtime: seq<RuntimeDirective>,
                     an: Analysis, errors: seq<CompilerError>, helpers: seq<Helper>)

  /** An attribute as an object property: a static key located at the name,
      and its text (empty when it has no value) as a static value. */
  function AttributeProperty(p: Prop): (r: Property)
    requires p.Attribute?
    ensures KeyedStatic(r) && r.key.content == p.name
    ensures r.value.SimpleExpression? && r.value.isStatic
    ensures r.value.content == (if p.value.Some? then p.value.value.content else "")
  {
    Property(SimpleExpression(p.name, true, false, InnerRange(p.loc, 0, Some(|p.name|))),
             SimpleExpression(if p.value.Some? then p.value.value.content else "", true, false,
                              if p.value.Some? then p.value.value.loc else p.loc))
  }

  /** The pending properties, if any, closed into an object literal at the
      end of the `mergeProps` arguments. */
  function Flushed(properties: seq<Property>, args: seq<Node>, loc: SourceLocation): (r: seq<Node>)
    ensures |properties| == 0 ==> r == args
    ensures |properties| > 0 ==> r == args + [ObjectExpression(Dedupe.DedupeProperties(properties), loc)]
  {
    if |properties| > 0 then args + [ObjectExpression(Dedupe.DedupeProperties(properties), loc)] else args
  }

  /** The runtime directive list entry for a transformed directive. */
  function RuntimeEntry(p: Prop, need: NeedRuntime): seq<RuntimeDirective> {
    match need
    case NoRuntime => []
    case Runtime => [RuntimeDirective(p, None)]
    case RuntimeHelper(h) => [RuntimeDirective(p, Some(h))]
  }

  /** The body of the loop for one prop, its cases in the program's order. */
  function Step(site: Site, acc: Acc, p: Prop): Acc {
    if p.Attribute? then
      var an := if p.name == "ref" then acc.an.(hasRef := true) else acc.an;
      if p.name == "is" && site.tag == "component" then acc.(an := an)
      else acc.(an := an, properties := acc.properties + [AttributeProperty(p)])
    else if p.name == "slot" then
      if site.isComponent then acc
      else acc.(errors := acc.errors + [CompilerError(ErrorCodes.VSlotMisplaced, p.loc.start)])
    else if p.name == "once" then acc
    else if p.name == "is" || (p.name == "bind" && site.tag == "component" && IsBindKey(p.arg, "is")) then acc
    else if p.name == "on" && site.ssr then acc
    else if p.arg.None? && (p.name == "bind" || p.name == "on") then
      var an := acc.an.(hasDynamicKeys := true);
      if p.exp.Some? then
        var args := Flushed(acc.properties, acc.mergeArgs, site.loc);
        if p.name == "bind" then acc.(an := an, properties := [], mergeArgs := args + [p.exp.value])
        else
          acc.(an := an, properties := [],
               mergeArgs := args + [CallExpression(HelperRef(ToHandlers), [p.exp.value], p.loc)],
               helpers := AddOnce(acc.helpers, ToHandlers))
      else
        var code := if p.name == "bind" then ErrorCodes.VBindNoExpression else ErrorCodes.VOnNoExpression;
        acc.(an := an, errors := acc.errors + [CompilerError(code, p.loc.start)])
    else
      match site.transform(p)
      case Some(o) =>
        acc.(an := if site.ssr then acc.an else AnalyzeAll(site.isComponent, acc.an, o.props),
             properties := acc.properties + o.props,
             runtime := acc.runtime + RuntimeEntry(p, o.needRuntime))
      case None => acc.(runtime := acc.runtime + [RuntimeDirective(p, None)])
  }

  /** The loop over the props in order. */
  function Loop(site: Site, ps: seq<Prop>, helpers: seq<Helper>): Acc
    decreases |ps|
  {
    if |ps| == 0 then Acc([], [], [], NoAnalysis, [], helpers)
    else Step(site, Loop(site, ps[..|ps| - 1], helpers), ps[|ps| - 1])
  }

  // ---------------------------------------------------------------------
  // The result
  // ---------------------------------------------------------------------

  /** The patch flag from the analysis: `FULL_PROPS` alone when a key is
      dynamic, otherwise one bit per kind of change; `NEED_PATCH` when
      nothing else would make the runtime patch an element that has a ref
      or runtime directives. */
  function PatchFlagFor(an: Analysis, runtimeCount: nat): (f: Flags)
    ensures f & FULL_PROPS != 0 <==> an.hasDynamicKeys
    ensures f & CLASS != 0 <==> !an.hasDynamicKeys && an.hasClass
    ensures f & STYLE != 0 <==> !an.hasDynamicKeys && an.hasStyle
    ensures f & PROPS != 0 <==> !an.hasDynamicKeys && |an.names| > 0
    ensures f & HYDRATE_EVENTS != 0 <==> !an.hasDynamicKeys && an.hasHydration
    ensures f & NEED_PATCH != 0 <==>
              (an.hasRef || runtimeCount > 0) && f & (CLASS | STYLE | PROPS | FULL_PROPS) == 0
    ensures f & !(CLASS | STYLE | PROPS | FULL_PROPS | HYDRATE_EVENTS | NEED_PATCH) == 0
  {
    var base: Flags :=
      if an.hasDynamicKeys then FULL_PROPS
      else (if an.hasClass then CLASS else 0) | (if an.hasStyle then STYLE else 0)
           | (if |an.names| > 0 then PROPS else 0) | (if an.hasHydration then HYDRATE_EVENTS else 0);
    if (base == 0 || base == HYDRATE_EVENTS) && (an.hasRef || runtimeCount > 0) then base | NEED_PATCH
    else base
  }

  /** What `buildProps` returns, with the errors it reported and the helper
      list after it. */
  datatype PropsBuild = PropsBuild(props: Option<Node>, directives: seq<RuntimeDirective>, patchFlag: Flags,
                                   dynamicPropNames: seq<string>, errors: seq<CompilerError>, helpers: seq<Helper>)

  /** The props expression: a `mergeProps` call when an object was spread
      and there is more than one argument, the single argument otherwise, or
      the deduplicated object literal when nothing was spread. */
  function PropsExpression(acc: Acc, loc: SourceLocation): (r: (Option<Node>, seq<Helper>))
    ensures |acc.mergeArgs| == 0 && |acc.properties| == 0 <==> r.0.None?
    ensures MergeProps in r.1 <==> MergeProps in acc.helpers || (r.0.Some? && r.0.value == CallExpression(HelperRef(MergeProps), Flushed(acc.properties, acc.mergeArgs, loc), loc))
    ensures |acc.helpers| <= |r.1| && r.1[..|acc.helpers|] == acc.helpers
  {
    if |acc.mergeArgs| > 0 then
      var args := Flushed(acc.properties, acc.mergeArgs, loc);
      if |args| > 1 then (Some(CallExpression(HelperRef(MergeProps), args, loc)), AddOnce(acc.helpers, MergeProps))
      else (Some(args[0]), acc.helpers)
    else if |acc.properties| > 0 then (Some(ObjectExpression(Dedupe.DedupeProperties(acc.properties), loc)), acc.helpers)
    else (None, acc.helpers)
  }

  /** `buildProps(node, context, props, ssr)`. */
  function BuildProps(site: Site, ps: seq<Prop>, helpers: seq<Helper>): (r: PropsBuild)
    ensures |helpers| <= |r.helpers| && r.helpers[..|helpers|] == helpers
  {
    var acc := Loop(site, ps, helpers);
    LoopKeepsHelpers(site, ps, helpers);
    var (props, hs) := PropsExpression(acc, site.loc);
    PropsBuild(props, acc.runtime, PatchFlagFor(acc.an, |acc.runtime|), acc.an.names, acc.errors, hs)
  }

  lemma {:induction false} LoopKeepsHelpers(site: Site, ps: seq<Prop>, helpers: seq<Helper>)
    ensures |helpers| <= |Loop(site, ps, helpers).helpers|
    ensures Loop(site, ps, helpers).helpers[..|helpers|] == helpers
    decreases |ps|
  {
    if |ps| > 0 {
      LoopKeepsHelpers(site, ps[..|ps| - 1], helpers);
    }
  }

  // ---------------------------------------------------------------------
  // What each prop contributes, prop by prop
  // ---------------------------------------------------------------------

  /** A directive that gets past the skipped cases: not `v-slot`, `v-once`,
      `v-is`, `:is` on `<component>`, nor a `v-on` compiled for the server. */
  predicate Reached(site: Site, p: Prop) {
    p.Directive? && p.name != "slot" && p.name != "once" && p.name != "is"
    && !(p.name == "bind" && site.tag == "component" && IsBindKey(p.arg, "is"))
    && !(p.name == "on" && site.ssr)
  }

  /** `v-bind="obj"` or `v-on="obj"`: a bind or handler object spread into
      the props, so no key is known. */
  predicate Spread(site: Site, p: Prop) {
    Reached(site, p) && p.arg.None? && (p.name == "bind" || p.name == "on")
  }

  /** A directive handed to its directive transform. */
  predicate Transformed(site: Site, p: Prop) {
    Reached(site, p) && !Spread(site, p) && site.transform(p).Some?
  }

  /** The properties a prop adds to the object literal. */
  function PropsFor(site: Site, p: Prop): seq<Property> {
    if p.Attribute? then (if p.name == "is" && site.tag == "component" then [] else [AttributeProperty(p)])
    else if Transformed(site, p) then site.transform(p).value.props
    else []
  }

  /** The properties of a prop the patch flag analysis looks at: only those
      a directive transform made, and none when compiling for the server. */
  function Analyzed(site: Site, p: Prop): seq<Property> {
    if Transformed(site, p) && !site.ssr then site.transform(p).value.props else []
  }

  /** The runtime directives a prop adds: a directive with no transform, or
      one whose transform asks for the runtime. */
  function RuntimeFor(site: Site, p: Prop): seq<RuntimeDirective> {
    if !Reached(site, p) || Spread(site, p) then []
    else if site.transform(p).None? then [RuntimeDirective(p, None)]
    else RuntimeEntry(p, site.transform(p).value.needRuntime)
  }

  /** The errors a prop reports: `v-slot` anywhere but on a component, or a
      spread without an expression. */
  function ErrorsFor(site: Site, p: Prop): seq<CompilerError> {
    if p.Directive? && p.name == "slot" && !site.isComponent then [CompilerError(ErrorCodes.VSlotMisplaced, p.loc.start)]
    else if Spread(site, p) && p.exp.None? then
      [CompilerError(if p.name == "bind" then ErrorCodes.VBindNoExpression else ErrorCodes.VOnNoExpression, p.loc.start)]
    else []
  }

  /** The argument a spread with an expression adds to `mergeProps`. */
  function SpreadArg(site: Site, p: Prop): seq<Node> {
    if Spread(site, p) && p.exp.Some? then
      [if p.name == "bind" then p.exp.value else CallExpression(HelperRef(ToHandlers), [p.exp.value], p.loc)]
    else []
  }

  function GatherProps(site: Site, ps: seq<Prop>): seq<Property>
    decreases |ps|
  {
    if |ps| == 0 then [] else GatherProps(site, ps[..|ps| - 1]) + PropsFor(site, ps[|ps| - 1])
  }

  function GatherRuntime(site: Site, ps: seq<Prop>): seq<RuntimeDirective>
    decreases |ps|
  {
    if |ps| == 0 then [] else GatherRuntime(site, ps[..|ps| - 1]) + RuntimeFor(site, ps[|ps| - 1])
  }

  function GatherErrors(site: Site, ps: seq<Prop>): seq<CompilerError>
    decreases |ps|
  {
    if |ps| == 0 then [] else GatherErrors(site, ps[..|ps| - 1]) + ErrorsFor(site, ps[|ps| - 1])
  }

  function GatherSpreads(site: Site, ps: seq<Prop>): seq<Node>
    decreases |ps|
  {
    if |ps| == 0 then [] else GatherSpreads(site, ps[..|ps| - 1]) + SpreadArg(site, ps[|ps| - 1])
  }

  /** Whether a prop calls for a flag: a `ref` attribute sets the ref flag,
      a spread makes the keys dynamic, and the properties its directive
      transform made are analysed one by one. */
  predicate FlagAt(site: Site, p: Prop, f: Flag) {
    (f == RefFlag && p.Attribute? && p.name == "ref") || (f == DynamicFlag && Spread(site, p))
    || exists k :: 0 <= k < |Analyzed(site, p)| && PropFlag(site.isComponent, Analyzed(site, p)[k], f)
  }

  predicate NamedAt(site: Site, p: Prop, name: string) {
    exists k :: 0 <= k < |Analyzed(site, p)| && NamedProp(site.isComponent, Analyzed(site, p)[k], name)
  }

  // ---------------------------------------------------------------------
  // The loop against the prop-by-prop description
  // ---------------------------------------------------------------------

  /** One step of the loop sets a flag exactly when the prop calls for
      it. */
  lemma StepFlag(site: Site, acc: Acc, p: Prop, f: Flag)
    ensures FlagOf(Step(site, acc, p).an, f) <==> FlagOf(acc.an, f) || FlagAt(site, p, f)
  {
    StepAn(site, acc, p);
    if Transformed(site, p) && !site.ssr {
      var ps := site.transform(p).value.props;
      assert Analyzed(site, p) == ps;
      AnalyzeAllFlag(site.isComponent, acc.an, ps, f);
    } else {
      assert Analyzed(site, p) == [];
    }
  }

  /** One step of the loop lists exactly the names the prop calls for. */
  lemma StepNames(site: Site, acc: Acc, p: Prop)
    ensures forall x :: x in Step(site, acc, p).an.names <==> x in acc.an.names || NamedAt(site, p, x)
    ensures Distinct(acc.an.names) ==> Distinct(Step(site, acc, p).an.names)
  {
    StepAn(site, acc, p);
    if Transformed(site, p) && !site.ssr {
      var ps := site.transform(p).value.props;
      assert Analyzed(site, p) == ps;
      AnalyzeAllNames(site.isComponent, acc.an, ps);
    } else {
      assert Analyzed(site, p) == [];
    }
  }

  /** The analysis after one step: the transform's properties analysed, or
      one flag set by a `ref` attribute or a spread, or nothing. */
  lemma StepAn(site: Site, acc: Acc, p: Prop)
    ensures Step(site, acc, p).an ==
              if Transformed(site, p) && !site.ssr then AnalyzeAll(site.isComponent, acc.an, site.transform(p).value.props)
              else if p.Attribute? && p.name == "ref" then acc.an.(hasRef := true)
              else if Spread(site, p) then acc.an.(hasDynamicKeys := true)
              else acc.an
  {
  }

  /** A flag after the loop: set exactly when some prop calls for it. */
  lemma {:induction false} LoopFlag(site: Site, ps: seq<Prop>, helpers: seq<Helper>, f: Flag)
    ensures FlagOf(Loop(site, ps, helpers).an, f) <==> exists i :: 0 <= i < |ps| && FlagAt(site, ps[i], f)
    decreases |ps|
  {
    if |ps| > 0 {
      var q := ps[..|ps| - 1];
      LoopFlag(site, q, helpers, f);
      StepFlag(site, Loop(site, q, helpers), ps[|ps| - 1], f);
      assert forall i :: 0 <= i < |q| ==> q[i] == ps[i];
    }
  }

  /** The names after the loop: each once, and exactly those the props
      call for. */
  lemma {:induction false} LoopNames(site: Site, ps: seq<Prop>, helpers: seq<Helper>)
    ensures var an := Loop(site, ps, helpers).an;
            && (forall x :: x in an.names <==> exists i :: 0 <= i < |ps| && NamedAt(site, ps[i], x))
            && Distinct(an.names)
    decreases |ps|
  {
    if |ps| > 0 {
      var q := ps[..|ps| - 1];
      LoopNames(site, q, helpers);
      StepNames(site, Loop(site, q, helpers), ps[|ps| - 1]);
      assert forall i :: 0 <= i < |q| ==> q[i] == ps[i];
    }
  }

  /** One step of the loop adds the prop's runtime directives and errors;
      a prop that spreads nothing adds its properties to the pending ones;
      one that adds no property to empty pending ones adds its spread. */
  lemma StepLists(site: Site, acc: Acc, p: Prop)
    ensures Step(site, acc, p).runtime == acc.runtime + RuntimeFor(site, p)
    ensures Step(site, acc, p).errors == acc.errors + ErrorsFor(site, p)
    ensures SpreadArg(site, p) == [] ==>
              Step(site, acc, p).mergeArgs == acc.mergeArgs
              && Step(site, acc, p).properties == acc.properties + PropsFor(site, p)
    ensures PropsFor(site, p) == [] && acc.properties == [] ==>
              Step(site, acc, p).mergeArgs == acc.mergeArgs + SpreadArg(site, p)
              && Step(site, acc, p).properties == []
  {
  }

  /** The runtime directives and the errors after the loop, in prop
      order. */
  lemma {:induction false} LoopLists(site: Site, ps: seq<Prop>, helpers: seq<Helper>)
    ensures Loop(site, ps, helpers).runtime == GatherRuntime(site, ps)
    ensures Loop(site, ps, helpers).errors == GatherErrors(site, ps)
    decreases |ps|
  {
    if |ps| > 0 {
      LoopLists(site, ps[..|ps| - 1], helpers);
      StepLists(site, Loop(site, ps[..|ps| - 1], helpers), ps[|ps| - 1]);
    }
  }

  /** With nothing spread, the pending properties after the loop are every
      prop's properties in order. */
  lemma {:induction false} LoopNoSpread(site: Site, ps: seq<Prop>, helpers: seq<Helper>)
    requires GatherSpreads(site, ps) == []
    ensures Loop(site, ps, helpers).mergeArgs == []
    ensures Loop(site, ps, helpers).properties == GatherProps(site, ps)
    decreases |ps|
  {
    if |ps| > 0 {
      LoopNoSpread(site, ps[..|ps| - 1], helpers);
      StepLists(site, Loop(site, ps[..|ps| - 1], helpers), ps[|ps| - 1]);
    }
  }

  /** With no literal property, the `mergeProps` arguments after the loop
      are the spreads in order. */
  lemma {:induction false} LoopNoProps(site: Site, ps: seq<Prop>, helpers: seq<Helper>)
    requires GatherProps(site, ps) == []
    ensures Loop(site, ps, helpers).mergeArgs == GatherSpreads(site, ps)
    ensures Loop(site, ps, helpers).properties == []
    decreases |ps|
  {
    if |ps| > 0 {
      LoopNoProps(site, ps[..|ps| - 1], helpers);
      StepLists(site, Loop(site, ps[..|ps| - 1], helpers), ps[|ps| - 1]);
    }
  }

  // ---------------------------------------------------------------------
  // buildProps against the props
  // ---------------------------------------------------------------------

  /** Whether some prop calls for a flag. */
  predicate AnyFlag(site: Site, ps: seq<Prop>, f: Flag) {
    exists i :: 0 <= i < |ps| && FlagAt(site, ps[i], f)
  }

  /** The patch flag `buildProps` returns is the one its analysis calls
      for. */
  lemma BuildPropsFlag(site: Site, ps: seq<Prop>, helpers: seq<Helper>)
    ensures var acc := Loop(site, ps, helpers);
            BuildProps(site, ps, helpers).patchFlag == PatchFlagFor(acc.an, |acc.runtime|)
  {
  }

  /** The patch flag `buildProps` returns, bit by bit, against the props it
      was given: `FULL_PROPS` for unknown keys, which suppresses the class,
      style and hydration bits. */
  lemma BuildPropsFlags(site: Site, ps: seq<Prop>, helpers: seq<Helper>)
    ensures var f := BuildProps(site, ps, helpers).patchFlag;
            var dyn := AnyFlag(site, ps, DynamicFlag);
            && (f & FULL_PROPS != 0 <==> dyn)
            && (f & CLASS != 0 <==> !dyn && AnyFlag(site, ps, ClassFlag))
            && (f & STYLE != 0 <==> !dyn && AnyFlag(site, ps, StyleFlag))
            && (f & HYDRATE_EVENTS != 0 <==> !dyn && AnyFlag(site, ps, HydrationFlag))
  {
    BuildPropsFlag(site, ps, helpers);
    LoopFlag(site, ps, helpers, DynamicFlag);
    LoopFlag(site, ps, helpers, ClassFlag);
    LoopFlag(site, ps, helpers, StyleFlag);
    LoopFlag(site, ps, helpers, HydrationFlag);
  }

  /** `PROPS`: set exactly when the keys are known and some prop calls for
      a name. */
  lemma BuildPropsNamedFlag(site: Site, ps: seq<Prop>, helpers: seq<Helper>)
    ensures var f := BuildProps(site, ps, helpers).patchFlag;
            f & PROPS != 0 <==> !AnyFlag(site, ps, DynamicFlag) && exists i, x :: 0 <= i < |ps| && NamedAt(site, ps[i], x)
  {
    var an := Loop(site, ps, helpers).an;
    BuildPropsFlag(site, ps, helpers);
    LoopFlag(site, ps, helpers, DynamicFlag);
    LoopNames(site, ps, helpers);
    if |an.names| > 0 {
      assert an.names[0] in an.names;
      var i :| 0 <= i < |ps| && NamedAt(site, ps[i], an.names[0]);
    } else {
      forall i, x | 0 <= i < |ps|
        ensures !NamedAt(site, ps[i], x)
      {
        assert x !in an.names;
      }
    }
  }

  /** `NEED_PATCH`: set exactly when a ref or a runtime directive would go
      unpatched because no other bit but the hydration one is set. */
  lemma BuildPropsNeedPatch(site: Site, ps: seq<Prop>, helpers: seq<Helper>)
    ensures var f := BuildProps(site, ps, helpers).patchFlag;
            f & NEED_PATCH != 0 <==>
              (AnyFlag(site, ps, RefFlag) || GatherRuntime(site, ps) != [])
              && f & (CLASS | STYLE | PROPS | FULL_PROPS) == 0
  {
    BuildPropsFlag(site, ps, helpers);
    LoopFlag(site, ps, helpers, RefFlag);
    LoopLists(site, ps, helpers);
  }

  /** The names `buildProps` lists for the runtime to diff: each once, and
      exactly the names of the changing properties the props produce. */
  lemma BuildPropsNames(site: Site, ps: seq<Prop>, helpers: seq<Helper>)
    ensures var names := BuildProps(site, ps, helpers).dynamicPropNames;
            && Distinct(names)
            && forall x :: x in names <==> exists i :: 0 <= i < |ps| && NamedAt(site, ps[i], x)
  {
    LoopNames(site, ps, helpers);
  }

  /** The runtime directives and the errors of `buildProps`, in prop
      order. */
  lemma BuildPropsLists(site: Site, ps: seq<Prop>, helpers: seq<Helper>)
    ensures BuildProps(site, ps, helpers).directives == GatherRuntime(site, ps)
    ensures BuildProps(site, ps, helpers).errors == GatherErrors(site, ps)
  {
    LoopLists(site, ps, helpers);
  }

  /** With nothing spread, the props are one object literal of every
      property, duplicates merged, or nothing at all. */
  lemma BuildPropsObject(site: Site, ps: seq<Prop>, helpers: seq<Helper>)
    requires GatherSpreads(site, ps) == []
    ensures var all := GatherProps(site, ps);
            BuildProps(site, ps, helpers).props
            == if all == [] then None else Some(ObjectExpression(Dedupe.DedupeProperties(all), site.loc))
  {
    LoopNoSpread(site, ps, helpers);
  }

  /** With no literal properties, the props are the spread objects: nothing,
      the one spread object, or a `mergeProps` call of them in order. */
  lemma BuildPropsSpreads(site: Site, ps: seq<Prop>, helpers: seq<Helper>)
    requires GatherProps(site, ps) == []
    ensures var args := GatherSpreads(site, ps);
            BuildProps(site, ps, helpers).props
            == if |args| == 0 then None
               else if |args| == 1 then Some(args[0])
               else Some(CallExpression(HelperRef(MergeProps), args, site.loc))
    ensures |GatherSpreads(site, ps)| > 1 ==> MergeProps in BuildProps(site, ps, helpers).helpers
  {
    LoopNoProps(site, ps, helpers);
  }
}
