/** The template AST and the JavaScript AST the transforms build for code
    generation, as one tree type (the compiler's nodes are tagged by a numeric
    `type` and share a single dispatch in the code generator). */
module Ast {
  import opened Wrappers
  import opened Positions

  /** The runtime helpers a compiled render function may import. */
  datatype Helper =
    | Fragment | Teleport | Suspense | KeepAlive | BaseTransition
    | OpenBlock | CreateBlock | CreateVNode | CreateComment | CreateText | CreateStatic
    | ResolveComponent | ResolveDynamicComponent | ResolveDirective | WithDirectives
    | RenderList | RenderSlot | CreateSlots | ToDisplayString | MergeProps | ToHandlers
    | Camelize | SetBlockTracking | PushScopeId | PopScopeId | WithScopeId | WithCtx

  /** The name each helper is exported under by the runtime. */
  function HelperName(h: Helper): string {
    match h
    case Fragment => "Fragment"
    case Teleport => "Teleport"
    case Suspense => "Suspense"
    case KeepAlive => "KeepAlive"
    case BaseTransition => "BaseTransition"
    case OpenBlock => "openBlock"
    case CreateBlock => "createBlock"
    case CreateVNode => "createVNode"
    case CreateComment => "createCommentVNode"
    case CreateText => "createTextVNode"
    case CreateStatic => "createStaticVNode"
    case ResolveComponent => "resolveComponent"
    case ResolveDynamicComponent => "resolveDynamicComponent"
    case ResolveDirective => "resolveDirective"
    case WithDirectives => "withDirectives"
    case RenderList => "renderList"
    case RenderSlot => "renderSlot"
    case CreateSlots => "createSlots"
    case ToDisplayString => "toDisplayString"
    case MergeProps => "mergeProps"
    case ToHandlers => "toHandlers"
    case Camelize => "camelize"
    case SetBlockTracking => "setBlockTracking"
    case PushScopeId => "pushScopeId"
    case PopScopeId => "popScopeId"
    case WithScopeId => "withScopeId"
    case WithCtx => "withCtx"
  }

  /** The HTML namespace; other namespaces are numbers a platform assigns. */
  const HtmlNamespace: nat := 0

  datatype TextMode = Data | RcData | RawText | CData | AttributeValue

  /** What an element is, decided once its tag and attributes are read. */
  datatype ElementType = PlainElement | Component | SlotOutlet | TemplateWrapper

  /** The text of an attribute's value and where it stands. */
  datatype AttributeText = AttributeText(content: string, loc: SourceLocation)

  /** An attribute or a directive written on an element. */
  datatype Prop =
    | Attribute(name: string, value: Option<AttributeText>, loc: SourceLocation)
    | Directive(name: string, exp: Option<Node>, arg: Option<Node>, modifiers: seq<string>, loc: SourceLocation)

  /** A key/value pair of an object literal. */
  datatype Property = Property(key: Node, value: Node)

  datatype Node =
    // template nodes
    | Root(children: seq<Node>, loc: SourceLocation)
    | Element(ns: nat, tag: string, tagType: ElementType, props: seq<Prop>, children: seq<Node>,
              isSelfClosing: bool, loc: SourceLocation, codegenNode: Option<Node>)
    | Text(content: string, loc: SourceLocation)
    | Comment(content: string, loc: SourceLocation)
    | SimpleExpression(content: string, isStatic: bool, isConstant: bool, loc: SourceLocation)
    | Interpolation(contentNode: Node, loc: SourceLocation)
    | CompoundExpression(children: seq<Node>, loc: SourceLocation)
    // structural nodes the transforms create
    | If(branches: seq<Node>, loc: SourceLocation, codegenNode: Option<Node>)
    | IfBranch(condition: Option<Node>, children: seq<Node>, loc: SourceLocation)
    | For(source: Node, valueAlias: Option<Node>, keyAlias: Option<Node>, objectIndexAlias: Option<Node>,
          children: seq<Node>, loc: SourceLocation, codegenNode: Option<Node>)
    | TextCall(contentNode: Node, loc: SourceLocation, codegenNode: Option<Node>)
    // code generation nodes
    | VNodeCall(vnodeTag: Node, vnodeProps: Option<Node>, vnodeChildren: Option<Node>, patchFlag: Option<string>,
                dynamicProps: Option<string>, directives: Option<Node>, isBlock: bool, isForBlock: bool,
                loc: SourceLocation)
    | CallExpression(callee: Node, args: seq<Node>, loc: SourceLocation)
    | ObjectExpression(properties: seq<Property>, loc: SourceLocation)
    | ArrayExpression(elements: seq<Node>, loc: SourceLocation)
    | FunctionExpression(params: Option<Node>, returnValue: Option<Node>, newline: bool, isSlot: bool, loc: SourceLocation)
    | ConditionalExpression(test: Node, consequent: Node, alternate: Node, newline: bool)
    | CacheExpression(index: nat, value: Node, isVNode: bool)
    | BlockStatement(body: seq<Node>)
    | TemplateLiteral(elements: seq<Node>)
    | IfStatement(ifTest: Node, ifConsequent: Node, ifAlternate: Option<Node>)
    | AssignmentExpression(left: Node, right: Node)
    | SequenceExpression(expressions: seq<Node>)
    | ReturnStatement(returned: Node)
    // the plain JavaScript values that sit in children and argument lists
    | Raw(code: string)
    | HelperRef(helper: Helper)
    | NodeList(items: seq<Node>)

  /** `createSimpleExpression` with the default location and constness. */
  function Simple(content: string, isStatic: bool): Node {
    SimpleExpression(content, isStatic, false, LocStub)
  }

  /** `createObjectProperty` with a string key: the key becomes a static
      expression. */
  function PropertyOf(key: string, value: Node): Property {
    Property(Simple(key, true), value)
  }

  /** `createCallExpression` of a runtime helper. */
  function CallHelper(h: Helper, args: seq<Node>): Node {
    CallExpression(HelperRef(h), args, LocStub)
  }

  /** The helpers `createVNodeCall` registers for the call it builds. */
  function VNodeCallHelpers(isBlock: bool, hasDirectives: bool): (r: seq<Helper>)
    ensures isBlock <==> OpenBlock in r
    ensures isBlock <==> CreateBlock in r
    ensures !isBlock <==> CreateVNode in r
    ensures hasDirectives <==> WithDirectives in r
  {
    (if isBlock then [OpenBlock, CreateBlock] else [CreateVNode])
    + (if hasDirectives then [WithDirectives] else [])
  }

  /** An error the compiler reports, with the position it reports it at. */
  datatype CompilerError = CompilerError(code: nat, loc: Position)
}

/** The numeric error codes, as the compiler numbers them. */
module ErrorCodes {
  const AbruptClosingOfEmptyComment: nat := 0
  const CdataInHtmlContent: nat := 1
  const DuplicateAttribute: nat := 2
  const EndTagWithAttributes: nat := 3
  const EndTagWithTrailingSolidus: nat := 4
  const EofBeforeTagName: nat := 5
  const EofInCdata: nat := 6
  const EofInComment: nat := 7
  const EofInScriptHtmlCommentLikeText: nat := 8
  const EofInTag: nat := 9
  const IncorrectlyClosedComment: nat := 10
  const IncorrectlyOpenedComment: nat := 11
  const InvalidFirstCharacterOfTagName: nat := 12
  const MissingAttributeValue: nat := 13
  const MissingEndTagName: nat := 14
  const MissingWhitespaceBetweenAttributes: nat := 15
  const NestedComment: nat := 16
  const UnexpectedCharacterInAttributeName: nat := 17
  const UnexpectedCharacterInUnquotedAttributeValue: nat := 18
  const UnexpectedEqualsSignBeforeAttributeName: nat := 19
  const UnexpectedQuestionMarkInsteadOfTagName: nat := 21
  const UnexpectedSolidusInTag: nat := 22
  const InvalidEndTag: nat := 23
  const MissingEndTag: nat := 24
  const MissingInterpolationEnd: nat := 25
  const MissingDynamicDirectiveArgumentEnd: nat := 26
  const VIfNoExpression: nat := 27
  const VElseNoAdjacentIf: nat := 28
  const VForNoExpression: nat := 29
  const VForMalformedExpression: nat := 30
  const VBindNoExpression: nat := 31
  const VOnNoExpression: nat := 32
  const VSlotUnexpectedDirectiveOnSlotOutlet: nat := 33
  const VSlotMixedSlotUsage: nat := 34
  const VSlotDuplicateSlotNames: nat := 35
  const VSlotExtraneousDefaultSlotChildren: nat := 36
  const VSlotMisplaced: nat := 37
  const VModelNoExpression: nat := 38
  const VModelMalformedExpression: nat := 39
  const VModelOnScopeVariable: nat := 40
  const InvalidExpression: nat := 41
  const KeepAliveInvalidChildren: nat := 42
  const PrefixIdNotSupported: nat := 43
  const ModuleModeNotSupported: nat := 44
  const CacheHandlerNotSupported: nat := 45
  const ScopeIdNotSupported: nat := 46
}
