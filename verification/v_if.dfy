// `v-if`, `v-else-if` and `v-else`: the element carrying `v-if` is replaced by
// an if node whose branches collect the adjacent `v-else-if` / `v-else`
// elements, and once the branches are transformed the if node's code is a
// chain of conditional expressions, one arm per branch, each keyed by its
// branch index.

module VIf {
  import opened Wrappers
  import opened Strings
  import opened Positions
  import opened Ast
  import opened AstUtils
  import opened TransformContext
  import Expressions
  import PatchFlags
  import ErrorCodes

  /** The directives the transform handles. */
  predicate IsIfDirective(p: Prop) {
    p.Directive? && (p.name == "if" || p.name == "else" || p.name == "else-if")
  }

  /** A `v-if` or `v-else-if` whose expression is missing or blank. */
  predicate LacksCondition(dir: Prop)
    requires dir.Directive?
  {
    dir.name != "else" && (dir.exp.None? || (dir.exp.value.SimpleExpression? && Trim(dir.exp.value.content) == ""))
  }

  /** The first step of `processIf`: a missing condition is reported and
      replaced by `true`, located at the blank expression or, when there is
      none, at the element. */
  function CheckCondition(node: Node, dir: Prop): (r: (Prop, seq<CompilerError>))
    requires node.Element? && IsIfDirective(dir)
    ensures r.0.Directive? && r.0.name == dir.name && r.0.loc == dir.loc
    ensures LacksCondition(dir) <==> |r.1| > 0
    ensures LacksCondition(dir) ==>
              r.1 == [CompilerError(ErrorCodes.VIfNoExpression, dir.loc.start)]
              && r.0.exp == Some(SimpleExpression("true", false, false, if dir.exp.Some? then LocOf(dir.exp.value) else node.loc))
    ensures !LacksCondition(dir) ==> r.0 == dir
    ensures dir.name != "else" ==> r.0.exp.Some?
  {
    if LacksCondition(dir) then
      var loc := if dir.exp.Some? then LocOf(dir.exp.value) else node.loc;
      (dir.(exp := Some(SimpleExpression("true", false, false, loc))), [CompilerError(ErrorCodes.VIfNoExpression, dir.loc.start)])
    else (dir, [])
  }

  /** `createIfBranch`: a `v-else` branch has no condition; a `<template>`
      contributes its children, any other element itself. */
  function CreateIfBranch(node: Node, dir: Prop): (b: Node)
    requires node.Element? && dir.Directive?
    ensures b.IfBranch? && b.loc == node.loc
    ensures dir.name == "else" ==> b.condition.None?
    ensures dir.name != "else" ==> b.condition == dir.exp
    ensures node.tagType == TemplateWrapper ==> b.children == node.children
    ensures node.tagType != TemplateWrapper ==> b.children == [node]
  {
    IfBranch(if dir.name == "else" then None else dir.exp, if node.tagType == TemplateWrapper then node.children else [node], node.loc)
  }

  /** The condition a branch is built with: the checked condition, through
      the `processExpression` fast path read in the enclosing scope. */
  function ProcessedCondition(node: Node, dir: Prop, sc: Expressions.Scope): (r: Option<Node>)
    requires node.Element? && IsIfDirective(dir)
    ensures dir.name != "else" ==> r.Some?
    ensures !sc.prefixIdentifiers ==> r == CheckCondition(node, dir).0.exp
  {
    var d := CheckCondition(node, dir).0;
    if d.exp.Some? then Some(Expressions.Fast(d.exp.value, sc, false)) else None
  }

  /** With prefixed identifiers, a condition that is a bare name, neither in
      scope nor a known global, is read from the render context; a scope
      variable is read as it is written. */
  lemma {:induction false} ConditionPrefixed(node: Node, dir: Prop, sc: Expressions.Scope)
    requires node.Element? && IsIfDirective(dir) && dir.name != "else"
    requires sc.prefixIdentifiers && dir.exp.Some? && dir.exp.value.SimpleExpression?
    requires |dir.exp.value.content| > 0 && IsSimpleIdentifier(dir.exp.value.content)
    ensures ProcessedCondition(node, dir, sc).value.SimpleExpression?
    ensures ProcessedCondition(node, dir, sc).value.loc == dir.exp.value.loc
    ensures Expressions.Prefixed(sc, dir.exp.value.content, false)
            ==> ProcessedCondition(node, dir, sc).value.content == Expressions.CtxPrefix + dir.exp.value.content
    ensures InScope(sc.identifiers, dir.exp.value.content)
            ==> ProcessedCondition(node, dir, sc).value == dir.exp.value
  {
    var e := dir.exp.value;
    assert IsIdentChar(e.content[0]) && !IsJsSpace(e.content[0]);
    TrimFacts(e.content);
    assert !LacksCondition(dir);
  }

  /** What `processIf` did to the list holding the element. */
  datatype IfStep = IfStep(siblings: seq<Node>, removed: bool, errors: seq<CompilerError>)

  /** `processIf` on the element at `index` of its parent's children. A
      `v-if` element is replaced by an if node holding its branch. A
      `v-else-if` / `v-else` element is moved into the branches of the if node
      right before it; only the immediately preceding sibling is looked at,
      and when that is not an if node the element stays and error 28 is
      reported. With prefixed identifiers the (checked) condition goes
      through `processExpression` in the enclosing scope before the branch
      is built, since `transformExpression` never sees it. */
  function ProcessIf(siblings: seq<Node>, index: nat, dir: Prop, sc: Expressions.Scope): (r: IfStep)
    requires index < |siblings| && siblings[index].Element? && IsIfDirective(dir)
    ensures CheckCondition(siblings[index], dir).1 <= r.errors
    ensures dir.name == "if" ==>
              && !r.removed && |r.siblings| == |siblings|
              && r.siblings[index].If? && |r.siblings[index].branches| == 1 && r.siblings[index].loc == siblings[index].loc
              && r.siblings[index].branches[0].IfBranch? && r.siblings[index].branches[0].condition.Some?
              && (forall k :: 0 <= k < |siblings| && k != index ==> r.siblings[k] == siblings[k])
    ensures dir.name != "if" && index > 0 && siblings[index - 1].If? ==>
              && r.removed && |r.siblings| == |siblings| - 1
              && r.siblings[index - 1].If?
              && |r.siblings[index - 1].branches| == |siblings[index - 1].branches| + 1
              && r.siblings[index - 1].branches[..|siblings[index - 1].branches|] == siblings[index - 1].branches
              && r.siblings[index - 1].branches[|siblings[index - 1].branches|].IfBranch?
              && (r.siblings[index - 1].branches[|siblings[index - 1].branches|].condition.None? <==> dir.name == "else")
              && (forall k :: 0 <= k < index - 1 ==> r.siblings[k] == siblings[k])
              && (forall k :: index <= k < |r.siblings| ==> r.siblings[k] == siblings[k + 1])
              && (forall e :: e in r.errors ==> e.code == ErrorCodes.VIfNoExpression)
    ensures dir.name != "if" ==>
              ((index == 0 || !siblings[index - 1].If?)
               <==> (!r.removed && r.siblings == siblings && |r.errors| > 0
                     && r.errors[|r.errors| - 1] == CompilerError(ErrorCodes.VElseNoAdjacentIf, siblings[index].loc.start)))
    ensures dir.name == "if" ==>
              r.siblings[index].branches[0].condition == ProcessedCondition(siblings[index], dir, sc)
    ensures dir.name == "else-if" && index > 0 && siblings[index - 1].If? ==>
              r.siblings[index - 1].branches[|siblings[index - 1].branches|].condition
              == ProcessedCondition(siblings[index], dir, sc)
  {
    var node := siblings[index];
    var (d0, errors) := CheckCondition(node, dir);
    var d := Directive(d0.name, ProcessedCondition(node, dir, sc), d0.arg, d0.modifiers, d0.loc);
    var branch := CreateIfBranch(node, d);
    if dir.name == "if" then
      IfStep(siblings[index := If([branch], node.loc, None)], false, errors)
    else if index > 0 && siblings[index - 1].If? then
      var target := siblings[index - 1];
      var grown := If(target.branches + [branch], target.loc, target.codegenNode);
      IfStep(siblings[..index - 1] + [grown] + siblings[index + 1..], true, errors)
    else
      IfStep(siblings, false, errors + [CompilerError(ErrorCodes.VElseNoAdjacentIf, node.loc.start)])
  }

  // ----- code generation -----

  /** `createCallExpression(helper(CREATE_COMMENT), ['""', 'true'])`: the empty
      comment a chain without `v-else` ends in. */
  const CommentFallback := CallHelper(CreateComment, [Raw("\"\""), Raw("true")])

  /** The `key` property of branch `index`: its decimal value. */
  function KeyProperty(index: nat): (p: Property)
    ensures p.key == Simple("key", true) && p.value.SimpleExpression? && !p.value.isStatic
    ensures ParseInt(p.value.content) == Some(index)
  {
    ParseIntOfIntToString(index, "");
    assert NatToString(index) + "" == NatToString(index);
    PropertyOf("key", Simple(NatToString(index), false))
  }

  /** What the codegen of a branch needs: a single element or loop child has
      its own code already (its transform ran while the branch was walked),
      and that code is a call, not a conditional (an element's code is a
      vnode call or a slot call, a loop's a fragment). */
  predicate ReadyBranch(branch: Node) {
    branch.IfBranch?
    && (|branch.children| == 1 && (branch.children[0].Element? || branch.children[0].For?)
        ==> branch.children[0].codegenNode.Some? && !branch.children[0].codegenNode.value.ConditionalExpression?)
  }

  /** The stable fragment block a branch with several children, or with a
      single child that is neither an element nor a loop, renders as. */
  function KeyedFragment(branch: Node, key: Property, helpers: seq<Helper>): (r: Built)
    requires branch.IfBranch?
    ensures r.node.VNodeCall? && r.node.isBlock && !r.node.isForBlock && r.node.vnodeTag == HelperRef(Fragment)
    ensures r.node.vnodeChildren == Some(NodeList(branch.children))
    ensures r.node.vnodeProps == Some(ObjectExpression([key], LocStub))
    ensures r.node.patchFlag.Some? && ParseInt(r.node.patchFlag.value) == Some(PatchFlags.STABLE_FRAGMENT as int)
    ensures forall h :: h in r.helpers <==> h in helpers || h in [Fragment, OpenBlock, CreateBlock]
  {
    Built(VNodeCall(HelperRef(Fragment), Some(ObjectExpression([key], LocStub)), Some(NodeList(branch.children)),
                    Some(PatchFlags.Annotated(PatchFlags.STABLE_FRAGMENT)), None, None, true, false, branch.loc),
          AddAll(helpers, [Fragment, OpenBlock, CreateBlock]))
  }

  /** A single element's code with the key injected: a vnode call becomes a
      block unless the element is a component other than `Teleport`
      (components are tracked anyway). */
  function KeyedElement(child: Node, key: Property, helpers: seq<Helper>): (r: Built)
    requires child.Element? && child.codegenNode.Some?
    ensures forall h :: h in helpers ==> h in r.helpers
    ensures var call := child.codegenNode.value;
            call.VNodeCall? ==>
              && r.node.VNodeCall? && r.node.vnodeTag == call.vnodeTag && r.node.vnodeChildren == call.vnodeChildren
              && (r.node.isBlock <==> call.isBlock || child.tagType != Component || call.vnodeTag == HelperRef(Teleport))
              && (child.tagType != Component ==> OpenBlock in r.helpers && CreateBlock in r.helpers)
              && r.node.vnodeProps.Some?
              && (call.vnodeProps.None?
                  || (call.vnodeProps.value.ObjectExpression? && key.key.SimpleExpression?
                      && !HasKeyNamed(call.vnodeProps.value.properties, key.key.content))
                  ==> r.node.vnodeProps.value.ObjectExpression?
                      && |r.node.vnodeProps.value.properties| > 0 && r.node.vnodeProps.value.properties[0] == key)
    ensures !child.codegenNode.value.VNodeCall? ==> r.node == InjectProp(child.codegenNode.value, key).node
  {
    var call := child.codegenNode.value;
    var asBlock := call.VNodeCall? && (child.tagType != Component || call.vnodeTag == HelperRef(Teleport));
    var call' := if asBlock then AsBlock(call) else call;
    var helpers' := if asBlock then AddAll(helpers, [OpenBlock, CreateBlock]) else helpers;
    var injected := InjectProp(call', key);
    Built(injected.node, if injected.usesMergeProps then AddOnce(helpers', MergeProps) else helpers')
  }

  /** `createChildrenCodegenNode`: a single element's code, a single loop's
      fragment, or a stable fragment block around the children; in every
      case carrying `key: index`. */
  function ChildrenCodegen(branch: Node, index: nat, helpers: seq<Helper>): (r: Built)
    requires ReadyBranch(branch)
    ensures forall h :: h in helpers ==> h in r.helpers
    ensures !r.node.ConditionalExpression?
  {
    var key := KeyProperty(index);
    var children := branch.children;
    if |children| == 1 && children[0].Element? then KeyedElement(children[0], key, helpers)
    else if |children| == 1 && children[0].For? then
      var injected := InjectProp(children[0].codegenNode.value, key);
      Built(injected.node, if injected.usesMergeProps then AddOnce(helpers, MergeProps) else helpers)
    else KeyedFragment(branch, key, helpers)
  }

  /** `createCodegenNodeForBranch`: a branch with a condition tests it and
      falls back to the empty comment; a `v-else` branch is just its code. */
  function BranchCodegen(branch: Node, index: nat, helpers: seq<Helper>): (r: Built)
    requires ReadyBranch(branch)
    ensures forall h :: h in helpers ==> h in r.helpers
    ensures branch.condition.Some? <==> r.node.ConditionalExpression?
    ensures branch.condition.Some? ==>
              r.node.test == branch.condition.value && r.node.alternate == CommentFallback && CreateComment in r.helpers
              && r.node.consequent == ChildrenCodegen(branch, index, helpers).node
    ensures branch.condition.None? ==> r.node == ChildrenCodegen(branch, index, helpers).node
  {
    var children := ChildrenCodegen(branch, index, helpers);
    if branch.condition.Some? then
      Built(ConditionalExpression(branch.condition.value, children.node, CommentFallback, true),
            AddOnce(children.helpers, CreateComment))
    else children
  }

  /** The arms of a conditional chain: each consequent, then the last
      alternate. */
  function Arms(chain: Node): (r: seq<Node>)
    ensures |r| >= 1
  {
    if chain.ConditionalExpression? then [chain.consequent] + Arms(chain.alternate) else [chain]
  }

  /** The exit callback of a later branch: its code replaces the last
      alternate of the chain (`parentCondition.alternate = …`). */
  function Attach(chain: Node, arm: Node): (r: Node)
    requires chain.ConditionalExpression?
    ensures r.ConditionalExpression? && r.test == chain.test
    ensures Arms(r) == Arms(chain)[..|Arms(chain)| - 1] + Arms(arm)
  {
    if chain.alternate.ConditionalExpression? then
      var inner := Attach(chain.alternate, arm);
      ConsInit(chain.consequent, Arms(chain.alternate), Arms(arm));
      ConditionalExpression(chain.test, chain.consequent, inner, chain.newline)
    else ConditionalExpression(chain.test, chain.consequent, arm, chain.newline)
  }

  lemma ConsInit<T>(x: T, a: seq<T>, b: seq<T>)
    requires |a| >= 1
    ensures ([x] + a)[..|a|] + b == [x] + (a[..|a| - 1] + b)
  {
    assert ([x] + a)[..|a|] == [x] + a[..|a| - 1];
  }

  /** All branches are ready for code generation. */
  predicate ReadyBranches(branches: seq<Node>) {
    forall k :: 0 <= k < |branches| ==> ReadyBranch(branches[k])
  }

  /** `createCodegenNodeForBranch` as the exit callbacks call it: a branch
      that is not ready keeps no code of its own (it cannot occur once the
      branch was walked). */
  function BranchCode(branch: Node, index: nat, helpers: seq<Helper>): Built {
    if ReadyBranch(branch) then BranchCodegen(branch, index, helpers) else Built(branch, helpers)
  }

  /** The code each branch's exit callback builds with `gen`, in branch
      order, each from the helpers the earlier ones left. */
  function BranchCodes(branches: seq<Node>, helpers: seq<Helper>, gen: (Node, nat, seq<Helper>) -> Built): (r: (seq<Node>, seq<Helper>))
    ensures |r.0| == |branches|
    decreases |branches|
  {
    if |branches| == 0 then ([], helpers)
    else
      var n := |branches| - 1;
      var (codes, hs) := BranchCodes(branches[..n], helpers, gen);
      var b := gen(branches[n], n, hs);
      (codes + [b.node], b.helpers)
  }

  /** The code of branch k is built from the helpers the earlier branches
      left. */
  lemma {:induction false} BranchCodesAt(branches: seq<Node>, helpers: seq<Helper>, gen: (Node, nat, seq<Helper>) -> Built, k: nat)
    requires k < |branches|
    ensures BranchCodes(branches, helpers, gen).0[k]
            == gen(branches[k], k, BranchCodes(branches[..k], helpers, gen).1).node
    decreases |branches|
  {
    var n := |branches| - 1;
    if k < n {
      BranchCodesAt(branches[..n], helpers, gen, k);
      assert branches[..n][..k] == branches[..k];
    } else {
      assert branches[..k] == branches[..n];
    }
  }

  /** Each code has a condition at its head exactly when its branch does,
      and then falls back to the empty comment. */
  lemma BranchCodesConditional(branches: seq<Node>, helpers: seq<Helper>, k: nat)
    requires ReadyBranches(branches) && k < |branches|
    ensures var code := BranchCodes(branches, helpers, BranchCode).0[k];
            && (code.ConditionalExpression? <==> branches[k].condition.Some?)
            && (code.ConditionalExpression? ==> code.alternate == CommentFallback)
  {
    BranchCodesAt(branches, helpers, BranchCode, k);
  }

  /** The arm in each code is its branch's arm. */
  lemma BranchCodesArm(branches: seq<Node>, helpers: seq<Helper>, k: nat)
    requires ReadyBranches(branches) && k < |branches|
    ensures var code := BranchCodes(branches, helpers, BranchCode).0[k];
            if code.ConditionalExpression? then code.consequent == ArmOf(branches[k], k) else code == ArmOf(branches[k], k)
  {
    BranchCodesAt(branches, helpers, BranchCode, k);
    ChildrenCodegenNodeIgnoresHelpers(branches[k], k, BranchCodes(branches[..k], helpers, BranchCode).1, []);
  }

  /** The chain the exit callbacks assemble: the first branch's code, then
      each later code attached in order. */
  function ChainNode(codes: seq<Node>): (r: Node)
    requires |codes| > 0 && codes[0].ConditionalExpression?
    ensures r.ConditionalExpression?
    decreases |codes|
  {
    if |codes| == 1 then codes[0]
    else
      var n := |codes| - 1;
      Attach(ChainNode(codes[..n]), codes[n])
  }

  /** The code of an if node once every branch's exit callback ran. The
      first branch is the `v-if` one, so it has a condition. */
  function IfCodegen(branches: seq<Node>, helpers: seq<Helper>): (r: Built)
    requires |branches| > 0 && ReadyBranches(branches) && branches[0].condition.Some?
    ensures r.node.ConditionalExpression?
  {
    var (codes, hs) := BranchCodes(branches, helpers, BranchCode);
    BranchCodesConditional(branches, helpers, 0);
    Built(ChainNode(codes), hs)
  }

  /** The consequent of each conditional in a list. */
  function Consequents(codes: seq<Node>): (r: seq<Node>)
    requires forall k :: 0 <= k < |codes| ==> codes[k].ConditionalExpression?
    ensures |r| == |codes| && forall k :: 0 <= k < |codes| ==> r[k] == codes[k].consequent
    decreases |codes|
  {
    if |codes| == 0 then [] else Consequents(codes[..|codes| - 1]) + [codes[|codes| - 1].consequent]
  }

  /** When every code before the last is a conditional falling back to a
      non-conditional, the chain's arms are their consequents, then the arms
      of the last code. */
  lemma {:induction false} ChainArms(codes: seq<Node>)
    requires |codes| > 0
    requires forall k :: 0 <= k < |codes| - 1 ==> codes[k].ConditionalExpression? && !codes[k].alternate.ConditionalExpression?
    requires codes[0].ConditionalExpression?
    ensures Arms(ChainNode(codes)) == Consequents(codes[..|codes| - 1]) + Arms(codes[|codes| - 1])
    decreases |codes|
  {
    var n := |codes| - 1;
    if n > 0 {
      var init := codes[..n];
      assert init[..n - 1] == codes[..n - 1];
      ChainArms(init);
      var before := Arms(ChainNode(init));
      assert Arms(codes[n - 1]) == [codes[n - 1].consequent, codes[n - 1].alternate];
      assert before == Consequents(codes[..n - 1]) + [codes[n - 1].consequent, codes[n - 1].alternate];
      assert before[..|before| - 1] == Consequents(codes[..n - 1]) + [codes[n - 1].consequent];
      assert codes[..n][..n - 1] == codes[..n - 1];
      assert Consequents(codes[..n]) == Consequents(codes[..n - 1]) + [codes[n - 1].consequent];
    }
  }

  /** The arm a branch contributes: the code of its children, keyed by its
      index. */
  function ArmOf(branch: Node, index: nat): Node
    requires ReadyBranch(branch)
  {
    ChildrenCodegen(branch, index, []).node
  }

  /** A branch's arm does not depend on the helpers collected before it. */
  lemma ChildrenCodegenNodeIgnoresHelpers(branch: Node, index: nat, a: seq<Helper>, b: seq<Helper>)
    requires ReadyBranch(branch)
    ensures ChildrenCodegen(branch, index, a).node == ChildrenCodegen(branch, index, b).node
  {
  }

  /** Under a `v-if` chain whose branches before the last all have a
      condition, the chain's arms are the consequents of the earlier codes,
      then the arms of the last. */
  lemma IfChain(branches: seq<Node>, helpers: seq<Helper>)
    requires |branches| > 0 && ReadyBranches(branches)
    requires forall j :: 0 <= j < |branches| - 1 ==> branches[j].condition.Some?
    requires branches[0].condition.Some?
    ensures var codes := BranchCodes(branches, helpers, BranchCode).0;
            && (forall j :: 0 <= j < |branches| - 1 ==> codes[j].ConditionalExpression?)
            && Arms(IfCodegen(branches, helpers).node) == Consequents(codes[..|branches| - 1]) + Arms(codes[|branches| - 1])
  {
    var codes := BranchCodes(branches, helpers, BranchCode).0;
    forall j | 0 <= j < |branches| - 1
      ensures codes[j].ConditionalExpression? && !codes[j].alternate.ConditionalExpression?
    {
      BranchCodesConditional(branches, helpers, j);
    }
    BranchCodesConditional(branches, helpers, 0);
    ChainArms(codes);
  }

  /** In such a chain, arm k is branch k's code keyed by k. */
  lemma IfChainArms(branches: seq<Node>, helpers: seq<Helper>, k: nat)
    requires |branches| > 0 && ReadyBranches(branches)
    requires forall j :: 0 <= j < |branches| - 1 ==> branches[j].condition.Some?
    requires branches[0].condition.Some?
    requires k < |branches|
    ensures var arms := Arms(IfCodegen(branches, helpers).node);
            k < |arms| && arms[k] == ArmOf(branches[k], k)
  {
    var n := |branches| - 1;
    var codes := BranchCodes(branches, helpers, BranchCode).0;
    IfChain(branches, helpers);
    BranchCodesArm(branches, helpers, k);
    if k == n {
      BranchCodesConditional(branches, helpers, n);
    }
  }

  /** Such a chain has one arm per branch and then the empty comment, unless
      its last branch is `v-else`. */
  lemma IfChainClosing(branches: seq<Node>, helpers: seq<Helper>)
    requires |branches| > 0 && ReadyBranches(branches)
    requires forall j :: 0 <= j < |branches| - 1 ==> branches[j].condition.Some?
    requires branches[0].condition.Some?
    ensures var arms := Arms(IfCodegen(branches, helpers).node);
            && (branches[|branches| - 1].condition.Some? <==> |arms| == |branches| + 1)
            && (branches[|branches| - 1].condition.None? ==> |arms| == |branches|)
            && (branches[|branches| - 1].condition.Some? ==> arms[|branches|] == CommentFallback)
  {
    IfChain(branches, helpers);
    LastCodeArms(branches, helpers);
  }

  /** The last code has two arms, its own and the empty comment, when its
      branch has a condition, and one arm otherwise. */
  lemma LastCodeArms(branches: seq<Node>, helpers: seq<Helper>)
    requires |branches| > 0 && ReadyBranches(branches)
    ensures var arms := Arms(BranchCodes(branches, helpers, BranchCode).0[|branches| - 1]);
            && |arms| == (if branches[|branches| - 1].condition.Some? then 2 else 1)
            && (branches[|branches| - 1].condition.Some? ==> arms[1] == CommentFallback)
  {
    var k := |branches| - 1;
    BranchCodesConditional(branches, helpers, k);
    ArmsOfCode(BranchCodes(branches, helpers, BranchCode).0[k]);
  }

  /** The arms of one branch's code: its own arm, and the comment fallback
      when it is conditional. */
  lemma ArmsOfCode(code: Node)
    requires code.ConditionalExpression? ==> code.alternate == CommentFallback
    ensures |Arms(code)| == (if code.ConditionalExpression? then 2 else 1)
    ensures code.ConditionalExpression? ==> Arms(code)[1] == CommentFallback
  {
  }

  /** A branch that follows a `v-else` is attached where the `v-else` code
      was: the chain keeps every earlier arm but the `v-else` one, whose
      place the new branch's arm takes. */
  lemma BranchAfterElse(branches: seq<Node>, helpers: seq<Helper>)
    requires |branches| > 1 && ReadyBranches(branches) && branches[0].condition.Some?
    requires branches[|branches| - 2].condition.None?
    ensures var n := |branches| - 1;
            var before := Arms(IfCodegen(branches[..n], helpers).node);
            var arms := Arms(IfCodegen(branches, helpers).node);
            && |before| <= |arms|
            && arms[..|before| - 1] == before[..|before| - 1]
            && arms[|before| - 1] == ArmOf(branches[n], n)
  {
    var n := |branches| - 1;
    IfCodegenGrows(branches, helpers);
    BranchCodesArm(branches, helpers, n);
  }

  /** The chain of one more branch is the chain before it with that
      branch's code attached. */
  lemma IfCodegenGrows(branches: seq<Node>, helpers: seq<Helper>)
    requires |branches| > 1 && ReadyBranches(branches) && branches[0].condition.Some?
    ensures var n := |branches| - 1;
            var before := Arms(IfCodegen(branches[..n], helpers).node);
            Arms(IfCodegen(branches, helpers).node)
            == before[..|before| - 1] + Arms(BranchCodes(branches, helpers, BranchCode).0[n])
  {
    var n := |branches| - 1;
    var init := branches[..n];
    assert ReadyBranches(init) && init[0] == branches[0];
    var initCodes := BranchCodes(init, helpers, BranchCode).0;
    IfCodegenAttach(branches, helpers);
    assert IfCodegen(init, helpers).node == ChainNode(initCodes);
  }

  lemma IfCodegenAttach(branches: seq<Node>, helpers: seq<Helper>)
    requires |branches| > 1 && ReadyBranches(branches) && branches[0].condition.Some?
    ensures var n := |branches| - 1;
            var initCodes := BranchCodes(branches[..n], helpers, BranchCode).0;
            |initCodes| > 0 && initCodes[0].ConditionalExpression?
            && IfCodegen(branches, helpers).node == Attach(ChainNode(initCodes), BranchCodes(branches, helpers, BranchCode).0[n])
  {
    var n := |branches| - 1;
    var init := branches[..n];
    assert ReadyBranches(init) && init[0] == branches[0];
    var codes := BranchCodes(branches, helpers, BranchCode).0;
    var initCodes := BranchCodes(init, helpers, BranchCode).0;
    assert codes[..n] == initCodes;
    BranchCodesConditional(init, helpers, 0);
  }
}
