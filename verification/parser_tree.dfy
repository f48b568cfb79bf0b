/** The recursive part of the parser: `baseParse`, `parseChildren`,
    `parseElement`, `parseTag` and `parseCDATA`. A children list is read
    until `isEnd` says the parent's end tag (or the end of the template) is
    reached; each round files what it read with `pushNode`, and the list is
    condensed once it is complete.

    Two places of the code as written are corrected, and the methods take
    `asWritten` to choose between the two behaviours (see
    `LeaveElementAsWritten` and `PreAfterTagAsWritten`): corrected, an
    element always switches `<pre>` and `v-pre` mode back off when it ends,
    and only a start tag switches `<pre>` mode on. With those corrections
    every element leaves the two modes as it found them. */
module ParserTree {
  import opened Wrappers
  import opened Strings
  import opened Positions
  import opened Ast
  import opened ParserContext
  import opened Attributes
  import opened Whitespace
  import opened Parser
  import AstUtils
  import ErrorCodes

  // ---------------------------------------------------------------------
  // Tags
  // ---------------------------------------------------------------------

  /** The tag name `/^<\/?([a-z][^\t\r\n\f />]*)/i` captures: the letter
      after `<` or `</` and every character up to the next tag break. */
  function TagName(s: string, kind: TagKind): (t: string)
    requires TagOpenAt(s, kind)
    ensures |t| > 0 && IsAsciiLetter(t[0])
    ensures OpenLength(kind) + |t| <= |s| && s[OpenLength(kind)..OpenLength(kind) + |t|] == t
    ensures forall i :: 1 <= i < |t| ==> !IsTagBreak(t[i])
    ensures OpenLength(kind) + |t| == |s| || IsTagBreak(s[OpenLength(kind) + |t|])
  {
    var k := OpenLength(kind);
    var n := 1 + Run(s[k + 1..], c => !IsTagBreak(c));
    var t := s[k..k + n];
    assert forall i :: 1 <= i < n ==> t[i] == s[k + 1..][i - 1];
    t
  }

  /** The length of `<` or `</`. */
  function OpenLength(kind: TagKind): nat {
    if kind == StartTag then 1 else 2
  }

  /** The directive `v-pre`, as read outside `v-pre` mode. */
  predicate IsVPre(p: Prop) {
    p.Directive? && p.name == "pre"
  }

  predicate HasVPre(props: seq<Prop>) {
    exists i :: 0 <= i < |props| && IsVPre(props[i])
  }

  /** `filter(p => p.name !== name)`. */
  function WithoutName(props: seq<Prop>, name: string): (r: seq<Prop>)
    ensures forall i :: 0 <= i < |r| ==> r[i].name != name && r[i] in props
    ensures forall i :: 0 <= i < |props| && props[i].name != name ==> props[i] in r
    decreases |props|
  {
    if |props| == 0 then []
    else
      var rest := WithoutName(props[1..], name);
      assert forall p :: p in props[1..] ==> p in props;
      if props[0].name == name then rest else [props[0]] + rest
  }

  /** `if`, `else`, `else-if`, `for` and `slot`: the directives that make a
      `<template>` a structural wrapper. */
  predicate IsSpecialTemplateDirective(p: Prop) {
    p.Directive? && p.name in {"if", "else", "else-if", "for", "slot"}
  }

  predicate HasVIs(props: seq<Prop>) {
    exists i :: 0 <= i < |props| && props[i].Directive? && props[i].name == "is"
  }

  /** Whether a tag names a component: with a native-tag table (and no
      `v-is`), exactly when the table does not know it; otherwise when it has
      `v-is`, is a core or platform built-in component, starts with an
      upper-case letter, or is `component`. */
  predicate IsComponentTag(o: ParserOptions, tag: string, props: seq<Prop>) {
    if o.isNativeTag.Some? && !HasVIs(props) then !o.isNativeTag.value(tag)
    else
      HasVIs(props) || AstUtils.CoreComponent(tag).Some?
      || (o.isBuiltInComponent.Some? && o.isBuiltInComponent.value(tag))
      || (|tag| > 0 && 'A' <= tag[0] <= 'Z') || tag == "component"
  }

  /** The tag type `parseTag` assigns. Inside `v-pre` and for custom
      elements everything is a plain element; otherwise `slot` is a slot
      outlet, a `<template>` with a structural directive is a wrapper, and a
      component tag is a component. */
  function ClassifyTag(o: ParserOptions, tag: string, props: seq<Prop>, inVPre: bool): (t: ElementType)
    ensures inVPre || o.isCustomElement(tag) ==> t == PlainElement
    ensures t == SlotOutlet <==> !inVPre && !o.isCustomElement(tag) && tag == "slot"
    ensures t == TemplateWrapper <==>
              !inVPre && !o.isCustomElement(tag) && tag == "template"
              && exists i :: 0 <= i < |props| && IsSpecialTemplateDirective(props[i])
    ensures t == Component <==>
              !inVPre && !o.isCustomElement(tag) && tag != "slot" && t != TemplateWrapper
              && IsComponentTag(o, tag, props)
    ensures !inVPre && !o.isCustomElement(tag) && o.isNativeTag.None? && |tag| > 0 && 'A' <= tag[0] <= 'Z'
            ==> t == Component
  {
    if inVPre || o.isCustomElement(tag) then PlainElement
    else if tag == "slot" then SlotOutlet
    else if tag == "template" && exists i :: 0 <= i < |props| && IsSpecialTemplateDirective(props[i]) then
      TemplateWrapper
    else if IsComponentTag(o, tag, props) then Component
    else PlainElement
  }

  /** Whether `<pre>` mode is on after a tag: the corrected rule, where only
      a start tag of a pre tag switches it on. */
  function PreAfterTag(o: ParserOptions, kind: TagKind, tag: string, inPre: bool): (r: bool)
    ensures kind == EndTag ==> r == inPre
    ensures r <==> inPre || (kind == StartTag && o.isPreTag(tag))
  {
    inPre || (kind == StartTag && o.isPreTag(tag))
  }

  /** The rule as written: `parseTag` checks `isPreTag` for end tags too. */
  function PreAfterTagAsWritten(o: ParserOptions, kind: TagKind, tag: string, inPre: bool): (r: bool)
    ensures r <==> inPre || o.isPreTag(tag)
  {
    inPre || o.isPreTag(tag)
  }

  /** Options under which `pre` is a pre tag, as on the DOM platform. */
  const PreOptions: ParserOptions := DefaultOptions.(isPreTag := tag => tag == "pre")

  /** A stray `</pre>` (an end tag no open element matches, which
      `parseChildren` reads with `parseTag` and drops) switches `<pre>` mode
      on as written, and nothing switches it off again; the corrected rule
      leaves the mode alone. */
  lemma StrayPreEndTagAsWritten()
    ensures PreAfterTagAsWritten(PreOptions, EndTag, "pre", false)
    ensures !PreAfterTag(PreOptions, EndTag, "pre", false)
  {
  }

  /** The attributes of a tag, read twice when the first reading finds
      `v-pre`: the second time in `v-pre` mode, from the same place, and
      without the `v-pre` attribute itself. Errors of the first reading are
      kept. */
  method ReadTagProps(o: ParserOptions, c: Ctx, kind: TagKind) returns (r: Ctx, props: seq<Prop>)
    requires Valid(c) && (|Src(c)| == 0 || !IsHtmlSpace(Src(c)[0]))
    ensures Step(c, r) && AtTagClose(Src(r)) && r.inPre == c.inPre
    ensures kind == EndTag ==> props == [] && r.inVPre == c.inVPre
    ensures c.inVPre ==> r.inVPre
    ensures r.inVPre ==> forall i :: 0 <= i < |props| ==> props[i].Attribute?
    ensures !c.inVPre && r.inVPre ==> forall i :: 0 <= i < |props| ==> props[i].name != "v-pre"
    ensures forall i :: 0 <= i < |props| ==> Consistent(c.original, props[i].loc)
  {
    r, props := ParseAttributes(o, c, kind);
    if !r.inVPre && HasVPre(props) {
      var again;
      r, again := ParseAttributes(o, Ctx(c.original, c.offset, r.inPre, true, r.errors), kind);
      props := WithoutName(again, "v-pre");
    }
  }

  /** The close of a tag: `/>` or `>`, or the end of the template, which is
      reported. `/>` on an end tag is reported too. */
  method ReadTagClose(c: Ctx, kind: TagKind) returns (r: Ctx, selfClosing: bool)
    requires Valid(c) && AtTagClose(Src(c))
    ensures Step(c, r) && r.inPre == c.inPre && r.inVPre == c.inVPre
    ensures |Src(c)| == 0 ==>
              !selfClosing && r.offset == c.offset
              && r.errors == c.errors + [CompilerError(ErrorCodes.EofInTag, Cursor(c))]
    ensures |Src(c)| > 0 ==>
              selfClosing == StartsWith(Src(c), "/>")
              && r.offset == c.offset + (if selfClosing then 2 else 1)
              && c.original[r.offset - 1] == '>'
              && (selfClosing ==> c.original[r.offset - 2..r.offset] == "/>")
              && r.errors == c.errors
                             + (if kind == EndTag && selfClosing
                                then [CompilerError(ErrorCodes.EndTagWithTrailingSolidus, Cursor(c))] else [])
  {
    var s := Src(c);
    if |s| == 0 {
      r := EmitError(c, ErrorCodes.EofInTag, 0);
      selfClosing := false;
    } else {
      selfClosing := StartsWith(s, "/>");
      var c1 := if kind == EndTag && selfClosing then EmitError(c, ErrorCodes.EndTagWithTrailingSolidus, 0) else c;
      r := AdvanceBy(c1, if selfClosing then 2 else 1);
      TagCloseChars(c, selfClosing);
    }
  }

  /** The characters a tag close consumes: `/>` or `>`. */
  lemma TagCloseChars(c: Ctx, selfClosing: bool)
    requires Valid(c) && |Src(c)| > 0 && AtTagClose(Src(c)) && selfClosing == StartsWith(Src(c), "/>")
    ensures c.offset + (if selfClosing then 2 else 1) <= |c.original|
    ensures c.original[c.offset + (if selfClosing then 2 else 1) - 1] == '>'
    ensures selfClosing ==> c.original[c.offset..c.offset + 2] == "/>"
  {
    var s := Src(c);
    var n := if selfClosing then 2 else 1;
    assert c.original[c.offset + n - 1] == s[n - 1];
    if selfClosing {
      assert c.original[c.offset..c.offset + 2] == s[..2];
    }
  }

  /** The tag name and the attributes, up to the close of the tag. */
  method ReadTagHead(o: ParserOptions, c: Ctx, kind: TagKind) returns (r: Ctx, props: seq<Prop>)
    requires Valid(c) && TagOpenAt(Src(c), kind)
    ensures Step(c, r) && r.offset > c.offset && AtTagClose(Src(r)) && r.inPre == c.inPre
    ensures kind == EndTag ==> props == [] && r.inVPre == c.inVPre
    ensures c.inVPre ==> r.inVPre
    ensures r.inVPre ==> forall i :: 0 <= i < |props| ==> props[i].Attribute?
    ensures !c.inVPre && r.inVPre ==> forall i :: 0 <= i < |props| ==> props[i].name != "v-pre"
    ensures forall i :: 0 <= i < |props| ==> Consistent(c.original, props[i].loc)
  {
    var tag := TagName(Src(c), kind);
    var c1 := AdvanceSpaces(AdvanceBy(c, OpenLength(kind) + |tag|));
    r, props := ReadTagProps(o, c1, kind);
  }

  /** `parseTag`: the tag name, the attributes and the close, giving an
      element with no children whose location is the tag. `asWritten`
      selects the `<pre>` rule: as written, an end tag of a pre tag switches
      `<pre>` mode on too. */
  method ParseTag(o: ParserOptions, c: Ctx, kind: TagKind, parent: Option<Node>, asWritten: bool) returns (r: Ctx, el: Node)
    requires Valid(c) && TagOpenAt(Src(c), kind)
    ensures Step(c, r) && r.offset > c.offset
    ensures el.Element? && el.tag == TagName(Src(c), kind) && el.children == []
    ensures el.ns == o.getNamespace(el.tag, parent)
    ensures Consistent(c.original, el.loc) && el.loc.start.offset == c.offset && el.loc.end.offset == r.offset
    ensures r.inPre == if asWritten then PreAfterTagAsWritten(o, kind, el.tag, c.inPre) else PreAfterTag(o, kind, el.tag, c.inPre)
    ensures kind == EndTag ==> el.props == [] && r.inVPre == c.inVPre
    ensures c.inVPre ==> r.inVPre
    ensures r.inVPre ==> forall i :: 0 <= i < |el.props| ==> el.props[i].Attribute?
    ensures !c.inVPre && r.inVPre ==> forall i :: 0 <= i < |el.props| ==> el.props[i].name != "v-pre"
    ensures forall i :: 0 <= i < |el.props| ==> Consistent(c.original, el.props[i].loc)
    ensures el.tagType == ClassifyTag(o, el.tag, el.props, r.inVPre)
    ensures el.isSelfClosing ==> r.offset >= c.offset + 2 && c.original[r.offset - 2..r.offset] == "/>"
  {
    var tag := TagName(Src(c), kind);
    var ns := o.getNamespace(tag, parent);
    var c2, props := ReadTagHead(o, c, kind);
    var pre := if asWritten then PreAfterTagAsWritten(o, kind, tag, c2.inPre) else PreAfterTag(o, kind, tag, c2.inPre);
    var c3 := Ctx(c2.original, c2.offset, pre, c2.inVPre, c2.errors);
    var selfClosing;
    r, selfClosing := ReadTagClose(c3, kind);
    el := Element(ns, tag, ClassifyTag(o, tag, props, r.inVPre), props, [], selfClosing, Selection(r, c.offset), None);
  }

  // ---------------------------------------------------------------------
  // Elements
  // ---------------------------------------------------------------------

  /** The source text of a node read from the template. */
  function SourceOf(n: Node): string {
    if Located(n) then n.loc.source else ""
  }

  /** The two modes the parser switches on and off. */
  datatype Flags = Flags(inPre: bool, inVPre: bool)

  function FlagsOf(c: Ctx): Flags {
    Flags(c.inPre, c.inVPre)
  }

  /** The modes after an element, corrected: each mode its start tag
      switched on is switched off again, whether or not the element has
      children and an end tag. */
  function LeaveElement(was: Flags, afterTag: Flags, afterEnd: Flags): (r: Flags)
    ensures afterTag.inPre && !was.inPre ==> !r.inPre
    ensures afterTag.inVPre && !was.inVPre ==> !r.inVPre
  {
    Flags(if afterTag.inPre && !was.inPre then false else afterEnd.inPre,
          if afterTag.inVPre && !was.inVPre then false else afterEnd.inVPre)
  }

  /** The modes after an element as `parseElement` is written: a
      self-closing or void element returns before the boundary checks, so a
      mode its tag switched on stays on. */
  function LeaveElementAsWritten(was: Flags, afterTag: Flags, afterEnd: Flags, early: bool): (r: Flags)
    ensures early ==> r == afterTag
    ensures !early ==> r == LeaveElement(was, afterTag, afterEnd)
  {
    if early then afterTag else LeaveElement(was, afterTag, afterEnd)
  }

  /** When the tag only switches modes on and the children and end tag leave
      them as the tag did, the corrected rule restores the modes the element
      was entered with. */
  lemma LeaveElementRestores(was: Flags, afterTag: Flags)
    requires was.inPre ==> afterTag.inPre
    requires was.inVPre ==> afterTag.inVPre
    ensures LeaveElement(was, afterTag, afterTag) == was
  {
  }

  /** `<div v-pre/>{{ a }}`: the self-closing tag switches `v-pre` mode on,
      the element returns early, and as written the mode stays on, so the
      interpolation that follows is read as text. */
  lemma SelfClosingVPreAsWritten()
    ensures LeaveElementAsWritten(Flags(false, false), Flags(false, true), Flags(false, true), true) == Flags(false, true)
    ensures LeaveElement(Flags(false, false), Flags(false, true), Flags(false, true)) == Flags(false, false)
  {
  }

  /** The end of an element: its end tag when the text opens one, otherwise
      a missing end tag reported at the element's start (and, at the end of
      a script whose text begins like a comment, that too). */
  method CloseElement(o: ParserOptions, c: Ctx, el: Node, children: seq<Node>, parent: Option<Node>, asWritten: bool)
    returns (r: Ctx)
    requires Valid(c) && el.Element? && |el.tag| > 0 && IsAsciiLetter(el.tag[0])
    ensures Step(c, r) && r.inVPre == c.inVPre && (c.inPre ==> r.inPre)
    ensures !asWritten ==> r.inPre == c.inPre
    ensures StartsWithEndTagOpen(Src(c), el.tag) ==> r.offset > c.offset
    ensures !StartsWithEndTagOpen(Src(c), el.tag) ==>
              r.offset == c.offset
              && r.errors == c.errors + [CompilerError(ErrorCodes.MissingEndTag, el.loc.start)]
                             + (if |Src(c)| == 0 && ToLower(el.tag) == "script" && |children| > 0
                                   && StartsWith(SourceOf(children[0]), "<!--")
                                then [CompilerError(ErrorCodes.EofInScriptHtmlCommentLikeText, Cursor(c))] else [])
  {
    if StartsWithEndTagOpen(Src(c), el.tag) {
      EndTagOpenIsTagOpen(Src(c), el.tag);
      var end;
      r, end := ParseTag(o, c, EndTag, parent, asWritten);
    } else {
      r := EmitErrorAt(c, ErrorCodes.MissingEndTag, el.loc.start);
      if |Src(c)| == 0 && ToLower(el.tag) == "script" && |children| > 0 && StartsWith(SourceOf(children[0]), "<!--") {
        r := EmitError(r, ErrorCodes.EofInScriptHtmlCommentLikeText, 0);
      }
    }
  }

  /** `parseElement`: the start tag, then (unless the element is
      self-closing or void) its children in the text mode the platform
      chooses for it and its end tag. The element's location runs from its
      start tag to where reading stopped. `tagFlags` are the modes right
      after the start tag, which switches `<pre>` mode on for a pre tag and
      `v-pre` mode on when it carries `v-pre`.

      Corrected, the element leaves both modes as it found them. As
      written, a self-closing or void element returns before the modes are
      restored, so what its tag switched on stays on; and an end tag of a
      pre tag met inside may switch `<pre>` mode on. Either way a mode that
      was on stays on. */
  method ParseElement(o: ParserOptions, c: Ctx, ancestors: seq<Node>, asWritten: bool)
    returns (r: Ctx, el: Node, tagFlags: Flags)
    requires ValidOptions(o) && Valid(c) && Elements(ancestors) && TagOpenAt(Src(c), StartTag)
    ensures Step(c, r) && r.offset > c.offset
    ensures el.Element? && el.tag == TagName(Src(c), StartTag)
    ensures tagFlags.inPre == PreAfterTag(o, StartTag, el.tag, c.inPre) && (c.inVPre ==> tagFlags.inVPre)
    ensures !c.inVPre && tagFlags.inVPre ==>
              forall i :: 0 <= i < |el.props| ==> el.props[i].Attribute? && el.props[i].name != "v-pre"
    ensures !asWritten ==> FlagsOf(r) == FlagsOf(c)
    ensures asWritten && (el.isSelfClosing || o.isVoidTag(el.tag)) ==> FlagsOf(r) == tagFlags
    ensures (c.inPre ==> r.inPre) && (c.inVPre ==> r.inVPre)
    ensures Consistent(c.original, el.loc) && el.loc.start.offset == c.offset && el.loc.end.offset == r.offset
    ensures NoComments(el.children) && Laid(c.original, el.children, c.offset, r.offset)
    ensures el.isSelfClosing || o.isVoidTag(el.tag) ==> el.children == []
    decreases Rem(c), 1
  {
    var parent := if |ancestors| > 0 then Some(ancestors[|ancestors| - 1]) else None;
    var c1, start := ParseTag(o, c, StartTag, parent, asWritten);
    tagFlags := FlagsOf(c1);
    var early := start.isSelfClosing || o.isVoidTag(start.tag);
    var c3 := c1;
    el := start;
    if !early {
      var children;
      c3, children := ElementBody(o, c1, start, ancestors, parent, asWritten);
      el := Element(start.ns, start.tag, start.tagType, start.props, children, start.isSelfClosing, start.loc, start.codegenNode);
      LaidFrom(c.original, children, c.offset, c1.offset, c3.offset);
    }
    var f := if asWritten then LeaveElementAsWritten(FlagsOf(c), tagFlags, FlagsOf(c3), early)
             else LeaveElement(FlagsOf(c), tagFlags, FlagsOf(c3));
    if !asWritten {
      LeaveElementRestores(FlagsOf(c), tagFlags);
    }
    r := Ctx(c3.original, c3.offset, f.inPre, f.inVPre, c3.errors);
    el := Element(el.ns, el.tag, el.tagType, el.props, el.children, el.isSelfClosing, Selection(r, c.offset), el.codegenNode);
  }

  /** What follows a start tag that is neither self-closing nor void: the
      children, in the text mode the platform chooses, and the end tag. */
  method ElementBody(o: ParserOptions, c: Ctx, start: Node, ancestors: seq<Node>, parent: Option<Node>, asWritten: bool)
    returns (r: Ctx, children: seq<Node>)
    requires ValidOptions(o) && Valid(c) && Elements(ancestors)
    requires start.Element? && |start.tag| > 0 && IsAsciiLetter(start.tag[0])
    ensures Step(c, r) && (c.inPre ==> r.inPre) && (c.inVPre ==> r.inVPre)
    ensures !asWritten ==> r.inPre == c.inPre && r.inVPre == c.inVPre
    ensures NoComments(children) && Laid(c.original, children, c.offset, r.offset)
    decreases Rem(c), 6
  {
    var mode := o.getTextMode(start.tag, start.ns, parent);
    var c2;
    c2, children := ParseChildren(o, c, mode, ancestors + [start], asWritten);
    r := CloseElement(o, c2, start, children, parent, asWritten);
    LaidWiden(c.original, children, c.offset, c2.offset, r.offset);
  }

  // ---------------------------------------------------------------------
  // Children
  // ---------------------------------------------------------------------

  /** A list laid out in a range is laid out in any range around it. */
  lemma {:induction false} LaidFrom(text: string, ns: seq<Node>, from: int, from': int, to: int)
    requires from <= from' && Laid(text, ns, from', to)
    ensures Laid(text, ns, from, to)
    decreases |ns|
  {
    if |ns| > 0 {
      LaidFrom(text, ns[..|ns| - 1], from, from', ns[|ns| - 1].loc.start.offset);
    }
  }

  lemma LaidOne(text: string, n: Node, from: int, to: int)
    requires Located(n) && Consistent(text, n.loc) && from <= n.loc.start.offset && n.loc.end.offset <= to
    ensures Laid(text, [n], from, to)
  {
    assert [n][..0] == [];
  }

  /** `parseCDATA`: the children of `<![CDATA[` up to `]]>`, which is
      consumed, or to the end of the template, which is reported. */
  method ParseCData(o: ParserOptions, c: Ctx, ancestors: seq<Node>, asWritten: bool) returns (r: Ctx, nodes: seq<Node>)
    requires ValidOptions(o) && Valid(c) && Elements(ancestors) && StartsWith(Src(c), "<![CDATA[")
    ensures Step(c, r) && r.offset > c.offset
    ensures (c.inPre ==> r.inPre) && (c.inVPre ==> r.inVPre)
    ensures !asWritten ==> r.inPre == c.inPre && r.inVPre == c.inVPre
    ensures NoComments(nodes) && Laid(c.original, nodes, c.offset, r.offset)
    ensures (r.offset >= c.offset + 12 && c.original[r.offset - 3..r.offset] == "]]>")
            || (r.offset == |c.original| && |r.errors| > 0
                && r.errors[|r.errors| - 1] == CompilerError(ErrorCodes.EofInCdata, Cursor(r)))
    decreases Rem(c), 1
  {
    var c1 := AdvanceBy(c, 9);
    var c2;
    c2, nodes := ParseChildren(o, c1, CData, ancestors, asWritten);
    r := CloseCData(c2);
    LaidFrom(c.original, nodes, c.offset, c1.offset, c2.offset);
    LaidWiden(c.original, nodes, c.offset, c2.offset, r.offset);
  }

  /** The end of a CDATA section: `]]>` is consumed, or the end of the
      template is reported. */
  method CloseCData(c: Ctx) returns (r: Ctx)
    requires Valid(c) && (|Src(c)| == 0 || StartsWith(Src(c), "]]>"))
    ensures Step(c, r) && r.inPre == c.inPre && r.inVPre == c.inVPre
    ensures |Src(c)| > 0 ==> r.offset == c.offset + 3 && c.original[c.offset..r.offset] == "]]>"
    ensures |Src(c)| == 0 ==>
              (r.offset == |c.original| && |r.errors| > 0
               && r.errors[|r.errors| - 1] == CompilerError(ErrorCodes.EofInCdata, Cursor(r)))
  {
    if |Src(c)| == 0 {
      r := EmitError(c, ErrorCodes.EofInCdata, 0);
    } else {
      r := AdvanceBy(c, 3);
      assert c.original[c.offset..r.offset] == Src(c)[..3];
    }
  }

  /** The namespace of the parent element, or HTML at the top. */
  function ParentNs(ancestors: seq<Node>): nat {
    if |ancestors| > 0 && ancestors[|ancestors| - 1].Element? then ancestors[|ancestors| - 1].ns else HtmlNamespace
  }

  /** One round of `parseChildren`: what was read (an empty list for the
      end tags it skips, several nodes for CDATA), after the error the
      dispatch reports, if any. */
  method ParseNext(o: ParserOptions, c: Ctx, mode: TextMode, ancestors: seq<Node>, asWritten: bool) returns (r: Ctx, got: seq<Node>)
    requires ValidOptions(o) && Valid(c) && Elements(ancestors) && |Src(c)| > 0
    ensures Step(c, r) && r.offset > c.offset
    ensures (c.inPre ==> r.inPre) && (c.inVPre ==> r.inVPre)
    ensures !asWritten ==> r.inPre == c.inPre && r.inVPre == c.inVPre
    ensures Classify(o, Src(c), mode, c.inVPre, ParentNs(ancestors)).move == SkipEndTag ==>
              got == [] && r.inVPre == c.inVPre
              && r.inPre == if asWritten then PreAfterTagAsWritten(o, EndTag, TagName(Src(c), EndTag), c.inPre) else c.inPre
    ensures Laid(c.original, got, c.offset, r.offset)
    decreases Rem(c), 4
  {
    var d := Classify(o, Src(c), mode, c.inVPre, ParentNs(ancestors));
    var c1 := if d.error.Some? then EmitError(c, d.error.value.0, d.error.value.1) else c;
    assert Src(c1) == Src(c);
    r, got := Dispatch(o, c1, mode, ancestors, d.move, asWritten);
    StepTransitive(c, c1, r);
  }

  /** The branch of `parseChildren` the dispatch chose. */
  method Dispatch(o: ParserOptions, c: Ctx, mode: TextMode, ancestors: seq<Node>, move: Move, asWritten: bool)
    returns (r: Ctx, got: seq<Node>)
    requires ValidOptions(o) && Valid(c) && Elements(ancestors) && |Src(c)| > 0
    requires move == ReadCData ==> StartsWith(Src(c), "<![CDATA[")
    requires move == SkipEndTag ==> TagOpenAt(Src(c), EndTag)
    requires move == SkipEmptyEndTag ==> StartsWith(Src(c), "</>")
    requires move == ReadElement ==> TagOpenAt(Src(c), StartTag)
    requires move == ReadInterpolation ==> StartsWith(Src(c), o.openDelimiter)
    requires move == ReadComment ==> StartsWith(Src(c), "<!--")
    ensures Step(c, r) && r.offset > c.offset
    ensures (c.inPre ==> r.inPre) && (c.inVPre ==> r.inVPre)
    ensures !asWritten ==> r.inPre == c.inPre && r.inVPre == c.inVPre
    ensures move == SkipEndTag ==>
              got == [] && r.inVPre == c.inVPre
              && r.inPre == if asWritten then PreAfterTagAsWritten(o, EndTag, TagName(Src(c), EndTag), c.inPre) else c.inPre
    ensures Laid(c.original, got, c.offset, r.offset)
    decreases Rem(c), 3
  {
    if move == ReadCData {
      r, got := ParseCData(o, c, ancestors, asWritten);
    } else if move == SkipEndTag {
      var parent := if |ancestors| > 0 then Some(ancestors[|ancestors| - 1]) else None;
      r := DropEndTag(o, c, parent, asWritten);
      got := [];
    } else if move == SkipEmptyEndTag {
      r := AdvanceBy(c, 3);
      got := [];
    } else {
      var node;
      r, node := ReadNode(o, c, mode, ancestors, move, asWritten);
      LaidOne(c.original, node, c.offset, r.offset);
      got := [node];
    }
  }

  /** An end tag no open element matches, read with `parseTag` and
      dropped. */
  method DropEndTag(o: ParserOptions, c: Ctx, parent: Option<Node>, asWritten: bool) returns (r: Ctx)
    requires Valid(c) && TagOpenAt(Src(c), EndTag)
    ensures Step(c, r) && r.offset > c.offset && r.inVPre == c.inVPre
    ensures r.inPre == if asWritten then PreAfterTagAsWritten(o, EndTag, TagName(Src(c), EndTag), c.inPre) else c.inPre
  {
    var node;
    r, node := ParseTag(o, c, EndTag, parent, asWritten);
  }

  /** The moves that read exactly one node. */
  method ReadNode(o: ParserOptions, c: Ctx, mode: TextMode, ancestors: seq<Node>, move: Move, asWritten: bool)
    returns (r: Ctx, node: Node)
    requires ValidOptions(o) && Valid(c) && Elements(ancestors) && |Src(c)| > 0
    requires move == ReadElement ==> TagOpenAt(Src(c), StartTag)
    requires move == ReadInterpolation ==> StartsWith(Src(c), o.openDelimiter)
    requires move == ReadComment ==> StartsWith(Src(c), "<!--")
    ensures Step(c, r) && r.offset > c.offset
    ensures (c.inPre ==> r.inPre) && (c.inVPre ==> r.inVPre)
    ensures !asWritten ==> r.inPre == c.inPre && r.inVPre == c.inVPre
    ensures Located(node) && Consistent(c.original, node.loc)
    ensures node.loc.start.offset == c.offset && node.loc.end.offset == r.offset
    decreases Rem(c), 2
  {
    if move == ReadElement {
      var tagFlags;
      r, node, tagFlags := ParseElement(o, c, ancestors, asWritten);
    } else {
      r, node := ReadLeaf(o, c, mode, move);
    }
  }

  /** The moves that read one node and no children: an interpolation (text
      when it has no closing delimiter), a comment, a bogus comment, text. */
  method ReadLeaf(o: ParserOptions, c: Ctx, mode: TextMode, move: Move) returns (r: Ctx, node: Node)
    requires ValidOptions(o) && Valid(c) && |Src(c)| > 0
    requires move == ReadInterpolation ==> StartsWith(Src(c), o.openDelimiter)
    requires move == ReadComment ==> StartsWith(Src(c), "<!--")
    ensures Step(c, r) && r.offset > c.offset
    ensures r.inPre == c.inPre && r.inVPre == c.inVPre
    ensures Located(node) && Consistent(c.original, node.loc)
    ensures node.loc.start.offset == c.offset && node.loc.end.offset == r.offset
  {
    if move == ReadInterpolation {
      var read;
      r, read := ParseInterpolation(o, c, mode);
      if read.Some? {
        node := read.value;
      } else {
        r, node := ParseText(o, r, mode);
      }
    } else if move == ReadComment {
      r, node := ParseComment(c);
    } else if move == ReadBogusComment {
      r, node := ParseBogusComment(c);
    } else {
      r, node := ParseText(o, c, mode);
    }
  }

  /** `parseChildren`: nodes up to the end `isEnd` recognises, filed with
      `pushNode` and then condensed. The list holds no comment, its nodes
      lie in order between where reading started and where it stopped, and
      outside `<pre>` (and raw text) no text node holds a run of white
      space. */
  method ParseChildren(o: ParserOptions, c: Ctx, mode: TextMode, ancestors: seq<Node>, asWritten: bool)
    returns (r: Ctx, nodes: seq<Node>)
    requires ValidOptions(o) && Valid(c) && Elements(ancestors)
    ensures Step(c, r) && (c.inPre ==> r.inPre) && (c.inVPre ==> r.inVPre)
    ensures !asWritten ==> r.inPre == c.inPre && r.inVPre == c.inVPre
    ensures IsEnd(Src(r), mode, ancestors)
    ensures NoComments(nodes) && Laid(c.original, nodes, c.offset, r.offset)
    ensures mode != RawText && !r.inPre ==> forall i :: 0 <= i < |nodes| && nodes[i].Text? ==> Condensed(nodes[i].content)
    decreases Rem(c), 5
  {
    r := c;
    var acc: seq<Node> := [];
    while !IsEnd(Src(r), mode, ancestors)
      invariant Step(c, r) && (c.inPre ==> r.inPre) && (c.inVPre ==> r.inVPre)
      invariant !asWritten ==> r.inPre == c.inPre && r.inVPre == c.inVPre
      invariant NoComments(acc) && Laid(c.original, acc, c.offset, r.offset)
      decreases Rem(r)
    {
      var next, got := ParseNext(o, r, mode, ancestors, asWritten);
      PushAllLaid(c.original, acc, got, c.offset, r.offset, next.offset);
      acc := PushAll(acc, got);
      r := next;
    }
    var parentIsPre := |ancestors| > 0 && o.isPreTag(ancestors[|ancestors| - 1].tag);
    nodes := FinishChildren(acc, mode, r.inPre, parentIsPre);
    FinishChildrenLaid(c.original, acc, mode, r.inPre, parentIsPre, c.offset, r.offset);
  }

  /** `baseParse`: the whole template read as the children of a root whose
      location is the whole template. Corrected, no text node of the root
      holds a run of white space; as written, a stray `</pre>` can switch
      condensing off for the rest of the template. */
  method BaseParse(content: string, o: ParserOptions, asWritten: bool) returns (root: Node, errors: seq<CompilerError>)
    requires ValidOptions(o)
    ensures root.Root? && root.loc == SourceLocation(Origin, PositionAt(content, |content|), content)
    ensures NoComments(root.children) && Laid(content, root.children, 0, |content|)
    ensures !asWritten ==> forall i :: 0 <= i < |root.children| && root.children[i].Text? ==> Condensed(root.children[i].content)
  {
    var c := Start(content);
    var r, children := ParseChildren(o, c, Data, [], asWritten);
    TopLevelEnd(Src(r));
    root := Root(children, Selection(r, 0));
    errors := r.errors;
  }
}
