/** The parser's state and the primitive moves on it. The parser reads the
    template left to right; its state is the unread rest of the text, the
    cursor, the two modes `<pre>` and `v-pre` switch on, and the errors it
    has reported so far.

    The source keeps the cursor as mutable (offset, line, column) fields
    that every `advanceBy` moves incrementally. Here the state keeps only the
    offset and recomputes the cursor from the text: `AdvanceCompose` shows
    that the incremental moves land on exactly that position, so nothing is
    lost. */
module ParserContext {
  import opened Wrappers
  import opened Strings
  import opened Positions
  import opened Ast
  import opened Entities
  import Whitespace

  /** The options a platform passes to the parser. The function fields
      stand for the platform's tables; `isNativeTag` and
      `isBuiltInComponent` may be absent. */
  datatype ParserOptions = ParserOptions(
    openDelimiter: string,
    closeDelimiter: string,
    getNamespace: (string, Option<Node>) -> nat,
    getTextMode: (string, nat, Option<Node>) -> TextMode,
    isVoidTag: string -> bool,
    isPreTag: string -> bool,
    isCustomElement: string -> bool,
    isNativeTag: Option<string -> bool>,
    isBuiltInComponent: Option<string -> bool>,
    decodeEntities: (string, bool) -> string)

  /** The options used where a platform gives none: `{{ }}` delimiters, every
      element in the HTML namespace and in data mode, no void, pre or custom
      tags, and the five-entity decoder. */
  const DefaultOptions: ParserOptions :=
    ParserOptions("{{", "}}", (tag, parent) => HtmlNamespace, (tag, ns, parent) => Data,
                  tag => false, tag => false, tag => false, None, None,
                  (raw, asAttr) => Decode(raw))

  /** With both delimiters empty an interpolation matches everywhere and
      consumes nothing, so the parser would never advance; with either one
      non-empty every interpolation moves on. */
  predicate ValidOptions(o: ParserOptions) {
    |o.openDelimiter| > 0 || |o.closeDelimiter| > 0
  }

  datatype Ctx = Ctx(original: string, offset: nat, inPre: bool, inVPre: bool, errors: seq<CompilerError>)

  predicate Valid(c: Ctx) {
    c.offset <= |c.original|
  }

  /** `context.source`: what is still to be read. */
  function Src(c: Ctx): string
    requires Valid(c)
  {
    c.original[c.offset..]
  }

  /** How much is left; the measure every loop of the parser shrinks. */
  function Rem(c: Ctx): nat
    requires Valid(c)
  {
    |c.original| - c.offset
  }

  /** `getCursor`. */
  function Cursor(c: Ctx): Position {
    PositionAt(c.original, c.offset)
  }

  /** `r` is a later state of the same parse: same text, cursor not moved
      back, and earlier errors kept. */
  predicate Step(c: Ctx, r: Ctx) {
    Valid(r) && r.original == c.original && c.offset <= r.offset
    && c.errors <= r.errors
  }

  lemma StepTransitive(a: Ctx, b: Ctx, c: Ctx)
    requires Step(a, b) && Step(b, c)
    ensures Step(a, c)
  {
  }

  /** `createParserContext`. */
  function Start(content: string): (c: Ctx)
    ensures Valid(c) && Src(c) == content && Cursor(c) == Origin
  {
    Ctx(content, 0, false, false, [])
  }

  /** `advanceBy`: consume `n` characters. */
  function AdvanceBy(c: Ctx, n: nat): (r: Ctx)
    requires Valid(c) && n <= Rem(c)
    ensures Step(c, r) && r.errors == c.errors
    ensures r.offset == c.offset + n
    ensures r.inPre == c.inPre && r.inVPre == c.inVPre
  {
    c.(offset := c.offset + n)
  }

  /** The cursor after `advanceBy` is where advancing the cursor over the
      consumed characters puts it, as `advancePositionWithMutation` does. */
  lemma AdvanceByCursor(c: Ctx, n: nat)
    requires Valid(c) && n <= Rem(c)
    ensures Cursor(AdvanceBy(c, n)) == Advance(Cursor(c), Src(c), n)
  {
    AdvanceCompose(Origin, c.original, c.offset, n);
  }

  /** `advanceSpaces`: consume a leading run of `[\t\r\n\f ]`. */
  function AdvanceSpaces(c: Ctx): (r: Ctx)
    requires Valid(c)
    ensures Step(c, r) && r.errors == c.errors
    ensures r.offset == c.offset + Whitespace.SpaceRun(Src(c))
    ensures |Src(r)| > 0 ==> !IsHtmlSpace(Src(r)[0])
    ensures r.inPre == c.inPre && r.inVPre == c.inVPre
  {
    AdvanceBy(c, Whitespace.SpaceRun(Src(c)))
  }

  /** `emitError` with a column shift: the error sits `k` characters right of
      the cursor on the same line. */
  function EmitError(c: Ctx, code: nat, k: int): (r: Ctx)
    requires Valid(c)
    ensures Step(c, r) && r.offset == c.offset && r.inPre == c.inPre && r.inVPre == c.inVPre
    ensures r.errors == c.errors + [CompilerError(code, Shifted(Cursor(c), k))]
  {
    EmitErrorAt(c, code, Shifted(Cursor(c), k))
  }

  function EmitErrorAt(c: Ctx, code: nat, at: Position): (r: Ctx)
    requires Valid(c)
    ensures Step(c, r) && r.offset == c.offset && r.inPre == c.inPre && r.inVPre == c.inVPre
    ensures r.errors == c.errors + [CompilerError(code, at)]
  {
    c.(errors := c.errors + [CompilerError(code, at)])
  }

  /** A position moved right by `k` columns without looking at the text. */
  function Shifted(p: Position, k: int): Position {
    Position(p.offset + k, p.line, p.column + k)
  }

  /** `getSelection(context, start)` for a start the cursor was at: the text
      read since then and where it lies. */
  function Selection(c: Ctx, from: nat): (r: SourceLocation)
    requires Valid(c) && from <= c.offset
    ensures Consistent(c.original, r)
    ensures r.start.offset == from && r.end.offset == c.offset
  {
    SourceLocation(PositionAt(c.original, from), Cursor(c), c.original[from..c.offset])
  }

  /** `getSelection` between two positions the parser computed itself. */
  function SelectionBetween(c: Ctx, start: Position, end: Position): SourceLocation {
    SourceLocation(start, end, Slice(c.original, start.offset, end.offset))
  }

  /** `parseTextData`: consume `length` characters and decode entities in
      them unless the mode is raw text or CDATA or there is no ampersand. */
  function ParseTextData(o: ParserOptions, c: Ctx, length: nat, mode: TextMode): (r: (Ctx, string))
    requires Valid(c) && length <= Rem(c)
    ensures r.0 == AdvanceBy(c, length)
    ensures mode == RawText || mode == CData || '&' !in Src(c)[..length] ==> r.1 == Src(c)[..length]
  {
    var raw := Src(c)[..length];
    var c1 := AdvanceBy(c, length);
    if mode == RawText || mode == CData || '&' !in raw then (c1, raw)
    else (c1, o.decodeEntities(raw, mode == AttributeValue))
  }
}
