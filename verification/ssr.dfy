/** The server renderer's string buffer and the pure helpers the compiled
    server render functions call: `createBuffer` and `unrollBuffer`,
    `ssrRenderList`, `isRenderableValue`, `ssrRenderAttr` and the keys
    `ssrRenderAttrs` skips. */
module Ssr {
  import opened Wrappers
  import opened Strings
  import ElementProps

  // ---------------------------------------------------------------------
  // The buffer
  // ---------------------------------------------------------------------

  /** An entry of a buffer: rendered text, the buffer of a synchronous child
      component, or the promise of an asynchronous one (opaque here; `id`
      only tells promises apart). */
  datatype Item = Text(s: string) | Nested(items: seq<Item>) | Pending(id: nat)

  /** The state `createBuffer` closes over. Whether the next string may be
      appended is not stored: it is whether the last entry is text, which
      is what the program's `appendable` flag tracks (see `Push`). */
  datatype Buffer = Buffer(items: seq<Item>, hasAsync: bool)

  const Empty := Buffer([], false)

  /** The next string pushed is appended to the last entry. */
  predicate Appendable(b: Buffer) {
    |b.items| > 0 && b.items[|b.items| - 1].Text?
  }

  /** No two neighbouring entries are both text. */
  predicate NoAdjacentText(items: seq<Item>) {
    forall i :: 0 < i < |items| ==> !(items[i - 1].Text? && items[i].Text?)
  }

  /** `push`: a string after a string is appended to the last entry; any
      other item becomes a new entry. Appending is allowed afterwards exactly
      when the item was a string, and the buffer turns asynchronous when the
      item was neither a string nor an array. */
  function Push(b: Buffer, item: Item): (r: Buffer)
    ensures Appendable(r) <==> item.Text?
    ensures r.hasAsync <==> b.hasAsync || item.Pending?
    ensures Appendable(b) && item.Text? ==>
              |r.items| == |b.items| && r.items[..|b.items| - 1] == b.items[..|b.items| - 1]
              && r.items[|b.items| - 1] == Text(b.items[|b.items| - 1].s + item.s)
    ensures !(Appendable(b) && item.Text?) ==> r.items == b.items + [item]
  {
    var items :=
      if Appendable(b) && item.Text? then
        b.items[..|b.items| - 1] + [Text(b.items[|b.items| - 1].s + item.s)]
      else b.items + [item];
    Buffer(items, b.hasAsync || (!item.Text? && !item.Nested?))
  }

  /** What `getBuffer` hands back: the entries themselves, or, once a
      promise was pushed, a promise of all of them. */
  datatype Got = Ready(entries: seq<Item>) | AwaitAll(entries: seq<Item>)

  /** `getBuffer`. */
  function GetBuffer(b: Buffer): (r: Got)
    ensures r.Ready? <==> !b.hasAsync
    ensures r.entries == b.items
  {
    if b.hasAsync then AwaitAll(b.items) else Ready(b.items)
  }

  /** `unrollBuffer`: the text of the entries in order, descending into
      nested buffers. A promise has no `length`, so the loop over it adds
      nothing. */
  function Unroll(items: seq<Item>): string
    decreases items, 0
  {
    if |items| == 0 then "" else UnrollItem(items[0]) + Unroll(items[1..])
  }

  function UnrollItem(item: Item): string
    decreases item, 1
  {
    match item
    case Text(s) => s
    case Nested(xs) => Unroll(xs)
    case Pending(_) => ""
  }

  /** Unrolling distributes over concatenation. */
  lemma {:induction false} UnrollAppend(xs: seq<Item>, ys: seq<Item>)
    ensures Unroll(xs + ys) == Unroll(xs) + Unroll(ys)
    decreases |xs|
  {
    if |xs| > 0 {
      assert (xs + ys)[1..] == xs[1..] + ys;
      UnrollAppend(xs[1..], ys);
    } else {
      assert xs + ys == ys;
    }
  }

  /** Coalescing never changes the text: pushing adds the item's text after
      the buffer's. */
  lemma PushUnroll(b: Buffer, item: Item)
    ensures Unroll(Push(b, item).items) == Unroll(b.items) + UnrollItem(item)
  {
    var r := Push(b, item);
    if Appendable(b) && item.Text? {
      var init := b.items[..|b.items| - 1];
      var last := b.items[|b.items| - 1];
      assert b.items == init + [last];
      UnrollAppend(init, [last]);
      UnrollAppend(init, [Text(last.s + item.s)]);
    } else {
      UnrollAppend(b.items, [item]);
    }
  }

  /** Pushing keeps neighbouring entries apart. */
  lemma PushKeepsApart(b: Buffer, item: Item)
    requires NoAdjacentText(b.items)
    ensures NoAdjacentText(Push(b, item).items)
  {
    var r := Push(b, item);
    if Appendable(b) && item.Text? {
      forall i | 0 < i < |r.items|
        ensures !(r.items[i - 1].Text? && r.items[i].Text?)
      {
        if i < |b.items| - 1 {
          assert r.items[i - 1] == b.items[i - 1] && r.items[i] == b.items[i];
        } else {
          assert r.items[i - 1] == b.items[i - 1];
        }
      }
    }
  }

  /** A render pass over a sequence of items: each is pushed in turn into a
      fresh buffer. The buffer never holds two neighbouring text entries,
      its text is the text of the items in order, whatever the coalescing
      did, and it is asynchronous exactly when a promise was pushed. */
  method PushAll(items: seq<Item>) returns (b: Buffer)
    ensures NoAdjacentText(b.items)
    ensures Unroll(b.items) == Unroll(items)
    ensures b.hasAsync <==> exists i :: 0 <= i < |items| && items[i].Pending?
    ensures |items| > 0 ==> (Appendable(b) <==> items[|items| - 1].Text?)
    ensures |b.items| <= |items|
  {
    b := Empty;
    var i := 0;
    while i < |items|
      invariant 0 <= i <= |items|
      invariant NoAdjacentText(b.items)
      invariant Unroll(b.items) == Unroll(items[..i])
      invariant b.hasAsync <==> exists j :: 0 <= j < i && items[j].Pending?
      invariant i > 0 ==> (Appendable(b) <==> items[i - 1].Text?)
      invariant |b.items| <= i
    {
      PushKeepsApart(b, items[i]);
      PushUnroll(b, items[i]);
      UnrollAppend(items[..i], [items[i]]);
      assert items[..i + 1] == items[..i] + [items[i]];
      b := Push(b, items[i]);
      i := i + 1;
    }
    assert items[..i] == items;
  }

  // ---------------------------------------------------------------------
  // Values
  // ---------------------------------------------------------------------

  /** The JavaScript values the helpers tell apart. `Iterable` is an object
      with a `Symbol.iterator`, given by what `Array.from` makes of it; `Obj`
      is any other object, given by its own enumerable properties in key
      order. Numbers are integers here. */
  datatype Value =
    | Null
    | Undefined
    | Bool(b: bool)
    | Num(n: int)
    | Str(s: string)
    | Arr(elems: seq<Value>)
    | Iterable(elems: seq<Value>)
    | Obj(entries: seq<(string, Value)>)
    | Fn

  /** `isRenderableValue`: not `null` or `undefined`, and a string, number
      or boolean. */
  predicate IsRenderable(v: Value) {
    v.Str? || v.Num? || v.Bool?
  }

  /** The text of a renderable value, as `escapeHtml` receives it after
      `'' + value`. */
  function Display(v: Value): string
    requires IsRenderable(v)
  {
    match v
    case Str(s) => s
    case Num(n) => IntToString(n)
    case Bool(b) => if b then "true" else "false"
  }

  /** `ssrRenderAttr`: nothing for a value that is not renderable, else
      ` key="..."` with the value's text escaped by `escape` (the shared
      library's `escapeHtml`). */
  function RenderAttr(key: string, v: Value, escape: string -> string): (r: string)
    ensures r == "" <==> !IsRenderable(v)
    ensures v.Null? || v.Undefined? ==> r == ""
  {
    if !IsRenderable(v) then "" else " " + key + "=\"" + escape(Display(v)) + "\""
  }

  /** Reads an attribute written as ` key="text"` back into its key and
      text; the key runs to the first `=`. */
  function ReadAttr(t: string): Option<(string, string)> {
    if |t| >= 4 && t[0] == ' ' && t[|t| - 1] == '"' then
      var k := FindChar(t[1..], '=');
      if k != -1 && 1 + k + 1 < |t| - 1 && t[1 + k + 1] == '"' then Some((t[1..1 + k], t[1 + k + 2..|t| - 1]))
      else None
    else None
  }

  /** A rendered attribute reads back as its key and the escaped text of its
      value, for any key without `=`. */
  lemma RenderAttrRoundTrip(key: string, v: Value, escape: string -> string)
    requires IsRenderable(v) && '=' !in key && |key| > 0
    ensures ReadAttr(RenderAttr(key, v, escape)) == Some((key, escape(Display(v))))
  {
    var e := escape(Display(v));
    var t := RenderAttr(key, v, escape);
    assert t == [' '] + key + ['='] + ['"'] + e + ['"'];
    SeparatorAfter(key, '=', ['"'] + e + ['"']);
    assert t[1..] == key + ['='] + (['"'] + e + ['"']);
    assert t[1..1 + |key|] == key;
    assert t[1 + |key| + 2..|t| - 1] == e;
  }

  // ---------------------------------------------------------------------
  // ssrRenderAttrs
  // ---------------------------------------------------------------------

  /** The keys `ssrRenderAttrs` never renders: `key`, `ref`, `innerHTML`,
      `textContent`, event listeners, and `value` on a `<textarea>` (whose
      value is its content). */
  predicate Skipped(key: string, tag: string) {
    key in {"key", "ref", "innerHTML", "textContent"} || ElementProps.IsOn(key) || (tag == "textarea" && key == "value")
  }

  /** The props `ssrRenderAttrs` renders, in order. */
  function Kept(props: seq<(string, Value)>, tag: string): (r: seq<(string, Value)>)
    decreases |props|
  {
    if |props| == 0 then []
    else (if Skipped(props[0].0, tag) then [] else [props[0]]) + Kept(props[1..], tag)
  }

  /** `ssrRenderAttrs`: the rendering of every prop that is not skipped,
      concatenated in order. `render` stands for `ssrRenderDynamicAttr` and
      the class and style rendering around it; only the normalisation of
      class and style values comes from the shared utility library. */
  function RenderAttrs(props: seq<(string, Value)>, tag: string, render: (string, Value, string) -> string): string
    decreases |props|
  {
    if |props| == 0 then ""
    else (if Skipped(props[0].0, tag) then "" else render(props[0].0, props[0].1, tag)) + RenderAttrs(props[1..], tag, render)
  }

  /** A prop is rendered exactly when it is one of the props and its key is
      not skipped. */
  lemma {:induction false} KeptExactly(props: seq<(string, Value)>, tag: string, p: (string, Value))
    ensures p in Kept(props, tag) <==> p in props && !Skipped(p.0, tag)
    decreases |props|
  {
    if |props| > 0 {
      KeptExactly(props[1..], tag, p);
      assert p in props <==> p == props[0] || p in props[1..];
    }
  }

  /** The output is the renderings of the kept props and nothing else:
      skipped keys contribute no text. */
  lemma {:induction false} RenderAttrsOfKept(props: seq<(string, Value)>, tag: string,
                                             render: (string, Value, string) -> string)
    ensures RenderAttrs(props, tag, render) == RenderAttrs(Kept(props, tag), tag, render)
    decreases |props|
  {
    if |props| > 0 {
      RenderAttrsOfKept(props[1..], tag, render);
      var k := Kept(props[1..], tag);
      if !Skipped(props[0].0, tag) {
        assert ([props[0]] + k)[1..] == k;
      } else {
        assert [] + k == k;
      }
    }
  }

  // ---------------------------------------------------------------------
  // ssrRenderList
  // ---------------------------------------------------------------------

  /** One call of `renderItem`: the item, its index or key, and for a plain
      object the index as a third argument. */
  datatype Call = Call(item: Value, key: Value, index: Option<nat>)

  /** The calls `ssrRenderList` makes, in order: over the elements of an
      array, the characters of a string, the numbers `1..n` for a number,
      the values of an iterable, the property values of a plain object; none
      for anything else. */
  function RenderList(source: Value): (r: seq<Call>)
    ensures (source.Arr? || source.Iterable?) ==>
              |r| == |source.elems| && forall i :: 0 <= i < |r| ==> r[i] == Call(source.elems[i], Num(i), None)
    ensures source.Str? ==>
              |r| == |source.s| && forall i :: 0 <= i < |r| ==> r[i] == Call(Str([source.s[i]]), Num(i), None)
    ensures source.Num? ==>
              |r| == (if source.n > 0 then source.n else 0)
              && forall i :: 0 <= i < |r| ==> r[i] == Call(Num(i + 1), Num(i), None)
    ensures source.Obj? ==>
              |r| == |source.entries|
              && forall i :: 0 <= i < |r| ==> r[i] == Call(source.entries[i].1, Str(source.entries[i].0), Some(i))
    ensures source.Null? || source.Undefined? || source.Bool? || source.Fn? ==> r == []
  {
    match source
    case Arr(xs) => seq(|xs|, i requires 0 <= i < |xs| => Call(xs[i], Num(i), None))
    case Str(s) => seq(|s|, i requires 0 <= i < |s| => Call(Str([s[i]]), Num(i), None))
    case Num(n) => if n > 0 then seq(n, i => Call(Num(i + 1), Num(i), None)) else []
    case Iterable(xs) => seq(|xs|, i requires 0 <= i < |xs| => Call(xs[i], Num(i), None))
    case Obj(es) => seq(|es|, i requires 0 <= i < |es| => Call(es[i].1, Str(es[i].0), Some(i)))
    case _ => []
  }

  /** The calls visit every element once and in order: the items passed
      rebuild the array, the string or the object they came from. */
  lemma RenderListRebuilds(source: Value)
    ensures var r := RenderList(source);
            && ((source.Arr? || source.Iterable?) ==> seq(|r|, i requires 0 <= i < |r| => r[i].item) == source.elems)
            && (source.Str? ==> Concat(seq(|r|, i requires 0 <= i < |r| => r[i].item.s)) == source.s)
            && (source.Obj? ==>
                  seq(|r|, i requires 0 <= i < |r| => (r[i].key.s, r[i].item)) == source.entries)
  {
    var r := RenderList(source);
    if source.Str? {
      var parts := seq(|r|, i requires 0 <= i < |r| => r[i].item.s);
      assert parts == seq(|source.s|, i requires 0 <= i < |source.s| => [source.s[i]]);
      ConcatSingles(source.s);
    }
  }

  /** The concatenation of a sequence of strings. */
  function Concat(parts: seq<string>): string
    decreases |parts|
  {
    if |parts| == 0 then "" else parts[0] + Concat(parts[1..])
  }

  /** A string is the concatenation of its characters. */
  lemma {:induction false} ConcatSingles(s: string)
    ensures Concat(seq(|s|, i requires 0 <= i < |s| => [s[i]])) == s
    decreases |s|
  {
    if |s| > 0 {
      var parts := seq(|s|, i requires 0 <= i < |s| => [s[i]]);
      assert parts[1..] == seq(|s[1..]|, i requires 0 <= i < |s[1..]| => [s[1..][i]]);
      ConcatSingles(s[1..]);
      assert s == [s[0]] + s[1..];
    }
  }
}
