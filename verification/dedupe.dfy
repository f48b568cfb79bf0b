/** `dedupeProperties` and `mergeAsArray`: the properties of one object
    literal lose their repeated static keys. A property with a dynamic key is
    always kept; of a repeated static key the first property is kept, and the
    values of later ones are gathered into an array after its own when the
    key is `class`, `style` or starts with `on`, and dropped otherwise. */
module Dedupe {
  import opened Wrappers
  import opened Strings
  import opened Positions
  import opened Ast

  /** A property whose key is a static simple expression. */
  predicate StaticKey(p: Property) {
    p.key.SimpleExpression? && p.key.isStatic
  }

  /** A property with the static key `name`. */
  predicate Named(p: Property, name: string) {
    StaticKey(p) && p.key.content == name
  }

  /** The keys whose repeated values are merged rather than dropped. */
  predicate Mergeable(name: string) {
    name == "style" || name == "class" || StartsWith(name, "on")
  }

  /** `mergeAsArray` on the values: an array value gets the incoming value
      pushed; any other becomes a two-element array located where the
      property is, and a property is always built at the stub location. */
  function MergeAsArray(existing: Node, incoming: Node): (r: Node)
    ensures r.ArrayExpression?
    ensures r.elements == (if existing.ArrayExpression? then existing.elements else [existing]) + [incoming]
    ensures existing.ArrayExpression? ==> r.loc == existing.loc
  {
    if existing.ArrayExpression? then ArrayExpression(existing.elements + [incoming], existing.loc)
    else ArrayExpression([existing, incoming], LocStub)
  }

  /** The `knownProps` lookup: the position of the property already kept
      under `name`, or -1. */
  function FindNamed(out: seq<Property>, name: string): (j: int)
    ensures -1 <= j < |out|
    ensures j >= 0 ==> Named(out[j], name)
    ensures j < 0 ==> forall m :: 0 <= m < |out| ==> !Named(out[m], name)
    decreases |out|
  {
    if |out| == 0 then -1
    else
      var j := FindNamed(out[..|out| - 1], name);
      if j >= 0 then j else if Named(out[|out| - 1], name) then |out| - 1 else -1
  }

  /** One turn of the loop. */
  function DedupeStep(out: seq<Property>, p: Property): seq<Property> {
    if !StaticKey(p) then out + [p]
    else
      var j := FindNamed(out, p.key.content);
      if j < 0 then out + [p]
      else if Mergeable(p.key.content) then out[j := Property(out[j].key, MergeAsArray(out[j].value, p.value))]
      else out
  }

  /** `dedupeProperties`: the loop over the properties in order. */
  function DedupeProperties(ps: seq<Property>): (r: seq<Property>)
    decreases |ps|
  {
    if |ps| == 0 then [] else DedupeStep(DedupeProperties(ps[..|ps| - 1]), ps[|ps| - 1])
  }

  // ---------------------------------------------------------------------
  // The result described property by property
  // ---------------------------------------------------------------------

  /** A property that survives: its key is dynamic, or no earlier property
      has its static key. */
  predicate Kept(ps: seq<Property>, i: int)
    requires 0 <= i < |ps|
  {
    !StaticKey(ps[i]) || forall j :: 0 <= j < i ==> !Named(ps[j], ps[i].key.content)
  }

  /** The positions of the surviving properties, in order. */
  function KeptIndices(ps: seq<Property>): (r: seq<nat>)
    ensures forall m :: 0 <= m < |r| ==> r[m] < |ps| && Kept(ps, r[m])
    ensures forall m, m' :: 0 <= m < m' < |r| ==> r[m] < r[m']
    ensures forall i :: 0 <= i < |ps| && Kept(ps, i) ==> i in r
    decreases |ps|
  {
    if |ps| == 0 then []
    else
      var q := ps[..|ps| - 1];
      var r := KeptIndices(q);
      assert forall i :: 0 <= i < |q| ==> (Kept(q, i) <==> Kept(ps, i)) by {
        forall i | 0 <= i < |q| ensures Kept(q, i) <==> Kept(ps, i) {
          assert forall j :: 0 <= j <= i ==> q[j] == ps[j];
        }
      }
      r + (if Kept(ps, |ps| - 1) then [|ps| - 1] else [])
  }

  /** The values of every property with the static key `name`, in order. */
  function ValuesNamed(ps: seq<Property>, name: string): (r: seq<Node>)
    ensures |r| == 0 <==> forall i :: 0 <= i < |ps| ==> !Named(ps[i], name)
    decreases |ps|
  {
    if |ps| == 0 then []
    else
      var q := ps[..|ps| - 1];
      assert forall i :: 0 <= i < |q| ==> q[i] == ps[i];
      ValuesNamed(q, name) + (if Named(ps[|ps| - 1], name) then [ps[|ps| - 1].value] else [])
  }

  /** Several values gathered into one array: a first value that is an
      array keeps its place and location and takes the others in. */
  function Merged(vs: seq<Node>): (r: Node)
    requires |vs| >= 1
  {
    if |vs| == 1 then vs[0]
    else if vs[0].ArrayExpression? then ArrayExpression(vs[0].elements + vs[1..], vs[0].loc)
    else ArrayExpression(vs, LocStub)
  }

  /** The value a surviving property ends with: its own, unless its key is
      static and mergeable, when it is all the values under that key merged. */
  function ValueFor(ps: seq<Property>, i: int): Node
    requires 0 <= i < |ps|
  {
    if !StaticKey(ps[i]) || !Mergeable(ps[i].key.content) then ps[i].value
    else
      assert Named(ps[i], ps[i].key.content);
      Merged(ValuesNamed(ps, ps[i].key.content))
  }

  /** The result property by property. */
  predicate Describes(ps: seq<Property>, out: seq<Property>) {
    var k := KeptIndices(ps);
    |out| == |k| && forall m :: 0 <= m < |k| ==> out[m] == Property(ps[k[m]].key, ValueFor(ps, k[m]))
  }

  /** Merging one more value into an already merged list. */
  lemma MergedAppend(vs: seq<Node>, v: Node)
    requires |vs| >= 1
    ensures Merged(vs + [v]) == MergeAsArray(Merged(vs), v)
  {
    assert (vs + [v])[0] == vs[0];
    if |vs| > 1 {
      assert (vs + [v])[1..] == vs[1..] + [v];
    } else {
      assert (vs + [v])[1..] == [v];
      assert vs + [v] == [vs[0], v];
    }
  }

  /** In a described result, a static name appears at most once, and it
      appears exactly when some input property has it, at the position of
      the first of them. */
  lemma {:induction false} DescribedNames(ps: seq<Property>, out: seq<Property>, name: string)
    requires Describes(ps, out)
    ensures forall m :: 0 <= m < |out| ==> (Named(out[m], name) <==> Named(ps[KeptIndices(ps)[m]], name))
    ensures forall m, m' :: 0 <= m < m' < |out| ==> !(Named(out[m], name) && Named(out[m'], name))
    ensures FindNamed(out, name) < 0 <==> forall i :: 0 <= i < |ps| ==> !Named(ps[i], name)
  {
    var k := KeptIndices(ps);
    forall m | 0 <= m < |out| ensures Named(out[m], name) <==> Named(ps[k[m]], name) {
      assert out[m].key == ps[k[m]].key;
    }
    forall m, m' | 0 <= m < m' < |out| ensures !(Named(out[m], name) && Named(out[m'], name)) {
      if Named(ps[k[m]], name) {
        assert Kept(ps, k[m']) && k[m] < k[m'];
      }
    }
    if exists i :: 0 <= i < |ps| && Named(ps[i], name) {
      var i := FirstNamed(ps, name);
      assert i in k;
      var m :| 0 <= m < |k| && k[m] == i;
      assert Named(out[m], name);
    }
  }

  /** The first property with a static key `name`, when there is one. */
  lemma FirstNamed(ps: seq<Property>, name: string) returns (i: nat)
    requires exists i :: 0 <= i < |ps| && Named(ps[i], name)
    ensures i < |ps| && Named(ps[i], name) && Kept(ps, i)
  {
    var j :| 0 <= j < |ps| && Named(ps[j], name);
    i := j;
    while exists l :: 0 <= l < i && Named(ps[l], name)
      invariant i < |ps| && Named(ps[i], name)
      decreases i
    {
      var l :| 0 <= l < i && Named(ps[l], name);
      i := l;
    }
  }

  /** The survivors of a prefix are the survivors of the whole among the
      prefix's positions. */
  lemma KeptPrefix(ps: seq<Property>)
    requires |ps| > 0
    ensures var kq := KeptIndices(ps[..|ps| - 1]);
            KeptIndices(ps) == kq + (if Kept(ps, |ps| - 1) then [|ps| - 1] else [])
  {
  }

  /** The step of the description: what one more property does to it. */
  lemma {:induction false} DescribesStep(ps: seq<Property>)
    requires |ps| > 0
    requires Describes(ps[..|ps| - 1], DedupeProperties(ps[..|ps| - 1]))
    ensures Describes(ps, DedupeProperties(ps))
  {
    var q := ps[..|ps| - 1];
    var p := ps[|ps| - 1];
    KeptPrefix(ps);
    if !StaticKey(p) {
      StepAppends(ps);
    } else {
      var out := DedupeProperties(q);
      DescribedNames(q, out, p.key.content);
      if FindNamed(out, p.key.content) < 0 {
        StepAppends(ps);
      } else {
        StepRepeats(ps);
      }
    }
  }

  /** A property with a dynamic key, or with a static key not seen before,
      is appended as it is. */
  lemma StepAppends(ps: seq<Property>)
    requires |ps| > 0
    requires var q := ps[..|ps| - 1]; var p := ps[|ps| - 1];
             !StaticKey(p) || forall i :: 0 <= i < |q| ==> !Named(q[i], p.key.content)
    requires Describes(ps[..|ps| - 1], DedupeProperties(ps[..|ps| - 1]))
    ensures Describes(ps, DedupeProperties(ps))
  {
    var out := DedupeProperties(ps[..|ps| - 1]);
    AppendedOut(ps);
    KeptLast(ps);
    PrefixValues(ps);
    LastValue(ps);
    DescribesAppend(ps, out);
  }

  /** A property with a new key (or no static key) survives. */
  lemma KeptLast(ps: seq<Property>)
    requires |ps| > 0
    requires var q := ps[..|ps| - 1]; var p := ps[|ps| - 1];
             !StaticKey(p) || forall i :: 0 <= i < |q| ==> !Named(q[i], p.key.content)
    ensures KeptIndices(ps) == KeptIndices(ps[..|ps| - 1]) + [|ps| - 1]
  {
    KeptPrefix(ps);
    var q := ps[..|ps| - 1];
    assert Kept(ps, |ps| - 1) by {
      if StaticKey(ps[|ps| - 1]) {
        forall j | 0 <= j < |ps| - 1 ensures !Named(ps[j], ps[|ps| - 1].key.content) {
          assert q[j] == ps[j];
        }
      }
    }
  }

  /** A property with a new key (or no static key) is appended. */
  lemma AppendedOut(ps: seq<Property>)
    requires |ps| > 0
    requires var q := ps[..|ps| - 1]; var p := ps[|ps| - 1];
             !StaticKey(p) || forall i :: 0 <= i < |q| ==> !Named(q[i], p.key.content)
    requires Describes(ps[..|ps| - 1], DedupeProperties(ps[..|ps| - 1]))
    ensures DedupeProperties(ps) == DedupeProperties(ps[..|ps| - 1]) + [ps[|ps| - 1]]
  {
    var q := ps[..|ps| - 1];
    var p := ps[|ps| - 1];
    if StaticKey(p) {
      DescribedNames(q, DedupeProperties(q), p.key.content);
    }
  }

  /** The last property, first under its key, keeps its own value. */
  lemma LastValue(ps: seq<Property>)
    requires |ps| > 0
    requires var q := ps[..|ps| - 1]; var p := ps[|ps| - 1];
             !StaticKey(p) || forall i :: 0 <= i < |q| ==> !Named(q[i], p.key.content)
    ensures ValueFor(ps, |ps| - 1) == ps[|ps| - 1].value
  {
    if StaticKey(ps[|ps| - 1]) {
      var q := ps[..|ps| - 1];
      forall i | 0 <= i < |ps| - 1
        ensures !Named(ps[i], ps[|ps| - 1].key.content)
      {
        assert q[i] == ps[i];
      }
      LoneValue(ps);
    }
  }

  /** Appending the last property to a description of the others. */
  lemma DescribesAppend(ps: seq<Property>, out: seq<Property>)
    requires |ps| > 0
    requires Describes(ps[..|ps| - 1], out)
    requires KeptIndices(ps) == KeptIndices(ps[..|ps| - 1]) + [|ps| - 1]
    requires var q := ps[..|ps| - 1]; var kq := KeptIndices(q);
             forall m :: 0 <= m < |kq| ==> ValueFor(ps, kq[m]) == ValueFor(q, kq[m])
    requires ValueFor(ps, |ps| - 1) == ps[|ps| - 1].value
    ensures Describes(ps, out + [ps[|ps| - 1]])
  {
    var q := ps[..|ps| - 1];
    var kq := KeptIndices(q);
    forall m | 0 <= m < |kq| ensures out[m] == Property(ps[kq[m]].key, ValueFor(ps, kq[m])) {
      assert q[kq[m]] == ps[kq[m]];
    }
  }

  /** Changing one survivor's value in a description of the others. */
  lemma DescribesUpdate(ps: seq<Property>, out: seq<Property>, j: nat, v: Node)
    requires |ps| > 0
    requires Describes(ps[..|ps| - 1], out) && j < |out|
    requires KeptIndices(ps) == KeptIndices(ps[..|ps| - 1])
    requires var q := ps[..|ps| - 1]; var kq := KeptIndices(q);
             forall m :: 0 <= m < |kq| && m != j ==> ValueFor(ps, kq[m]) == ValueFor(q, kq[m])
    requires v == ValueFor(ps, KeptIndices(ps)[j])
    ensures Describes(ps, out[j := Property(out[j].key, v)])
  {
    var q := ps[..|ps| - 1];
    var kq := KeptIndices(q);
    forall m | 0 <= m < |kq| ensures out[m].key == ps[kq[m]].key {
      assert q[kq[m]] == ps[kq[m]];
    }
  }

  /** The survivors before a new key keep their values. */
  lemma PrefixValues(ps: seq<Property>)
    requires |ps| > 0
    requires var q := ps[..|ps| - 1]; var p := ps[|ps| - 1];
             !StaticKey(p) || forall i :: 0 <= i < |q| ==> !Named(q[i], p.key.content)
    ensures var q := ps[..|ps| - 1]; var kq := KeptIndices(q);
            forall m :: 0 <= m < |kq| ==> ValueFor(ps, kq[m]) == ValueFor(q, kq[m])
  {
    var q := ps[..|ps| - 1];
    var kq := KeptIndices(q);
    forall m | 0 <= m < |kq| ensures ValueFor(ps, kq[m]) == ValueFor(q, kq[m]) {
      assert q[kq[m]] == ps[kq[m]];
      SameValue(ps, kq[m]);
    }
  }

  /** The first property under its key has its own value as the merged one. */
  lemma LoneValue(ps: seq<Property>)
    requires |ps| > 0 && StaticKey(ps[|ps| - 1])
    requires forall i :: 0 <= i < |ps| - 1 ==> !Named(ps[i], ps[|ps| - 1].key.content)
    ensures ValuesNamed(ps, ps[|ps| - 1].key.content) == [ps[|ps| - 1].value]
  {
    var q := ps[..|ps| - 1];
    var n := ps[|ps| - 1].key.content;
    assert forall i :: 0 <= i < |q| ==> !Named(q[i], n) by {
      forall i | 0 <= i < |q| ensures !Named(q[i], n) {
        assert q[i] == ps[i];
      }
    }
    assert |ValuesNamed(q, n)| == 0;
    assert Named(ps[|ps| - 1], n);
  }

  /** A repeated static key changes only the survivor with that key: its
      value takes the new one in when the key is mergeable. */
  lemma StepRepeats(ps: seq<Property>)
    requires |ps| > 0
    requires var q := ps[..|ps| - 1]; var p := ps[|ps| - 1];
             StaticKey(p) && FindNamed(DedupeProperties(q), p.key.content) >= 0
    requires Describes(ps[..|ps| - 1], DedupeProperties(ps[..|ps| - 1]))
    ensures Describes(ps, DedupeProperties(ps))
  {
    var q := ps[..|ps| - 1];
    var p := ps[|ps| - 1];
    var name := p.key.content;
    var out := DedupeProperties(q);
    var kq := KeptIndices(q);
    DescribedNames(q, out, name);
    var j := FindNamed(out, name);
    assert q[kq[j]] == ps[kq[j]];
    assert Named(ps[kq[j]], name);
    KeptPrefix(ps);
    assert KeptIndices(ps) == kq by {
      assert !Kept(ps, |ps| - 1);
    }
    forall m | 0 <= m < |kq| && m != j
      ensures ValueFor(ps, kq[m]) == ValueFor(q, kq[m])
    {
      assert !Named(out[m], name);
      assert q[kq[m]] == ps[kq[m]];
      SameValue(ps, kq[m]);
    }
    var i := kq[j];
    if Mergeable(name) {
      MergedValue(ps, i);
      assert DedupeProperties(ps) == out[j := Property(out[j].key, MergeAsArray(out[j].value, p.value))];
      DescribesUpdate(ps, out, j, MergeAsArray(out[j].value, p.value));
    } else {
      assert ValueFor(ps, i) == ValueFor(q, i);
      assert DedupeProperties(ps) == out;
      DescribesUpdate(ps, out, j, out[j].value);
      assert out[j := Property(out[j].key, out[j].value)] == out;
    }
  }

  /** The value of the first survivor under a mergeable key takes in the
      value of a later property with the same key. */
  lemma MergedValue(ps: seq<Property>, i: nat)
    requires i < |ps| - 1 && StaticKey(ps[|ps| - 1]) && Named(ps[i], ps[|ps| - 1].key.content)
    requires Mergeable(ps[|ps| - 1].key.content)
    ensures ValueFor(ps, i) == MergeAsArray(ValueFor(ps[..|ps| - 1], i), ps[|ps| - 1].value)
  {
    var q := ps[..|ps| - 1];
    var name := ps[|ps| - 1].key.content;
    assert q[i] == ps[i];
    assert ValuesNamed(ps, name) == ValuesNamed(q, name) + [ps[|ps| - 1].value];
    MergedAppend(ValuesNamed(q, name), ps[|ps| - 1].value);
  }

  /** A property whose key is not the last one's keeps its value when the
      last is added. */
  lemma SameValue(ps: seq<Property>, i: nat)
    requires i < |ps| - 1
    requires !StaticKey(ps[i]) || !Named(ps[|ps| - 1], ps[i].key.content)
    ensures ValueFor(ps, i) == ValueFor(ps[..|ps| - 1], i)
  {
    var q := ps[..|ps| - 1];
    assert q[i] == ps[i];
    if StaticKey(ps[i]) {
      var n := ps[i].key.content;
      assert ValuesNamed(ps, n) == ValuesNamed(q, n);
    }
  }

  /** `dedupeProperties` keeps exactly the properties `Kept` picks, in their
      order, with their keys; each keeps its value except a mergeable static
      key, whose value is every value written under that key, merged. */
  lemma {:induction false} DedupeDescribed(ps: seq<Property>)
    ensures Describes(ps, DedupeProperties(ps))
    decreases |ps|
  {
    if |ps| > 0 {
      DedupeDescribed(ps[..|ps| - 1]);
      DescribesStep(ps);
    }
  }

  /** No static key is left twice, and every static key written is still
      there. */
  lemma DedupeDistinct(ps: seq<Property>, name: string)
    ensures forall m, m' :: 0 <= m < m' < |DedupeProperties(ps)| ==>
              !(Named(DedupeProperties(ps)[m], name) && Named(DedupeProperties(ps)[m'], name))
    ensures (exists m :: 0 <= m < |DedupeProperties(ps)| && Named(DedupeProperties(ps)[m], name))
            <==> (exists i :: 0 <= i < |ps| && Named(ps[i], name))
  {
    DedupeDescribed(ps);
    DescribedNames(ps, DedupeProperties(ps), name);
  }
}
