/** What every encoder context reachable from a cleared one keeps. */
module Invariant {
  import opened Words
  import opened Names
  import opened Items
  import opened Encoder
  import opened Equality

  /** The class name of every known traits entry is empty or a known string. */
  predicate ClassNamesKnown(c: Context) {
    forall i :: 0 <= i < |c.traits| ==> c.traits[i].className == [] || c.traits[i].className in c.strings
  }

  /** No table holds an entry twice, so a successful lookup has one match, and no two entries throw in comparison. */
  predicate Distinct(c: Context) {
    && (forall i :: 0 <= i < |c.strings| ==> c.strings[i] != [])
    && (forall i, j :: 0 <= i < j < |c.strings| ==> c.strings[i] != c.strings[j])
    && (forall i, j :: 0 <= i < j < |c.traits| ==> c.traits[i] != c.traits[j])
    && (forall i, j :: 0 <= i < j < |c.objects| ==>
                         !Eq(c.objects[i], c.objects[j]) && !Raises(c.objects[i], c.objects[j]))
    && (forall i :: 0 <= i < |c.objects| ==> !External(c.objects[i]))
  }

  /** An entry that stands for something other than an item carries its own index. */
  predicate StandInsMarked(c: Context) {
    forall i :: 0 <= i < |c.objects| && c.objects[i].Loop? ==> c.objects[i].index == i
  }

  predicate Consistent(c: Context, m: Policy) {
    ClassNamesKnown(c) && StandInsMarked(c) && (m.Compress? ==> Distinct(c))
  }

  lemma StringKeeps(s: Text, c: Context, m: Policy)
    requires Consistent(c, m)
    ensures var r := EncodeString(s, c, m); r.Wrote? ==>
      Consistent(r.ctx, m) && (s == [] || s in r.ctx.strings) && r.ctx.traits == c.traits && r.ctx.objects == c.objects
  {
  }

  lemma {:induction false} NamesKeep(names: seq<Text>, c: Context, m: Policy)
    requires Consistent(c, m)
    ensures var r := EncodeNames(names, c, m); r.Wrote? ==>
      Consistent(r.ctx, m) && r.ctx.traits == c.traits && r.ctx.objects == c.objects
  {
    if names != [] {
      StringKeeps(names[0], c, m);
      var first := EncodeString(names[0], c, m);
      if first.Wrote? {
        NamesKeep(names[1..], first.ctx, m);
      }
    }
  }

  lemma TraitsKeep(t: Traits, c: Context, m: Policy)
    requires Consistent(c, m)
    ensures var r := EncodeTraits(t, c, m); r.Wrote? ==> Consistent(r.ctx, m) && r.ctx.objects == c.objects
  {
    StringKeeps(t.className, c, m);
    var name := EncodeString(t.className, c, m);
    if name.Wrote? && !t.externalizable && TraitsIndex(name.ctx, t, m) == |name.ctx.traits| {
      assert Consistent(AddTraits(name.ctx, t), m);
      NamesKeep(Unique(t.attributes), AddTraits(name.ctx, t), m);
    }
  }

  /** Serializing any item keeps the invariant. */
  lemma {:induction false} EncodeKeeps(x: Item, c: Context, m: Policy)
    requires Consistent(c, m)
    ensures Encode(x, c, m).Wrote? ==> Consistent(Encode(x, c, m).ctx, m)
    decreases x, 2
  {
    if Tabled(x) {
      if New(x, c, m) {
        assert Consistent(AddObject(c, x), m);
        BodyKeeps(x, AddObject(c, x), m);
      }
    } else if x.Str? {
      StringKeeps(x.text, c, m);
    }
  }

  lemma {:induction false} BodyKeeps(x: Item, c: Context, m: Policy)
    requires Tabled(x) && Consistent(c, m)
    ensures EncodeBody(x, c, m).Wrote? ==> Consistent(EncodeBody(x, c, m).ctx, m)
    decreases x, 1
  {
    match x
    case Array(_, _) => ArrayKeeps(x, c, m);
    case Object(_, _, _, _) => ObjectKeeps(x, c, m);
    case Vector(_, _, _) => VectorKeeps(x, c, m);
    case _ =>
  }

  lemma {:induction false} ArrayKeeps(x: Item, c: Context, m: Policy)
    requires x.Array? && Consistent(c, m)
    ensures EncodeArray(x, c, m).Wrote? ==> Consistent(EncodeArray(x, c, m).ctx, m)
    decreases x, 0
  {
    PropsKeep(x.assoc.names, x.assoc.values, c, m);
    var named := EncodeProps(x.assoc.names, x.assoc.values, c, m);
    if named.Wrote? { SeqKeeps(x.dense, named.ctx, m); }
  }

  lemma {:induction false} ObjectKeeps(x: Item, c: Context, m: Policy)
    requires x.Object? && Consistent(c, m)
    ensures EncodeObject(x, c, m).Wrote? ==> Consistent(EncodeObject(x, c, m).ctx, m)
    decreases x, 0
  {
    TraitsKeep(x.traits, c, m);
    var head := EncodeTraits(x.traits, c, m);
    if head.Wrote? {
      PickKeeps(Unique(x.traits.attributes), x.sealed, head.ctx, m);
      var sealed := EncodePick(Unique(x.traits.attributes), x.sealed, head.ctx, m);
      if sealed.Wrote? && x.traits.dynamic { PropsKeep(x.dyn.names, x.dyn.values, sealed.ctx, m); }
    }
  }

  lemma {:induction false} VectorKeeps(x: Item, c: Context, m: Policy)
    requires x.Vector? && Consistent(c, m)
    ensures EncodeVector(x, c, m).Wrote? ==> Consistent(EncodeVector(x, c, m).ctx, m)
    decreases x, 0
  {
    StringKeeps(x.typeName, c, m);
    var name := EncodeString(x.typeName, c, m);
    if name.Wrote? { SeqKeeps(x.values, name.ctx, m); }
  }

  lemma {:induction false} SeqKeeps(xs: seq<Item>, c: Context, m: Policy)
    requires Consistent(c, m)
    ensures EncodeSeq(xs, c, m).Wrote? ==> Consistent(EncodeSeq(xs, c, m).ctx, m)
    decreases xs
  {
    if xs != [] {
      EncodeKeeps(xs[0], c, m);
      var first := Encode(xs[0], c, m);
      if first.Wrote? { SeqKeeps(xs[1..], first.ctx, m); }
    }
  }

  lemma {:induction false} PropsKeep(names: seq<Text>, values: seq<Item>, c: Context, m: Policy)
    requires |names| == |values| && Consistent(c, m)
    ensures EncodeProps(names, values, c, m).Wrote? ==> Consistent(EncodeProps(names, values, c, m).ctx, m)
    decreases values
  {
    if names != [] {
      StringKeeps(names[0], c, m);
      var name := EncodeString(names[0], c, m);
      if name.Wrote? {
        EncodeKeeps(values[0], name.ctx, m);
        var value := Encode(values[0], name.ctx, m);
        if value.Wrote? { PropsKeep(names[1..], values[1..], value.ctx, m); }
      }
    }
  }

  lemma {:induction false} PickKeeps(names: seq<Text>, p: Props<Item>, c: Context, m: Policy)
    requires Consistent(c, m)
    ensures EncodePick(names, p, c, m).Wrote? ==> Consistent(EncodePick(names, p, c, m).ctx, m)
    decreases p, |names|
  {
    if names != [] && Holds(p.names, names[0]) {
      var x := p.values[Rank(p.names, names[0])];
      EncodeKeeps(x, c, m);
      var first := Encode(x, c, m);
      if first.Wrote? { PickKeeps(names[1..], p, first.ctx, m); }
    }
  }

  /** In a context a stream of items has led to, a lookup finds the only entry there is to find. */
  lemma StreamInvariant(xs: seq<Item>)
    requires EncodeStream(xs).Wrote?
    ensures Consistent(EncodeStream(xs).ctx, Compress)
  {
    SeqKeeps(xs, EMPTY, Compress);
  }

  /** Every match of a lookup is the one it returns. */
  lemma LookupUnique(c: Context, i: nat, x: Item)
    requires Consistent(c, Compress)
    ensures i < |c.strings| ==> StringIndex(c, c.strings[i], Compress) == i
    ensures i < |c.traits| ==> TraitsIndex(c, c.traits[i], Compress) == i
    ensures i < |c.objects| && Eq(c.objects[i], x) ==> ObjectIndex(c, x, Compress) == i
  {
    var r := ObjectIndex(c, x, Compress);
    if i < |c.objects| && Eq(c.objects[i], x) && r < i {
      EqSymmetric(c.objects[i], x);
      EqTransitive(c.objects[r], x, c.objects[i]);
    }
  }

  /** An item that has an entry is found: no comparison before that throws. */
  lemma KnownIsFound(c: Context, k: nat, x: Item)
    requires Consistent(c, Compress) && k < |c.objects| && Eq(c.objects[k], x)
    ensures ObjectIndex(c, x, Compress) == k && !LookupRaises(c, x, Compress) && !External(x)
  {
    hide Eq, Raises;
    LookupUnique(c, k, x);
    EqSymmetric(c.objects[k], x);
    SameClassOfEqual(c.objects[k], x);
    forall i | 0 <= i < k ensures !Raises(c.objects[i], x) {
      if Raises(c.objects[i], x) {
        EqReflexive(c.objects[i]);
        RaisesAlike(c.objects[i], x, c.objects[i], c.objects[k]);
      }
    }
  }

  /** The class name that is serialized and dropped for known traits leaves the context as it was. */
  lemma DroppedNameIsSilent(t: Traits, c: Context)
    requires Consistent(c, Compress) && t in c.traits
    ensures EncodeString(t.className, c, Compress).Wrote? && EncodeString(t.className, c, Compress).ctx == c
  {
  }
}
