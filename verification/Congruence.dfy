/** Equal items serialize alike, zeros apart, which is what hashing a dictionary key by its bytes relies on. */
module Congruence {
  import opened Words
  import opened Names
  import opened Items
  import opened Encoder
  import opened Equality

  /** No zero among the doubles that are written; 0.0 and -0.0 are equal but serialize differently. */
  predicate NoZeroSent(x: Item)
    decreases x
  {
    match x
    case Double(m, _) => !IsZero(m)
    case Array(p, d) => NoZeroSentSeq(p.values) && NoZeroSentSeq(d)
    case Object(t, s, d, _) => NoZeroSentPick(Unique(t.attributes), s) && (t.dynamic ==> NoZeroSentSeq(d.values))
    case Vector(_, _, v) => NoZeroSentSeq(v)
    case _ => true
  }

  predicate NoZeroSentSeq(xs: seq<Item>)
    decreases xs
  {
    forall i :: 0 <= i < |xs| ==> NoZeroSent(xs[i])
  }

  predicate NoZeroSentPick(names: seq<Text>, p: Props<Item>)
    decreases p
  {
    forall i :: 0 <= i < |names| && Holds(p.names, names[i]) ==> NoZeroSent(p.values[Rank(p.names, names[i])])
  }

  /** Tables that hold equal entries at every index. */
  predicate Alike(c: Context, d: Context) {
    c.strings == d.strings && c.traits == d.traits && EqSeq(c.objects, d.objects)
  }

  /** The same exceptions, as many bytes, the same ones if `sure`, and tables that are alike again. */
  predicate SameOut(a: Out, b: Out, sure: bool) {
    a.Throws? == b.Throws?
    && (a.Wrote? ==>
          |a.bytes| == |b.bytes| && (sure ==> a.bytes == b.bytes) && a.exact == b.exact && Alike(a.ctx, b.ctx))
  }

  lemma {:induction false} FirstEqualAlike(xs: seq<Item>, ys: seq<Item>, a: Item, b: Item)
    requires EqSeq(xs, ys) && Eq(a, b)
    ensures FirstEqual(xs, a) == FirstEqual(ys, b)
  {
    hide Eq;
    if xs != [] {
      EqIff(xs[0], ys[0], a, b);
      FirstEqualAlike(xs[1..], ys[1..], a, b);
    }
  }

  lemma StringAlike(t: Text, c: Context, d: Context, m: Policy)
    requires Alike(c, d)
    ensures SameOut(EncodeString(t, c, m), EncodeString(t, d, m), true)
  {
  }

  lemma {:induction false} NamesAlike(names: seq<Text>, c: Context, d: Context, m: Policy)
    requires Alike(c, d)
    ensures SameOut(EncodeNames(names, c, m), EncodeNames(names, d, m), true)
  {
    hide EqSeq, EncodeString;
    if names != [] {
      StringAlike(names[0], c, d, m);
      var a, b := EncodeString(names[0], c, m), EncodeString(names[0], d, m);
      if a.Wrote? { NamesAlike(names[1..], a.ctx, b.ctx, m); }
    }
  }

  lemma TraitsAlike(t: Traits, c: Context, d: Context, m: Policy)
    requires Alike(c, d)
    ensures SameOut(EncodeTraits(t, c, m), EncodeTraits(t, d, m), true)
  {
    hide EqSeq, EncodeString, EncodeNames, TraitsHeader, Unique;
    StringAlike(t.className, c, d, m);
    var a, b := EncodeString(t.className, c, m), EncodeString(t.className, d, m);
    if a.Wrote? { NamesAlike(Unique(t.attributes), AddTraits(a.ctx, t), AddTraits(b.ctx, t), m); }
  }

  /**
    Equal items serialize alike from tables that are alike: both throw, or both write as many
    bytes and leave tables that are alike. The bytes are the same if no zero is written.
   */
  lemma {:induction false} EncodeAlike(x: Item, y: Item, c: Context, d: Context, m: Policy)
    requires Eq(x, y) && Alike(c, d)
    ensures SameOut(Encode(x, c, m), Encode(y, d, m), NoZeroSent(x))
    decreases x, 3
  {
    SameClassOfEqual(x, y);
    if Tabled(x) {
      TabledAlike(x, y, c, d, m);
    } else {
      hide EncodeBody, EncodeString, ObjectIndex, EqSeq, IntegerBytes;
      if x.Str? {
        StringAlike(x.text, c, d, m);
      }
    }
  }

  lemma {:induction false} TabledAlike(x: Item, y: Item, c: Context, d: Context, m: Policy)
    requires Tabled(x) && Tabled(y) && Marker(x) == Marker(y) && Eq(x, y) && Alike(c, d)
    ensures SameOut(Encode(x, c, m), Encode(y, d, m), NoZeroSent(x))
    decreases x, 2
  {
    hide EncodeBody, Eq, Raises, NoZeroSent, Extends, Small, Marker, FirstEqual, LookupRaises;
    FirstEqualAlike(c.objects, d.objects, x, y);
    SameClassOfEqual(x, y);
    LookupAlike(x, y, c, d, m);
    if New(x, c, m) {
      assert Alike(AddObject(c, x), AddObject(d, y));
      BodyAlike(x, y, AddObject(c, x), AddObject(d, y), m);
    }
  }

  lemma LookupAlike(x: Item, y: Item, c: Context, d: Context, m: Policy)
    requires Eq(x, y) && Alike(c, d) && FirstEqual(c.objects, x) == FirstEqual(d.objects, y)
    ensures LookupRaises(c, x, m) <==> LookupRaises(d, y, m)
  {
    hide Eq, Raises, FirstEqual;
    forall i | 0 <= i < |c.objects| ensures Raises(c.objects[i], x) <==> Raises(d.objects[i], y) {
      RaisesEq(c.objects[i], x, d.objects[i], y);
    }
  }

  lemma {:induction false} BodyAlike(x: Item, y: Item, c: Context, d: Context, m: Policy)
    requires Tabled(x) && Tabled(y) && Eq(x, y) && Alike(c, d)
    ensures SameOut(EncodeBody(x, c, m), EncodeBody(y, d, m), NoZeroSent(x))
    decreases x, 1
  {
    hide EncodeArray, EncodeObject, EncodeVector, LengthHeader, WordBytes, EqSeq, Alike, Small, Extends, NoZeroSent;
    match x
    case Array(_, _) => ArrayAlike(x, y, c, d, m);
    case Object(_, _, _, _) => ObjectAlike(x, y, c, d, m);
    case Vector(_, _, _) => VectorAlike(x, y, c, d, m);
    case _ =>
  }

  lemma {:induction false} ArrayAlike(x: Item, y: Item, c: Context, d: Context, m: Policy)
    requires x.Array? && y.Array? && Eq(x, y) && Alike(c, d)
    ensures SameOut(EncodeArray(x, c, m), EncodeArray(y, d, m), NoZeroSent(x))
    decreases x, 0
  {
    hide EncodeSeq, EncodeProps, LengthHeader, NoZeroSentSeq, Small, Extends;
    PropsAlike(x.assoc.names, x.assoc.values, y.assoc.values, c, d, m);
    var a, b := EncodeProps(x.assoc.names, x.assoc.values, c, m), EncodeProps(y.assoc.names, y.assoc.values, d, m);
    if a.Wrote? { SeqAlike(x.dense, y.dense, a.ctx, b.ctx, m); }
  }

  lemma {:induction false} VectorAlike(x: Item, y: Item, c: Context, d: Context, m: Policy)
    requires x.Vector? && y.Vector? && Eq(x, y) && Alike(c, d)
    ensures SameOut(EncodeVector(x, c, m), EncodeVector(y, d, m), NoZeroSent(x))
    decreases x, 0
  {
    hide EncodeSeq, EncodeString, LengthHeader, NoZeroSentSeq, Small, Extends;
    StringAlike(x.typeName, c, d, m);
    var a, b := EncodeString(x.typeName, c, m), EncodeString(y.typeName, d, m);
    if a.Wrote? { SeqAlike(x.values, y.values, a.ctx, b.ctx, m); }
  }

  lemma {:induction false} ObjectAlike(x: Item, y: Item, c: Context, d: Context, m: Policy)
    requires x.Object? && y.Object? && Eq(x, y) && Alike(c, d)
    ensures SameOut(EncodeObject(x, c, m), EncodeObject(y, d, m), NoZeroSent(x))
    decreases x, 0
  {
    hide EncodeTraits, EncodePick, EncodeProps, NoZeroSentSeq, NoZeroSentPick, Small, Extends, Unique, EqSeq, Eq;
    var names := Unique(x.traits.attributes);
    EqObjects(x, y);
    TraitsAlike(x.traits, c, d, m);
    var a, b := EncodeTraits(x.traits, c, m), EncodeTraits(y.traits, d, m);
    if a.Wrote? {
      PickAlike(names, x.sealed, y.sealed, a.ctx, b.ctx, m);
      var a2, b2 := EncodePick(names, x.sealed, a.ctx, m), EncodePick(names, y.sealed, b.ctx, m);
      if a2.Wrote? && x.traits.dynamic {
        PropsAlike(x.dyn.names, x.dyn.values, y.dyn.values, a2.ctx, b2.ctx, m);
      }
    }
  }

  lemma {:induction false} SeqAlike(xs: seq<Item>, ys: seq<Item>, c: Context, d: Context, m: Policy)
    requires EqSeq(xs, ys) && Alike(c, d)
    ensures SameOut(EncodeSeq(xs, c, m), EncodeSeq(ys, d, m), NoZeroSentSeq(xs))
    decreases xs
  {
    hide Encode, Eq, NoZeroSent, Alike;
    if xs != [] {
      EncodeAlike(xs[0], ys[0], c, d, m);
      var a, b := Encode(xs[0], c, m), Encode(ys[0], d, m);
      if a.Wrote? { SeqAlike(xs[1..], ys[1..], a.ctx, b.ctx, m); }
    }
  }

  lemma {:induction false} PropsAlike(names: seq<Text>, xs: seq<Item>, ys: seq<Item>, c: Context, d: Context, m: Policy)
    requires |names| == |xs| && EqSeq(xs, ys) && Alike(c, d)
    ensures SameOut(EncodeProps(names, xs, c, m), EncodeProps(names, ys, d, m), NoZeroSentSeq(xs))
    decreases xs
  {
    hide Encode, Eq, NoZeroSent, Alike, EncodeString;
    if names != [] {
      StringAlike(names[0], c, d, m);
      var a, b := EncodeString(names[0], c, m), EncodeString(names[0], d, m);
      if a.Wrote? {
        EncodeAlike(xs[0], ys[0], a.ctx, b.ctx, m);
        var a2, b2 := Encode(xs[0], a.ctx, m), Encode(ys[0], b.ctx, m);
        if a2.Wrote? { PropsAlike(names[1..], xs[1..], ys[1..], a2.ctx, b2.ctx, m); }
      }
    }
  }

  lemma {:induction false} PickAlike(names: seq<Text>, p: Props<Item>, q: Props<Item>, c: Context, d: Context,
                                     m: Policy)
    requires EqProps(p, q) && Alike(c, d)
    ensures SameOut(EncodePick(names, p, c, m), EncodePick(names, q, d, m), NoZeroSentPick(names, p))
    decreases p, |names|
  {
    hide Encode, Eq, NoZeroSent, Alike;
    if names != [] && Holds(p.names, names[0]) {
      assert NoZeroSentPick(names, p) ==>
        NoZeroSent(p.values[Rank(p.names, names[0])]) && NoZeroSentPick(names[1..], p);
      var i := Rank(p.names, names[0]);
      EncodeAlike(p.values[i], q.values[i], c, d, m);
      var a, b := Encode(p.values[i], c, m), Encode(q.values[i], d, m);
      if a.Wrote? { PickAlike(names[1..], p, q, a.ctx, b.ctx, m); }
    }
  }
}
