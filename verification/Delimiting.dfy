/**
  Where the decoder stops. Values aside, it follows any encoding to its last byte: doubles
  and integers of any width included, and whatever the object table holds.
 */
module Delimiting {
  import opened Words
  import opened Names
  import opened Items
  import opened Encoder
  import opened Decoder
  import opened Equality
  import opened Invariant
  import opened Lockstep
  import opened RoundTrip
  import opened Framing
  import U29

  /** No empty name where it would end a list, and attribute counts that the traits header can hold. */
  predicate Delimited(x: Item)
    decreases x
  {
    match x
    case Array(p, d) => [] !in p.names && DelimitedSeq(p.values) && DelimitedSeq(d)
    case Object(t, s, d, _) =>
      && |Unique(t.attributes)| < 0x100_0000
      && DelimitedPick(Unique(t.attributes), s)
      && (t.dynamic ==> [] !in d.names && DelimitedSeq(d.values))
    case Vector(_, _, v) => DelimitedSeq(v)
    case _ => true
  }

  predicate DelimitedSeq(xs: seq<Item>)
    decreases xs
  {
    forall i :: 0 <= i < |xs| ==> Delimited(xs[i])
  }

  predicate DelimitedPick(names: seq<Text>, p: Props<Item>)
    decreases p
  {
    forall i :: 0 <= i < |names| && Holds(p.names, names[i]) ==> Delimited(p.values[Rank(p.names, names[i])])
  }

  lemma {:induction false} WellFormedDelimited(x: Item)
    requires WellFormed(x)
    ensures Delimited(x)
    decreases x
  {
    match x
    case Array(p, d) => WellFormedDelimitedSeq(p.values); WellFormedDelimitedSeq(d);
    case Object(t, s, d, _) =>
      forall i | 0 <= i < |Unique(t.attributes)| && Holds(s.names, Unique(t.attributes)[i])
        ensures Delimited(s.values[Rank(s.names, Unique(t.attributes)[i])])
      {
        assert Unique(t.attributes)[i] in t.attributes;
        WellFormedDelimited(s.values[Rank(s.names, Unique(t.attributes)[i])]);
      }
      if t.dynamic { WellFormedDelimitedSeq(d.values); }
    case Vector(_, _, v) => WellFormedDelimitedSeq(v);
    case _ =>
  }

  lemma {:induction false} WellFormedDelimitedSeq(xs: seq<Item>)
    requires WellFormedSeq(xs)
    ensures DelimitedSeq(xs)
    decreases xs
  {
    forall i | 0 <= i < |xs| ensures Delimited(xs[i]) { WellFormedDelimited(xs[i]); }
  }

  // ----- Tables that lead the decoder the same way -----

  function SlotMarker(slot: Slot): byte {
    match slot case Open(m) => m case Done(x) => Marker(x)
  }

  /** The same strings, the same traits up to order, and objects of the same classes. */
  predicate Matches(c: Context, d: Table) {
    && d.strings == c.strings && d.traits == ViewTraits(c.traits) && |d.objects| == |c.objects|
    && forall i :: 0 <= i < |c.objects| ==> SlotMarker(d.objects[i]) == Marker(c.objects[i])
  }

  /** The decoder came to the end of what was written, with matching tables. */
  predicate Follows<T>(r: Out, y: Decoded<T>, p: nat) {
    r.Wrote? && y.Ok? && y.next == p + |r.bytes| && Matches(r.ctx, y.ctx)
  }

  lemma ViewMatches(c: Context)
    ensures Matches(c, View(c, {}))
  {
    forall i | 0 <= i < |c.objects| ensures SlotMarker(View(c, {}).objects[i]) == Marker(c.objects[i]) {
      CanonMarker(c.objects[i]);
    }
  }

  lemma MatchesAdd(c: Context, d: Table, x: Item, slot: Slot)
    requires Matches(c, d) && SlotMarker(slot) == Marker(x)
    ensures Matches(AddObject(c, x), AddObject(d, slot))
  {
  }

  lemma MatchesClose(c: Context, d: Table, i: nat, x: Item)
    requires Matches(c, d) && i < |c.objects| && Marker(x) == Marker(c.objects[i])
    ensures Matches(c, Close(d, i, x))
  {
  }

  // ----- Strings and traits only look at their own tables -----

  lemma FollowString(t: Text, c: Context, d: Table, m: Policy, s: seq<byte>, p: nat)
    requires EncodeString(t, c, m).Wrote? && EncodeString(t, c, m).exact && At(s, p, EncodeString(t, c, m).bytes)
    requires Matches(c, d)
    ensures DecodeString(s, p, d).Ok? && DecodeString(s, p, d).value == t
    ensures Follows(EncodeString(t, c, m), DecodeString(s, p, d), p)
  {
    hide U29.Read, LengthHeader;
    RoundTripString(t, c, m, {}, s, p);
  }

  lemma {:induction false} NamesElsewhere(n: int, s: seq<byte>, p: nat, d: Table, e: Table, acc: seq<Text>)
    requires p <= |s| && d.strings == e.strings
    ensures var x, y := DecodeNames(n, s, p, d, acc), DecodeNames(n, s, p, e, acc);
      x.Ok? == y.Ok? && (x.Ok? ==> x == Ok(y.value, y.next, d.(strings := y.ctx.strings)))
      && (y.Ok? ==> y.ctx == e.(strings := y.ctx.strings))
    decreases |s| - p
  {
    hide U29.Read, Settles;
    if n > 0 {
      var x, y := DecodeString(s, p, d), DecodeString(s, p, e);
      if x.Ok? { NamesElsewhere(n - 1, s, x.next, x.ctx, y.ctx, acc + [x.value]); }
    }
  }

  lemma TraitsElsewhere(h: int, s: seq<byte>, p: nat, d: Table, e: Table)
    requires p <= |s| && d.strings == e.strings && d.traits == e.traits
    ensures var x, y := DecodeTraits(h, s, p, d), DecodeTraits(h, s, p, e);
      x.Ok? == y.Ok?
      && (x.Ok? ==> x == Ok(y.value, y.next, Tables(y.ctx.strings, y.ctx.traits, d.objects)))
  {
    hide U29.Read, DecodeNames, Settles;
    if h % 4 != 1 && h % 8 != 7 {
      var x, y := DecodeString(s, p, d), DecodeString(s, p, e);
      if x.Ok? { NamesElsewhere(h / 16, s, x.next, x.ctx, y.ctx, []); }
    }
  }

  lemma FollowTraits(t: Traits, c: Context, d: Table, m: Policy, s: seq<byte>, p: nat)
    requires |Unique(t.attributes)| < 0x100_0000 && Consistent(c, m) && Matches(c, d)
    requires EncodeTraits(t, c, m).Wrote? && EncodeTraits(t, c, m).exact && At(s, p, EncodeTraits(t, c, m).bytes)
    ensures var h := U29.Read(s, p);
      h.Got? && h.value % 2 == 1
      && var y := DecodeTraits(h.value, s, h.next, d);
         Follows(EncodeTraits(t, c, m), y, p) && y.value == CanonTraits(t) && y.ctx.objects == d.objects
  {
    hide U29.Read, EncodeTraits, DecodeTraits;
    RoundTripTraits(t, c, m, {}, s, p);
    TraitsKeepObjects(t, c, m);
    var h := U29.Read(s, p);
    TraitsElsewhere(h.value, s, h.next, d, View(c, {}));
  }

  lemma TraitsKeepObjects(t: Traits, c: Context, m: Policy)
    requires Consistent(c, m)
    ensures EncodeTraits(t, c, m).Wrote? ==> EncodeTraits(t, c, m).ctx.objects == c.objects
  {
    TraitsKeep(t, c, m);
  }

  // ----- Items -----

  lemma FollowSimple(x: Item, c: Context, d: Table, m: Policy, s: seq<byte>, p: nat)
    requires !Tabled(x) && Matches(c, d)
    requires Encode(x, c, m).Wrote? && Encode(x, c, m).exact && At(s, p, Encode(x, c, m).bytes)
    ensures Follows(Encode(x, c, m), Decode(s, p, d), p)
  {
    if x.Str? {
      FollowText(x.text, c, d, m, s, p);
    } else if x.Integer? {
      FollowInteger(x.value, c, d, m, s, p);
    } else {
      hide U29.Read, EncodeString, DecodeString, EncodeBody, DecodeBody, IntegerBytes, Matches, Small, Extends,
           Settles, Resolve;
      var b := Encode(x, c, m).bytes;
      assert s[p..p + |b|][0] == s[p] == b[0];
    }
  }

  /** An integer of any width, as an integer or as a double. */
  lemma FollowInteger(v: int, c: Context, d: Table, m: Policy, s: seq<byte>, p: nat)
    requires Matches(c, d) && At(s, p, Encode(Integer(v), c, m).bytes)
    ensures Follows(Encode(Integer(v), c, m), Decode(s, p, d), p)
  {
    hide U29.Read, U29.Write, Int32, DoubleMemory, DecodeString, DecodeBody, Matches, Small, Extends, Settles,
         Resolve;
    var w := Int32(v);
    var b := IntegerBytes(w);
    assert Encode(Integer(v), c, m) == Wrote(b, c, true);
    assert s[p..p + |b|][0] == s[p] == b[0];
    if U29.MIN <= w <= U29.MAX {
      AtSplit(s, p, [INTEGER], U29.Write(w));
      U29.RoundTrip(s, p + 1, w);
    }
  }

  lemma FollowText(t: Text, c: Context, d: Table, m: Policy, s: seq<byte>, p: nat)
    requires Matches(c, d)
    requires Encode(Str(t), c, m).Wrote? && Encode(Str(t), c, m).exact && At(s, p, Encode(Str(t), c, m).bytes)
    ensures Follows(Encode(Str(t), c, m), Decode(s, p, d), p)
  {
    hide U29.Read, EncodeString, DecodeString, Matches, Small, Extends, Settles, Resolve;
    AtSplit(s, p, [STRING], EncodeString(t, c, m).bytes);
    assert s[p] == s[p..p + 1][0] == STRING;
    FollowString(t, c, d, m, s, p + 1);
  }

  lemma FollowReference(x: Item, c: Context, d: Table, m: Policy, s: seq<byte>, p: nat)
    requires Tabled(x) && Matches(c, d) && ObjectIndex(c, x, m) < |c.objects|
    requires Encode(x, c, m).Wrote? && Encode(x, c, m).exact && At(s, p, Encode(x, c, m).bytes)
    ensures Follows(Encode(x, c, m), Decode(s, p, d), p)
  {
    hide Encode, Decode, Eq, Marker, Small, Extends, Settles;
    var i := ObjectIndex(c, x, m);
    EncodeKnown(x, c, m);
    SameClassOfEqual(c.objects[i], x);
    DecodeKnown(x, i, d, s, p);
  }

  lemma FollowData(x: Item, c: Context, d: Table, m: Policy, s: seq<byte>, p: nat)
    requires x.Data? && Matches(c, d)
    requires var r := EncodeBody(x, AddObject(c, x), m); r.Wrote? && At(s, p, r.bytes)
    ensures var h := U29.Read(s, p);
      h.Got? && h.value % 2 == 1
      && Follows(EncodeBody(x, AddObject(c, x), m), DecodeData(Marker(x), h.value / 2, s, h.next, d), p)
  {
    hide U29.Read, LengthHeader, Matches, Small, Extends, Settles;
    AtSplit(s, p, LengthHeader(|x.bytes|), x.bytes);
    ReadLength(s, p, |x.bytes|);
    MatchesAdd(c, d, x, Done(x));
  }

  lemma FollowNumbers(x: Item, c: Context, d: Table, m: Policy, s: seq<byte>, p: nat)
    requires x.Numbers? && Matches(c, d)
    requires var r := EncodeBody(x, AddObject(c, x), m); r.Wrote? && At(s, p, r.bytes)
    ensures var h := U29.Read(s, p);
      h.Got? && h.value % 2 == 1
      && Follows(EncodeBody(x, AddObject(c, x), m), DecodeNumbers(Marker(x), h.value / 2, s, h.next, d), p)
  {
    hide U29.Read, LengthHeader, WordBytes, ReadWords, Matches, Small, Extends, Settles;
    AtSplit3(s, p, LengthHeader(|x.numbers|), Flag(x.fixed), WordBytes(x.numbers));
    ReadLength(s, p, |x.numbers|);
    var q := p + |LengthHeader(|x.numbers|)|;
    MatchesAdd(c, d, x, Done(Numbers(x.width, ReadWords(s, q + 1, |x.numbers|), s[q] == 1)));
  }

  lemma {:induction false} FollowSeq(xs: seq<Item>, c: Context, d: Table, m: Policy, s: seq<byte>, p: nat,
                                     acc: seq<Item>)
    requires DelimitedSeq(xs) && Consistent(c, m) && Matches(c, d)
    requires EncodeSeq(xs, c, m).Wrote? && EncodeSeq(xs, c, m).exact && At(s, p, EncodeSeq(xs, c, m).bytes)
    ensures Follows(EncodeSeq(xs, c, m), DecodeSeq(|xs|, s, p, d, acc), p)
    decreases xs
  {
    hide Encode, Decode, Delimited, Consistent, Matches, Extends, Settles;
    if xs != [] {
      var first := Encode(xs[0], c, m);
      AtSplit(s, p, first.bytes, EncodeSeq(xs[1..], first.ctx, m).bytes);
      FollowItem(xs[0], c, d, m, s, p);
      EncodeKeeps(xs[0], c, m);
      var y := Decode(s, p, d);
      FollowSeq(xs[1..], first.ctx, y.ctx, m, s, y.next, acc + [y.value]);
    }
  }

  lemma {:induction false} FollowProps(names: seq<Text>, values: seq<Item>, c: Context, d: Table, m: Policy,
                                       s: seq<byte>, p: nat, acc: Props<Item>)
    requires |names| == |values| && [] !in names && DelimitedSeq(values) && Consistent(c, m) && Matches(c, d)
    requires var r := EncodeProps(names, values, c, m); r.Wrote? && r.exact && At(s, p, r.bytes + [1])
    ensures var r := EncodeProps(names, values, c, m);
      Follows(Join(r, Put1([1], r.ctx)), DecodeProps(s, p, d, acc), p)
    decreases values
  {
    hide Encode, Decode, EncodeString, DecodeString, Delimited, Consistent, Matches, Extends, Settles, Put;
    var r := EncodeProps(names, values, c, m);
    if names == [] {
      assert [] + [1] == [1];
      EndOfProps(c, d, s, p);
    } else {
      var name := EncodeString(names[0], c, m);
      var value := Encode(values[0], name.ctx, m);
      var rest := EncodeProps(names[1..], values[1..], value.ctx, m);
      assert r.bytes + [1] == name.bytes + value.bytes + (rest.bytes + [1]);
      AtSplit3(s, p, name.bytes, value.bytes, rest.bytes + [1]);
      FollowString(names[0], c, d, m, s, p);
      StringKeeps(names[0], c, m);
      var k := DecodeString(s, p, d);
      FollowItem(values[0], name.ctx, k.ctx, m, s, k.next);
      EncodeKeeps(values[0], name.ctx, m);
      var y := Decode(s, k.next, k.ctx);
      FollowProps(names[1..], values[1..], value.ctx, y.ctx, m, s, y.next, Put(acc, k.value, y.value));
    }
  }

  lemma EndOfProps(c: Context, d: Table, s: seq<byte>, p: nat)
    requires At(s, p, [1])
    ensures DecodeString(s, p, d) == Ok([], p + 1, d)
  {
    ReadSmall(s, p, 1);
    assert s[p + 1..p + 1] == [];
  }

  lemma {:induction false} FollowPick(names: seq<Text>, q: Props<Item>, c: Context, d: Table, m: Policy, s: seq<byte>,
                                      p: nat, acc: Props<Item>)
    requires DelimitedPick(names, q) && Consistent(c, m) && Matches(c, d)
    requires var r := EncodePick(names, q, c, m); r.Wrote? && r.exact && At(s, p, r.bytes)
    ensures Follows(EncodePick(names, q, c, m), DecodeSealed(names, s, p, d, acc), p)
    decreases q, |names|
  {
    hide Encode, Decode, Delimited, Consistent, Matches, Extends, Settles, Put;
    if names != [] {
      var x := q.values[Rank(q.names, names[0])];
      var first := Encode(x, c, m);
      AtSplit(s, p, first.bytes, EncodePick(names[1..], q, first.ctx, m).bytes);
      FollowItem(x, c, d, m, s, p);
      EncodeKeeps(x, c, m);
      var y := Decode(s, p, d);
      FollowPick(names[1..], q, first.ctx, y.ctx, m, s, y.next, Put(acc, names[0], y.value));
    }
  }

  lemma {:induction false} FollowArray(x: Item, c: Context, d: Table, m: Policy, s: seq<byte>, p: nat)
    requires x.Array? && Delimited(x) && Consistent(c, m) && Matches(c, d) && New(x, c, m)
    requires var r := EncodeArray(x, AddObject(c, x), m); r.Wrote? && r.exact && At(s, p, r.bytes)
    ensures var h := U29.Read(s, p);
      h.Got? && h.value % 2 == 1
      && Follows(EncodeArray(x, AddObject(c, x), m), DecodeArray(h.value / 2, s, h.next, d), p)
    decreases x, 0
  {
    hide EncodeSeq, EncodeProps, DecodeSeq, DecodeProps, U29.Read, LengthHeader, ObjectIndex, DelimitedSeq,
         Consistent, Matches, AddObject, Close;
    var c1, d1 := AddObject(c, x), AddObject(d, Open(ARRAY));
    var head := LengthHeader(|x.dense|);
    var named := EncodeProps(x.assoc.names, x.assoc.values, c1, m);
    var dense := EncodeSeq(x.dense, named.ctx, m);
    assert head + named.bytes + ([1] + dense.bytes) == head + (named.bytes + [1]) + dense.bytes;
    AtSplit3(s, p, head, named.bytes + [1], dense.bytes);
    ReadLength(s, p, |x.dense|);
    RegisteredConsistent(x, c, m);
    MatchesAdd(c, d, x, Open(ARRAY));
    FollowProps(x.assoc.names, x.assoc.values, c1, d1, m, s, p + |head|, NO_PROPS);
    PropsKeep(x.assoc.names, x.assoc.values, c1, m);
    var y := DecodeProps(s, p + |head|, d1, NO_PROPS);
    FollowSeq(x.dense, named.ctx, y.ctx, m, s, y.next, []);
    var z := DecodeSeq(|x.dense|, s, y.next, y.ctx, []);
    FollowClose(x, c, c1, dense.ctx, d, z.ctx, Array(y.value, z.value));
  }

  /** The entry that was added for `x` is closed with an item of its class. */
  lemma FollowClose(x: Item, c: Context, c1: Context, c2: Context, d: Table, e: Table, y: Item)
    requires c1 == AddObject(c, x) && Extends(c1, c2) && Matches(c, d) && Matches(c2, e) && Marker(y) == Marker(x)
    ensures |d.objects| < |e.objects| && Matches(c2, Close(e, |d.objects|, y))
  {
    MatchesClose(c2, e, |c.objects|, y);
  }

  lemma {:induction false} FollowVector(x: Item, c: Context, d: Table, m: Policy, s: seq<byte>, p: nat)
    requires x.Vector? && Delimited(x) && Consistent(c, m) && Matches(c, d) && New(x, c, m)
    requires var r := EncodeVector(x, AddObject(c, x), m); r.Wrote? && r.exact && At(s, p, r.bytes)
    ensures var h := U29.Read(s, p);
      h.Got? && h.value % 2 == 1
      && Follows(EncodeVector(x, AddObject(c, x), m), DecodeVector(h.value / 2, s, h.next, d), p)
    decreases x, 0
  {
    hide EncodeString, EncodeSeq, DecodeString, DecodeSeq, U29.Read, LengthHeader, ObjectIndex, DelimitedSeq,
         Consistent, Matches, AddObject, Close, At, Extends, Settles, Small;
    var name := EncodeString(x.typeName, c, m);
    StringIgnoresObject(x.typeName, c, x, m);
    var c2 := AddObject(name.ctx, x);
    var values := EncodeSeq(x.values, c2, m);
    var head := LengthHeader(|x.values|);
    var q := p + |head|;
    assert head + Flag(x.fixed) + name.bytes + values.bytes == head + (Flag(x.fixed) + name.bytes) + values.bytes;
    AtSplit3(s, p, head, Flag(x.fixed) + name.bytes, values.bytes);
    AtSplit(s, q, Flag(x.fixed), name.bytes);
    ReadFlag(x.fixed, s, q);
    ReadLength(s, p, |x.values|);
    FollowString(x.typeName, c, d, m, s, q + 1);
    var k := DecodeString(s, q + 1, d);
    RegisteredConsistent(x, c, m);
    StringKeeps(x.typeName, AddObject(c, x), m);
    MatchesAdd(name.ctx, k.ctx, x, Open(VECTOR_OBJECT));
    var d2 := AddObject(k.ctx, Open(VECTOR_OBJECT));
    FollowSeq(x.values, c2, d2, m, s, k.next, []);
    var z := DecodeSeq(|x.values|, s, k.next, d2, []);
    FollowClose(x, name.ctx, c2, values.ctx, k.ctx, z.ctx, Vector(k.value, s[q] == 1, z.value));
  }

  lemma {:induction false} FollowObject(x: Item, c: Context, d: Table, m: Policy, s: seq<byte>, p: nat)
    requires x.Object? && Delimited(x) && Consistent(c, m) && Matches(c, d) && New(x, c, m)
    requires var r := EncodeObject(x, AddObject(c, x), m); r.Wrote? && r.exact && At(s, p, r.bytes)
    ensures var h := U29.Read(s, p);
      h.Got? && h.value % 2 == 1
      && Follows(EncodeObject(x, AddObject(c, x), m), DecodeObject(h.value, s, h.next, d), p)
    decreases x, 0
  {
    hide EncodeObject, EncodeTraits, DecodeTraits, EncodePick, EncodeProps, DecodeSealed, DecodeProps, U29.Read,
         ObjectIndex, DelimitedSeq, DelimitedPick, Consistent, Matches, AddObject, Close, Unique, At, Extends;
    var names := Unique(x.traits.attributes);
    ObjectParts(x, c, m, s, p);
    var r := EncodeObject(x, AddObject(c, x), m);
    var head := EncodeTraits(x.traits, c, m);
    var c2 := AddObject(head.ctx, x);
    var sealed := EncodePick(names, x.sealed, c2, m);
    FollowTraits(x.traits, c, d, m, s, p);
    var h := U29.Read(s, p);
    var t := DecodeTraits(h.value, s, h.next, d);
    RegisteredConsistent(x, c, m);
    TraitsKeep(x.traits, AddObject(c, x), m);
    MatchesAdd(head.ctx, t.ctx, x, Open(OBJECT));
    var d2 := AddObject(t.ctx, Open(OBJECT));
    FollowPick(names, x.sealed, c2, d2, m, s, t.next, NO_PROPS);
    var y := DecodeSealed(names, s, t.next, d2, NO_PROPS);
    if x.traits.dynamic {
      PickKeeps(names, x.sealed, c2, m);
      FollowProps(x.dyn.names, x.dyn.values, sealed.ctx, y.ctx, m, s, y.next, NO_PROPS);
      var z := DecodeProps(s, y.next, y.ctx, NO_PROPS);
      FollowClose(x, head.ctx, c2, r.ctx, t.ctx, z.ctx, Object(t.value, y.value, z.value, 0));
    } else {
      FollowClose(x, head.ctx, c2, r.ctx, t.ctx, y.ctx, Object(t.value, y.value, NO_PROPS, 0));
    }
  }

  /**
    From matching tables the decoder follows every encoding whose references fit to its last
    byte, whatever values it makes of it, and its tables match again.
   */
  lemma {:induction false} FollowItem(x: Item, c: Context, d: Table, m: Policy, s: seq<byte>, p: nat)
    requires Delimited(x) && Consistent(c, m) && Matches(c, d)
    requires Encode(x, c, m).Wrote? && Encode(x, c, m).exact && At(s, p, Encode(x, c, m).bytes)
    ensures Follows(Encode(x, c, m), Decode(s, p, d), p)
    decreases x, 3
  {
    hide Encode, Decode, Delimited, ObjectIndex, Consistent, Matches, Follows, At;
    if !Tabled(x) {
      FollowSimple(x, c, d, m, s, p);
    } else if ObjectIndex(c, x, m) < |c.objects| {
      FollowReference(x, c, d, m, s, p);
    } else {
      WrittenNew(x, c, m);
      FollowNew(x, c, d, m, s, p);
    }
  }

  lemma WrittenNew(x: Item, c: Context, m: Policy)
    requires Tabled(x) && Encode(x, c, m).Wrote? && ObjectIndex(c, x, m) >= |c.objects|
    ensures New(x, c, m)
  {
    hide EncodeBody, LookupRaises, ObjectIndex, Small, Extends;
  }

  lemma {:induction false} FollowNew(x: Item, c: Context, d: Table, m: Policy, s: seq<byte>, p: nat)
    requires Tabled(x) && Delimited(x) && Consistent(c, m) && Matches(c, d) && New(x, c, m)
    requires Encode(x, c, m).Wrote? && Encode(x, c, m).exact && At(s, p, Encode(x, c, m).bytes)
    ensures Follows(Encode(x, c, m), Decode(s, p, d), p)
    decreases x, 2
  {
    hide EncodeBody, DecodeBody, DecodeSimple, U29.Read, Delimited, ObjectIndex, Consistent, Matches, Resolve, Small,
         Extends, Settles;
    var body := EncodeBody(x, AddObject(c, x), m);
    AtSplit(s, p, [Marker(x)], body.bytes);
    assert s[p] == s[p..p + 1][0] == Marker(x);
    FollowBody(x, c, d, m, s, p + 1);
  }

  lemma {:induction false} FollowBody(x: Item, c: Context, d: Table, m: Policy, s: seq<byte>, p: nat)
    requires Tabled(x) && Delimited(x) && Consistent(c, m) && Matches(c, d) && New(x, c, m)
    requires var r := EncodeBody(x, AddObject(c, x), m); r.Wrote? && r.exact && At(s, p, r.bytes)
    ensures var h := U29.Read(s, p);
      h.Got? && h.value % 2 == 1
      && Follows(EncodeBody(x, AddObject(c, x), m), DecodeBody(Marker(x), h.value, s, h.next, d), p)
    decreases x, 1
  {
    hide EncodeArray, EncodeObject, EncodeVector, DecodeArray, DecodeObject, DecodeVector, DecodeData, DecodeNumbers,
         U29.Read, Delimited, Consistent, Matches, Follows;
    match x
    case Array(_, _) => FollowArray(x, c, d, m, s, p);
    case Object(_, _, _, _) => FollowObject(x, c, d, m, s, p);
    case Vector(_, _, _) => FollowVector(x, c, d, m, s, p);
    case Data(_, _) => FollowData(x, c, d, m, s, p);
    case Numbers(_, _, _) => FollowNumbers(x, c, d, m, s, p);
  }

  // ----- Truncation and prefixes -----

  /** A truncated encoding is rejected, wherever it is cut. */
  lemma TruncationFails(x: Item, c: Context, d: Table, m: Policy, k: nat)
    requires Delimited(x) && Consistent(c, m) && Matches(c, d)
    requires Encode(x, c, m).Wrote? && Encode(x, c, m).exact && k < |Encode(x, c, m).bytes|
    ensures Decode(Encode(x, c, m).bytes[..k], 0, d).Bad?
  {
    hide Encode, Decode, Delimited, Consistent, Matches;
    var b := Encode(x, c, m).bytes;
    assert b[0..|b|] == b;
    FollowItem(x, c, d, m, b, 0);
    if Decode(b[..k], 0, d).Ok? {
      assert b[..k] + b[k..] == b;
      DecodeAppend(b[..k], b[k..], 0, d);
    }
  }

  /**
    From one context, one encoding is a prefix of another only if they are the same bytes,
    and then of the same canonical value if both items are well-formed.
   */
  lemma PrefixFree(x: Item, y: Item, c: Context, m: Policy, n: Policy)
    requires Delimited(x) && Consistent(c, m) && Encode(x, c, m).Wrote? && Encode(x, c, m).exact
    requires Delimited(y) && Consistent(c, n) && Encode(y, c, n).Wrote? && Encode(y, c, n).exact
    requires Encode(x, c, m).bytes <= Encode(y, c, n).bytes
    ensures Encode(x, c, m).bytes == Encode(y, c, n).bytes
    ensures WellFormed(x) && WellFormed(y) ==> Canon(x) == Canon(y)
  {
    hide Encode, Decode, Delimited, Consistent, Matches, WellFormed, Canon;
    var a, b := Encode(x, c, m).bytes, Encode(y, c, n).bytes;
    assert a[0..|a|] == a && b[0..|b|] == b && a + b[|a|..] == b;
    ViewMatches(c);
    FollowItem(x, c, View(c, {}), m, a, 0);
    FollowItem(y, c, View(c, {}), n, b, 0);
    DecodeAppend(a, b[|a|..], 0, View(c, {}));
    if WellFormed(x) && WellFormed(y) {
      WholeInput(x, c, m);
      WholeInput(y, c, n);
    }
  }

  // ----- The empty name -----

  /** No strict prefix is accepted. */
  predicate Uncuttable(b: seq<byte>, d: Table) {
    forall k :: 0 <= k < |b| ==> Decode(b[..k], 0, d).Bad?
  }

  /** The empty name comes first. */
  lemma EmptyFirst(names: seq<Text>)
    requires Ascending(names) && [] in names
    ensures names[0] == []
  {
    var i :| 0 <= i < |names| && names[i] == [];
    assert i > 0 ==> Less(names[0], names[i]);
  }

  /** Written entries that begin with the empty name begin like the end of the list. */
  lemma EmptyNameWritten(p: Props<Item>, c: Context, m: Policy)
    requires [] in p.names && EncodeProps(p.names, p.values, c, m).Wrote?
    ensures var b := EncodeProps(p.names, p.values, c, m).bytes; b != [] && b[0] == 1
  {
    hide Encode;
    EmptyFirst(p.names);
  }

  lemma ArrayWritten(x: Item, c: Context, m: Policy)
    requires x.Array? && x.dense == [] && New(x, c, m) && Encode(x, c, m).Wrote?
    ensures var named := EncodeProps(x.assoc.names, x.assoc.values, AddObject(c, x), m);
      named.Wrote? && Encode(x, c, m).bytes == [ARRAY] + [1] + named.bytes + [1]
  {
    hide EncodeProps, LookupRaises, FirstEqual, Small, Extends;
    var c1 := AddObject(c, x);
    var named := EncodeProps(x.assoc.names, x.assoc.values, c1, m);
    assert EncodeArray(x, c1, m).Wrote?;
    assert EncodeSeq(x.dense, named.ctx, m) == Put1([], named.ctx);
    assert EncodeArray(x, c1, m).bytes == LengthHeader(0) + named.bytes + ([1] + []);
    assert LengthHeader(0) == [1];
    assert [ARRAY] + ([1] + named.bytes + ([1] + [])) == [ARRAY] + [1] + named.bytes + [1];
  }

  lemma ArrayCut(s: seq<byte>, d: Table)
    requires s == [ARRAY, 1, 1]
    ensures Decode(s, 0, d).Ok?
  {
    hide U29.Read, DecodeString, Put;
    ReadSmall(s, 1, 1);
    var c := AddObject(d, Open(ARRAY));
    EndOfProps(EMPTY, c, s, 2);
    assert DecodeProps(s, 2, c, NO_PROPS) == Ok(NO_PROPS, 3, c);
    assert DecodeSeq(0, s, 3, c, []) == Ok([], 3, c);
    assert DecodeArray(0, s, 2, d).Ok?;
    assert Decode(s, 0, d) == DecodeBody(ARRAY, 1, s, 2, d) == DecodeArray(0, s, 2, d);
  }

  /**
    An empty associative key ends the list: a new array without dense items, the keys inside
    it aside, cannot be cut short exactly if it has no entry under the empty key.
   */
  lemma ArrayUncuttableIff(x: Item, c: Context, d: Table, m: Policy)
    requires x.Array? && x.dense == [] && DelimitedSeq(x.assoc.values) && New(x, c, m)
    requires Consistent(c, m) && Matches(c, d) && Encode(x, c, m).Wrote? && Encode(x, c, m).exact
    ensures Uncuttable(Encode(x, c, m).bytes, d) <==> [] !in x.assoc.names
  {
    hide Encode, Decode, EncodeProps, DelimitedSeq, Consistent, Matches, New;
    var b := Encode(x, c, m).bytes;
    if [] in x.assoc.names {
      ArrayWritten(x, c, m);
      EmptyNameWritten(x.assoc, AddObject(c, x), m);
      assert b[..3] == [ARRAY, 1, 1];
      ArrayCut(b[..3], d);
      assert 3 < |b|;
    } else {
      NothingDelimited();
      assert Delimited(x);
      forall k | 0 <= k < |b| ensures Decode(b[..k], 0, d).Bad? { TruncationFails(x, c, d, m, k); }
    }
  }

  lemma NothingDelimited()
    ensures DelimitedSeq([])
  {
  }

  lemma ObjectWritten(x: Item, c: Context, m: Policy)
    requires x.Object? && New(x, c, m) && Encode(x, c, m).Wrote? && Encode(x, c, m).exact
    ensures var r := EncodeObject(x, AddObject(c, x), m);
      r.Wrote? && r.exact && Encode(x, c, m).bytes == [OBJECT] + r.bytes
  {
    hide EncodeObject, LookupRaises, FirstEqual, Small, Extends;
  }

  /** The first part of a dynamic object and the end of a list make an object. */
  lemma ObjectCut(x: Item, c: Context, d: Table, m: Policy, s: seq<byte>)
    requires x.Object? && x.traits.dynamic && New(x, c, m) && Consistent(c, m) && Matches(c, d)
    requires |Unique(x.traits.attributes)| < 0x100_0000 && DelimitedPick(Unique(x.traits.attributes), x.sealed)
    requires var head := EncodeTraits(x.traits, c, m);
      head.Wrote? && head.exact
      && var sealed := EncodePick(Unique(x.traits.attributes), x.sealed, AddObject(head.ctx, x), m);
         sealed.Wrote? && sealed.exact && s == [OBJECT] + head.bytes + sealed.bytes + [1]
    ensures Decode(s, 0, d).Ok?
  {
    hide EncodeTraits, DecodeTraits, EncodePick, EncodeProps, DecodeSealed, U29.Read, New, DelimitedPick, Consistent,
         Matches, AddObject, Close, Unique, Extends, DecodeString;
    var names := Unique(x.traits.attributes);
    TraitsIgnoreObject(x.traits, c, x, m);
    var head := EncodeTraits(x.traits, c, m);
    var c2 := AddObject(head.ctx, x);
    var sealed := EncodePick(names, x.sealed, c2, m);
    assert s[0..|s|] == s && s[0] == OBJECT;
    assert At(s, 0, s) by { assert s[0..0 + |s|] == s; }
    AtSplit3(s, 0, [OBJECT] + head.bytes, sealed.bytes, [1]);
    AtSplit(s, 0, [OBJECT], head.bytes);
    FollowTraits(x.traits, c, d, m, s, 1);
    var h := U29.Read(s, 1);
    var t := DecodeTraits(h.value, s, h.next, d);
    RegisteredConsistent(x, c, m);
    TraitsKeep(x.traits, AddObject(c, x), m);
    MatchesAdd(head.ctx, t.ctx, x, Open(OBJECT));
    var d2 := AddObject(t.ctx, Open(OBJECT));
    FollowPick(names, x.sealed, c2, d2, m, s, t.next, NO_PROPS);
    var y := DecodeSealed(names, s, t.next, d2, NO_PROPS);
    EndOfProps(c2, y.ctx, s, y.next);
    assert DecodeProps(s, y.next, y.ctx, NO_PROPS).Ok?;
    assert DecodeObject(h.value, s, h.next, d).Ok?;
    assert Decode(s, 0, d) == DecodeBody(OBJECT, h.value, s, h.next, d) == DecodeObject(h.value, s, h.next, d);
  }

  lemma ObjectCutShort(x: Item, c: Context, d: Table, m: Policy)
    requires x.Object? && x.traits.dynamic && New(x, c, m) && Consistent(c, m) && Matches(c, d)
    requires |Unique(x.traits.attributes)| < 0x100_0000 && DelimitedPick(Unique(x.traits.attributes), x.sealed)
    requires DelimitedSeq(x.dyn.values) && Encode(x, c, m).Wrote? && Encode(x, c, m).exact && [] in x.dyn.names
    ensures !Uncuttable(Encode(x, c, m).bytes, d)
  {
    hide Encode, Decode, EncodeObject, EncodeTraits, EncodePick, EncodeProps, DelimitedSeq, DelimitedPick, Consistent,
         Matches, New, Unique, AddObject;
    var b := Encode(x, c, m).bytes;
    ObjectWritten(x, c, m);
    var r := EncodeObject(x, AddObject(c, x), m);
    assert r.bytes[0..|r.bytes|] == r.bytes;
    ObjectParts(x, c, m, r.bytes, 0);
    var head := EncodeTraits(x.traits, c, m);
    var sealed := EncodePick(Unique(x.traits.attributes), x.sealed, AddObject(head.ctx, x), m);
    EmptyNameWritten(x.dyn, sealed.ctx, m);
    var dyn := EncodeProps(x.dyn.names, x.dyn.values, sealed.ctx, m);
    var k := 1 + |head.bytes| + |sealed.bytes| + 1;
    PartsJoined(r.bytes, head.bytes, sealed.bytes, dyn.bytes + [1]);
    assert b[..k] == [OBJECT] + head.bytes + sealed.bytes + [1];
    ObjectCut(x, c, d, m, b[..k]);
  }

  /** So does an empty dynamic name: a new dynamic object cannot be cut short exactly if it has none. */
  lemma ObjectUncuttableIff(x: Item, c: Context, d: Table, m: Policy)
    requires x.Object? && x.traits.dynamic && New(x, c, m) && Consistent(c, m) && Matches(c, d)
    requires |Unique(x.traits.attributes)| < 0x100_0000 && DelimitedPick(Unique(x.traits.attributes), x.sealed)
    requires DelimitedSeq(x.dyn.values) && Encode(x, c, m).Wrote? && Encode(x, c, m).exact
    ensures Uncuttable(Encode(x, c, m).bytes, d) <==> [] !in x.dyn.names
  {
    hide Encode, Decode, DelimitedSeq, DelimitedPick, Consistent, Matches, New, Unique;
    var b := Encode(x, c, m).bytes;
    if [] in x.dyn.names {
      ObjectCutShort(x, c, d, m);
    } else {
      assert Delimited(x);
      forall k | 0 <= k < |b| ensures Decode(b[..k], 0, d).Bad? { TruncationFails(x, c, d, m, k); }
    }
  }

  lemma PartsJoined(s: seq<byte>, a: seq<byte>, b: seq<byte>, e: seq<byte>)
    requires At(s, 0, a) && At(s, |a|, b) && At(s, |a| + |b|, e) && |s| == |a| + |b| + |e|
    ensures s == a + b + e
  {
    assert s == s[..|a|] + s[|a|..|a| + |b|] + s[|a| + |b|..];
  }
}
