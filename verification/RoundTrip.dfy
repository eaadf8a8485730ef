/** Decoding what was encoded: canonical values, exact byte counts, tables in lockstep. */
module RoundTrip {
  import opened Words
  import opened Names
  import opened Items
  import opened Encoder
  import opened Decoder
  import opened Invariant
  import opened Equality
  import opened Lockstep
  import U29

  // ----- Items without children, and references -----

  lemma RoundTripSimple(x: Item, c: Context, m: Policy, open: set<nat>, s: seq<byte>, p: nat)
    requires WellFormed(x) && !Tabled(x)
    requires Encode(x, c, m).Wrote? && Encode(x, c, m).exact && At(s, p, Encode(x, c, m).bytes)
    ensures var r := Encode(x, c, m);
      Decode(s, p, View(c, open)) == Ok(x, p + |r.bytes|, View(r.ctx, open))
  {
    if x.Str? {
      RoundTripText(x.text, c, m, open, s, p);
    } else if x.Integer? {
      RoundTripInteger(x.value, c, m, open, s, p);
    } else {
      hide U29.Write, U29.Read, DecodeString, EncodeString, View, Depth, IntegerBytes, EncodeBody, DecodeBody;
      var b := Encode(x, c, m).bytes;
      assert s[p..p + |b|][0] == s[p];
    }
  }

  lemma RoundTripInteger(v: int, c: Context, m: Policy, open: set<nat>, s: seq<byte>, p: nat)
    requires U29.MIN <= v <= U29.MAX && At(s, p, Encode(Integer(v), c, m).bytes)
    ensures var r := Encode(Integer(v), c, m);
      Decode(s, p, View(c, open)) == Ok(Integer(v), p + |r.bytes|, View(r.ctx, open))
  {
    hide U29.Write, U29.Read, View, EncodeBody, DecodeBody, Extends, ObjectIndex;
    assert Encode(Integer(v), c, m).bytes == [INTEGER] + U29.Write(v);
    AtSplit(s, p, [INTEGER], U29.Write(v));
    assert s[p] == s[p..p + 1][0] == INTEGER;
    U29.RoundTrip(s, p + 1, v);
  }

  lemma RoundTripText(t: Text, c: Context, m: Policy, open: set<nat>, s: seq<byte>, p: nat)
    requires Encode(Str(t), c, m).Wrote? && Encode(Str(t), c, m).exact && At(s, p, Encode(Str(t), c, m).bytes)
    ensures var r := Encode(Str(t), c, m);
      Decode(s, p, View(c, open)) == Ok(Str(t), p + |r.bytes|, View(r.ctx, open))
  {
    hide U29.Read, EncodeString, DecodeString, View;
    AtSplit(s, p, [STRING], EncodeString(t, c, m).bytes);
    assert s[p] == s[p..p + 1][0] == STRING;
    RoundTripString(t, c, m, open, s, p + 1);
  }

  /** On a finite tree no item equals a container that is still being written around it. */
  lemma NeverAnOpenAncestor(x: Item, c: Context, m: Policy, open: set<nat>)
    requires OpenAbove(c, open, Depth(x)) && ObjectIndex(c, x, m) < |c.objects|
    ensures ObjectIndex(c, x, m) !in open
  {
    EqDepth(c.objects[ObjectIndex(c, x, m)], x);
  }

  /** A known item is written as a reference. */
  lemma EncodeKnown(x: Item, c: Context, m: Policy)
    requires Tabled(x) && ObjectIndex(c, x, m) < |c.objects| && Encode(x, c, m).Wrote?
    ensures var i := ObjectIndex(c, x, m); Encode(x, c, m) == Wrote([Marker(x), U8(2 * i)], c, i < 64)
  {
    hide EncodeBody, ObjectIndex, Marker, Small, Extends;
  }

  /** And read as what the reference resolves to. */
  lemma DecodeKnown(x: Item, i: nat, d: Table, s: seq<byte>, p: nat)
    requires Tabled(x) && i < 64 && At(s, p, [Marker(x), U8(2 * i)]) && Resolve(d, i, Marker(x)).Some?
    ensures Decode(s, p, d) == Ok(Resolve(d, i, Marker(x)).value, p + 2, d)
  {
    hide U29.Read, Resolve, DecodeBody, DecodeSimple, Settles;
    assert [Marker(x), U8(2 * i)] == [Marker(x)] + [U8(2 * i)];
    AtSplit(s, p, [Marker(x)], [U8(2 * i)]);
    assert s[p] == s[p..p + 1][0] == Marker(x);
    ReadSmall(s, p + 1, 2 * i);
  }

  lemma RoundTripReference(x: Item, c: Context, m: Policy, open: set<nat>, s: seq<byte>, p: nat)
    requires WellFormed(x) && Tabled(x) && OpenAbove(c, open, Depth(x))
    requires ObjectIndex(c, x, m) < |c.objects|
    requires Encode(x, c, m).Wrote? && Encode(x, c, m).exact && At(s, p, Encode(x, c, m).bytes)
    ensures Decode(s, p, View(c, open)) == Ok(Canon(x), p + 2, View(c, open)) && Encode(x, c, m).ctx == c
  {
    hide Encode, Decode, Canon, WellFormed, Depth, Eq, ObjectIndex, View, Resolve, Marker;
    EncodeKnown(x, c, m);
    ResolvesToCanon(x, c, m, open);
    DecodeKnown(x, ObjectIndex(c, x, m), View(c, open), s, p);
  }

  lemma ResolvesToCanon(x: Item, c: Context, m: Policy, open: set<nat>)
    requires WellFormed(x) && Tabled(x) && OpenAbove(c, open, Depth(x))
    requires ObjectIndex(c, x, m) < |c.objects|
    ensures Resolve(View(c, open), ObjectIndex(c, x, m), Marker(x)) == Some(Canon(x))
  {
    hide Canon, WellFormed, Depth;
    var i := ObjectIndex(c, x, m);
    NeverAnOpenAncestor(x, c, m, open);
    EqCanon(c.objects[i], x);
    CanonMarker(c.objects[i]);
    assert View(c, open).objects[i] == Done(Canon(x));
  }

  lemma RoundTripData(x: Item, c: Context, m: Policy, open: set<nat>, s: seq<byte>, p: nat)
    requires WellFormed(x) && x.Data? && |c.objects| !in open
    requires At(s, p, EncodeBody(x, AddObject(c, x), m).bytes)
    ensures var r := EncodeBody(x, AddObject(c, x), m);
      var h := U29.Read(s, p);
      h.Got? && h.value % 2 == 1
      && DecodeData(Marker(x), h.value / 2, s, h.next, View(c, open)) == Ok(Canon(x), p + |r.bytes|, View(r.ctx, open))
  {
    hide U29.Write, U29.Read, U29.Scan, View, LengthHeader;
    ViewAddDone(c, x, open);
    AtSplit(s, p, LengthHeader(|x.bytes|), x.bytes);
    ReadLength(s, p, |x.bytes|);
  }

  lemma RoundTripNumbers(x: Item, c: Context, m: Policy, open: set<nat>, s: seq<byte>, p: nat)
    requires WellFormed(x) && x.Numbers? && |c.objects| !in open
    requires At(s, p, EncodeBody(x, AddObject(c, x), m).bytes)
    ensures var r := EncodeBody(x, AddObject(c, x), m);
      var h := U29.Read(s, p);
      h.Got? && h.value % 2 == 1
      && DecodeNumbers(Marker(x), h.value / 2, s, h.next, View(c, open))
         == Ok(Canon(x), p + |r.bytes|, View(r.ctx, open))
  {
    hide U29.Write, U29.Read, U29.Scan, View, WordBytes, ReadWords, LengthHeader;
    ViewAddDone(c, x, open);
    var q := p + |LengthHeader(|x.numbers|)|;
    AtSplit3(s, p, LengthHeader(|x.numbers|), Flag(x.fixed), WordBytes(x.numbers));
    ReadFlag(x.fixed, s, q);
    ReadLength(s, p, |x.numbers|);
    RoundTripWords(x.numbers, s, q + 1);
  }

  // ----- Lists -----

  lemma {:induction false} RoundTripSeq(xs: seq<Item>, c: Context, m: Policy, open: set<nat>, d: nat, s: seq<byte>,
                                        p: nat, acc: seq<Item>)
    requires WellFormedSeq(xs) && Ready(c, open, d, m) && DepthSeq(xs) <= d
    requires EncodeSeq(xs, c, m).Wrote? && EncodeSeq(xs, c, m).exact && At(s, p, EncodeSeq(xs, c, m).bytes)
    ensures var r := EncodeSeq(xs, c, m);
      DecodeSeq(|xs|, s, p, View(c, open), acc) == Ok(acc + CanonSeq(xs), p + |r.bytes|, View(r.ctx, open))
    decreases xs
  {
    hide Encode, Decode, Canon, View, WellFormed, Depth, OpenAbove, Consistent, At, Extends;
    if xs == [] {
      assert acc + CanonSeq(xs) == acc;
    } else {
      var first := Encode(xs[0], c, m);
      var rest := EncodeSeq(xs[1..], first.ctx, m);
      AtSplit(s, p, first.bytes, rest.bytes);
      NextReady(xs[0], c, m, open, d);
      RoundTripItem(xs[0], c, m, open, s, p);
      RoundTripSeq(xs[1..], first.ctx, m, open, d, s, p + |first.bytes|, acc + [Canon(xs[0])]);
      assert acc + [Canon(xs[0])] + CanonSeq(xs[1..]) == acc + CanonSeq(xs);
    }
  }

  /** A context stays ready from one sibling to the next, and is ready for anything less deep. */
  lemma NextReady(x: Item, c: Context, m: Policy, open: set<nat>, d: nat)
    requires Ready(c, open, d, m) && Encode(x, c, m).Wrote? && Depth(x) <= d
    ensures Ready(Encode(x, c, m).ctx, open, d, m) && Ready(c, open, Depth(x), m)
  {
    EncodeKeeps(x, c, m);
    OpenStaysAbove(c, Encode(x, c, m).ctx, open, d);
  }

  lemma NextReadyString(t: Text, c: Context, m: Policy, open: set<nat>, d: nat)
    requires Ready(c, open, d, m) && EncodeString(t, c, m).Wrote?
    ensures Ready(EncodeString(t, c, m).ctx, open, d, m)
  {
  }

  /** Named entries and the empty name that ends them. */
  lemma {:induction false} RoundTripProps(names: seq<Text>, values: seq<Item>, c: Context, m: Policy, open: set<nat>,
                                          d: nat, s: seq<byte>, p: nat, acc: Props<Item>)
    requires |names| == |values| && NamesFit(names) && WellFormedSeq(values) && Ascending(acc.names + names)
    requires Ready(c, open, d, m) && DepthSeq(values) <= d
    requires EncodeProps(names, values, c, m).Wrote? && EncodeProps(names, values, c, m).exact
    requires At(s, p, EncodeProps(names, values, c, m).bytes + [1])
    ensures var r := EncodeProps(names, values, c, m);
      DecodeProps(s, p, View(c, open), acc) ==
        Ok(Props(acc.names + names, acc.values + CanonSeq(values)), p + |r.bytes| + 1, View(r.ctx, open))
    decreases values
  {
    hide Encode, EncodeString, DecodeString, Decode, Canon, View, WellFormed, Depth, OpenAbove, Consistent, At,
         Extends, U29.Read, Put, Insert, Rank, Less, Small, Ascending;
    if names == [] {
      assert [] + [1] == [1];
      RoundTripEnd(c, open, s, p);
      assert acc.names + names == acc.names && acc.values + CanonSeq(values) == acc.values;
    } else {
      var name := EncodeString(names[0], c, m);
      var value := Encode(values[0], name.ctx, m);
      var rest := EncodeProps(names[1..], values[1..], value.ctx, m);
      assert name.bytes + value.bytes + rest.bytes + [1] == name.bytes + value.bytes + (rest.bytes + [1]);
      AtSplit3(s, p, name.bytes, value.bytes, rest.bytes + [1]);
      RoundTripString(names[0], c, m, open, s, p);
      NextReadyString(names[0], c, m, open, d);
      NextReady(values[0], name.ctx, m, open, d);
      RoundTripItem(values[0], name.ctx, m, open, s, p + |name.bytes|);
      var acc' := AppendEntry(acc, names, Canon(values[0]));
      RoundTripProps(names[1..], values[1..], value.ctx, m, open, d, s, p + |name.bytes| + |value.bytes|, acc');
      assert acc'.values + CanonSeq(values[1..]) == acc.values + CanonSeq(values);
    }
  }

  /** A whole map, from an empty one. */
  lemma {:induction false} RoundTripMap(q: Props<Item>, c: Context, m: Policy, open: set<nat>, d: nat, s: seq<byte>,
                                        p: nat)
    requires NamesFit(q.names) && WellFormedSeq(q.values) && Ready(c, open, d, m) && DepthSeq(q.values) <= d
    requires var r := EncodeProps(q.names, q.values, c, m); r.Wrote? && r.exact && At(s, p, r.bytes + [1])
    ensures var r := EncodeProps(q.names, q.values, c, m);
      DecodeProps(s, p, View(c, open), NO_PROPS) == Ok(CanonProps(q), p + |r.bytes| + 1, View(r.ctx, open))
    decreases q
  {
    hide EncodeProps, DecodeProps, CanonSeq, WellFormedSeq, At, Ready, View;
    assert [] + q.names == q.names && [] + CanonSeq(q.values) == CanonSeq(q.values);
    RoundTripProps(q.names, q.values, c, m, open, d, s, p, NO_PROPS);
  }

  lemma RoundTripEnd(c: Context, open: set<nat>, s: seq<byte>, p: nat)
    requires At(s, p, [1])
    ensures DecodeString(s, p, View(c, open)) == Ok([], p + 1, View(c, open))
  {
  }

  /** The next entry in order goes to the end of the map. */
  lemma AppendEntry(acc: Props<Item>, names: seq<Text>, v: Item) returns (r: Props<Item>)
    requires names != [] && Ascending(acc.names + names)
    ensures r == Put(acc, names[0], v) == Props(acc.names + [names[0]], acc.values + [v])
    ensures r.names + names[1..] == acc.names + names
  {
    var all := acc.names + names;
    forall i | 0 <= i < |acc.names| ensures Less(acc.names[i], names[0]) {
      assert all[i] == acc.names[i] && all[|acc.names|] == names[0];
    }
    PutAtEnd(acc, names[0], v);
    r := Put(acc, names[0], v);
    assert r.names + names[1..] == all;
  }

  /** What `RoundTripPick` asks of the sealed properties under `names`. */
  predicate Pickable(names: seq<Text>, p: Props<Item>, d: nat) {
    forall i :: 0 <= i < |names| ==>
      Holds(p.names, names[i]) && var x := p.values[Rank(p.names, names[i])]; WellFormed(x) && Depth(x) <= d
  }

  lemma {:induction false} RoundTripPick(names: seq<Text>, q: Props<Item>, c: Context, m: Policy, open: set<nat>,
                                         d: nat, s: seq<byte>, p: nat, acc: Props<Item>)
    requires Pickable(names, q, d) && Ascending(acc.names + names) && Ready(c, open, d, m)
    requires var r := EncodePick(names, q, c, m); r.Wrote? && r.exact && At(s, p, r.bytes)
    ensures var r := EncodePick(names, q, c, m);
      DecodeSealed(names, s, p, View(c, open), acc) ==
        Ok(Props(acc.names + names, acc.values + CanonPick(names, q)), p + |r.bytes|, View(r.ctx, open))
    decreases q, |names|
  {
    hide Encode, Decode, Canon, View, WellFormed, Depth, OpenAbove, Consistent, At, Extends, Ascending, Put, Insert,
         Less, Small, Rank;
    if names == [] {
      assert acc.names + names == acc.names && acc.values + CanonPick(names, q) == acc.values;
    } else {
      assert Holds(q.names, names[0]);
      var x := q.values[Rank(q.names, names[0])];
      var first := Encode(x, c, m);
      var rest := EncodePick(names[1..], q, first.ctx, m);
      AtSplit(s, p, first.bytes, rest.bytes);
      NextReady(x, c, m, open, d);
      RoundTripItem(x, c, m, open, s, p);
      var acc' := AppendEntry(acc, names, Canon(x));
      RoundTripPick(names[1..], q, first.ctx, m, open, d, s, p + |first.bytes|, acc');
      assert CanonPick(names, q) == [Canon(x)] + CanonPick(names[1..], q);
      assert acc'.values + CanonPick(names[1..], q) == acc.values + CanonPick(names, q);
    }
  }

  // ----- Containers -----

  lemma RegisteredConsistent(x: Item, c: Context, m: Policy)
    requires Consistent(c, m) && Tabled(x) && New(x, c, m)
    ensures Consistent(AddObject(c, x), m)
  {
    hide Eq, Raises, FirstEqual;
  }

  /** What is ready for a container is, with the container registered and open, ready for its children. */
  lemma ChildrenReady(x: Item, c: Context, m: Policy, open: set<nat>, d: nat)
    requires Ready(c, open, Depth(x), m) && Tabled(x) && New(x, c, m) && Depth(x) == d + 1
    ensures Ready(AddObject(c, x), open + {|c.objects|}, d, m) && |c.objects| !in open
  {
    hide Depth, Eq, Raises, FirstEqual;
    OpenRegistered(x, c, open, d);
    RegisteredConsistent(x, c, m);
  }

  lemma Finished(x: Item, c: Context, c': Context, open: set<nat>)
    requires |c.objects| !in open && Extends(AddObject(c, x), c')
    ensures |c.objects| < |c'.objects|
    ensures Close(View(c', open + {|c.objects|}), |c.objects|, Canon(x)) == View(c', open)
  {
  }

  lemma {:induction false} RoundTripArray(x: Item, c: Context, m: Policy, open: set<nat>, s: seq<byte>, p: nat)
    requires x.Array? && WellFormed(x) && Ready(c, open, Depth(x), m) && New(x, c, m)
    requires var r := EncodeArray(x, AddObject(c, x), m); r.Wrote? && r.exact && At(s, p, r.bytes)
    ensures var r := EncodeArray(x, AddObject(c, x), m);
      var h := U29.Read(s, p);
      h.Got? && h.value % 2 == 1
      && DecodeArray(h.value / 2, s, h.next, View(c, open)) == Ok(Canon(x), p + |r.bytes|, View(r.ctx, open))
    decreases x, 0
  {
    hide Encode, EncodeSeq, EncodeProps, DecodeSeq, DecodeProps, View, At, Extends, U29.Read, U29.Write, LengthHeader,
         ObjectIndex, WellFormedSeq, OpenAbove, Consistent, CanonSeq, Close, AddObject;
    var d, n := Depth(x) - 1, |c.objects|;
    var c1, open1 := AddObject(c, x), open + {n};
    var named := EncodeProps(x.assoc.names, x.assoc.values, c1, m);
    var dense := EncodeSeq(x.dense, named.ctx, m);
    var head := LengthHeader(|x.dense|);
    assert head + named.bytes + ([1] + dense.bytes) == head + (named.bytes + [1]) + dense.bytes;
    AtSplit3(s, p, head, named.bytes + [1], dense.bytes);
    ReadLength(s, p, |x.dense|);
    ChildrenReady(x, c, m, open, d);
    ViewAddOpen(c, x, open);
    RoundTripMap(x.assoc, c1, m, open1, d, s, p + |head|);
    PropsReady(x.assoc.names, x.assoc.values, c1, m, open1, d);
    RoundTripSeq(x.dense, named.ctx, m, open1, d, s, p + |head| + |named.bytes| + 1, []);
    assert [] + CanonSeq(x.dense) == CanonSeq(x.dense);
    ExtendsTransitive(c1, named.ctx, dense.ctx);
    Finished(x, c, dense.ctx, open);
  }

  lemma ExtendsTransitive(a: Context, b: Context, c: Context)
    requires Extends(a, b) && Extends(b, c)
    ensures Extends(a, c)
  {
  }

  lemma PropsReady(names: seq<Text>, values: seq<Item>, c: Context, m: Policy, open: set<nat>, d: nat)
    requires |names| == |values| && Ready(c, open, d, m)
    ensures EncodeProps(names, values, c, m).Wrote? ==> Ready(EncodeProps(names, values, c, m).ctx, open, d, m)
  {
    PropsKeep(names, values, c, m);
    if EncodeProps(names, values, c, m).Wrote? { OpenStaysAbove(c, EncodeProps(names, values, c, m).ctx, open, d); }
  }

  lemma {:induction false} RoundTripVector(x: Item, c: Context, m: Policy, open: set<nat>, s: seq<byte>, p: nat)
    requires x.Vector? && WellFormed(x) && Ready(c, open, Depth(x), m) && New(x, c, m)
    requires var r := EncodeVector(x, AddObject(c, x), m); r.Wrote? && r.exact && At(s, p, r.bytes)
    ensures var r := EncodeVector(x, AddObject(c, x), m);
      var h := U29.Read(s, p);
      h.Got? && h.value % 2 == 1
      && DecodeVector(h.value / 2, s, h.next, View(c, open)) == Ok(Canon(x), p + |r.bytes|, View(r.ctx, open))
    decreases x, 0
  {
    hide Encode, EncodeSeq, EncodeString, DecodeSeq, DecodeString, View, At, Extends, U29.Read, U29.Write,
         LengthHeader, ObjectIndex, WellFormedSeq, OpenAbove, Consistent, CanonSeq, Close, AddObject, Settles, Small;
    var d, n := Depth(x) - 1, |c.objects|;
    var c1, open1 := AddObject(c, x), open + {n};
    var name := EncodeString(x.typeName, c, m);
    StringIgnoresObject(x.typeName, c, x, m);
    var c2 := AddObject(name.ctx, x);
    var values := EncodeSeq(x.values, c2, m);
    var head := LengthHeader(|x.values|);
    var q := p + |head|;
    assert head + Flag(x.fixed) + name.bytes + values.bytes == head + (Flag(x.fixed) + name.bytes) + values.bytes;
    AtSplit3(s, p, head, Flag(x.fixed) + name.bytes, values.bytes);
    AtSplit(s, q, Flag(x.fixed), name.bytes);
    ReadFlag(x.fixed, s, q);
    ReadLength(s, p, |x.values|);
    RoundTripString(x.typeName, c, m, open, s, q + 1);
    ChildrenReady(x, c, m, open, d);
    NextReadyString(x.typeName, c1, m, open1, d);
    ViewAddOpen(name.ctx, x, open);
    RoundTripSeq(x.values, c2, m, open1, d, s, q + 1 + |name.bytes|, []);
    assert [] + CanonSeq(x.values) == CanonSeq(x.values);
    Finished(x, name.ctx, values.ctx, open);
  }

  lemma ReadFlag(b: bool, s: seq<byte>, p: nat)
    requires At(s, p, Flag(b))
    ensures p < |s| && (s[p] == 1 <==> b)
  {
  }

  /**
    Where the parts of an object are, and the tables in between, when the object is
    registered after its traits as the decoder does.
   */
  lemma ObjectParts(x: Item, c: Context, m: Policy, s: seq<byte>, p: nat)
    requires x.Object?
    requires var r := EncodeObject(x, AddObject(c, x), m); r.Wrote? && r.exact && At(s, p, r.bytes)
    ensures var r := EncodeObject(x, AddObject(c, x), m);
      var head, before := EncodeTraits(x.traits, c, m), EncodeTraits(x.traits, AddObject(c, x), m);
      && head.Wrote? && head.exact && At(s, p, head.bytes) && head.ctx.objects == c.objects
      && before.Wrote? && before.ctx == AddObject(head.ctx, x)
      && var sealed := EncodePick(Unique(x.traits.attributes), x.sealed, AddObject(head.ctx, x), m);
         var q := p + |head.bytes| + |sealed.bytes|;
         && sealed.Wrote? && sealed.exact && At(s, p + |head.bytes|, sealed.bytes)
         && Extends(AddObject(head.ctx, x), r.ctx)
         && if !x.traits.dynamic then r.ctx == sealed.ctx && p + |r.bytes| == q
            else
              var dyn := EncodeProps(x.dyn.names, x.dyn.values, sealed.ctx, m);
              && dyn.Wrote? && dyn.exact && At(s, q, dyn.bytes + [1])
              && r.ctx == dyn.ctx && p + |r.bytes| == q + |dyn.bytes| + 1
  {
    hide EncodeTraits, EncodePick, EncodeProps, At, Unique, Small;
    var names := Unique(x.traits.attributes);
    var head := EncodeTraits(x.traits, c, m);
    TraitsIgnoreObject(x.traits, c, x, m);
    var sealed := EncodePick(names, x.sealed, AddObject(head.ctx, x), m);
    var tail := if x.traits.dynamic then EncodeProps(x.dyn.names, x.dyn.values, sealed.ctx, m).bytes + [1] else [];
    assert head.bytes + sealed.bytes + [] == head.bytes + sealed.bytes;
    AtSplit3(s, p, head.bytes, sealed.bytes, tail);
  }

  lemma {:induction false} RoundTripObject(x: Item, c: Context, m: Policy, open: set<nat>, s: seq<byte>, p: nat)
    requires x.Object? && WellFormed(x) && Ready(c, open, Depth(x), m) && New(x, c, m)
    requires var r := EncodeObject(x, AddObject(c, x), m); r.Wrote? && r.exact && At(s, p, r.bytes)
    ensures var r := EncodeObject(x, AddObject(c, x), m);
      var h := U29.Read(s, p);
      h.Got? && h.value % 2 == 1
      && DecodeObject(h.value, s, h.next, View(c, open)) == Ok(Canon(x), p + |r.bytes|, View(r.ctx, open))
    decreases x, 0
  {
    hide Encode, EncodeObject, EncodeTraits, DecodeTraits, EncodePick, EncodeProps, DecodeSealed, DecodeProps, View,
         At, Extends, U29.Read, U29.Write, ObjectIndex, WellFormedSeq, OpenAbove, Consistent, CanonSeq, CanonPick,
         Close, AddObject, Unique;
    var d, n := Depth(x) - 1, |c.objects|;
    var c1, open1 := AddObject(c, x), open + {n};
    var names := Unique(x.traits.attributes);
    ObjectParts(x, c, m, s, p);
    var head := EncodeTraits(x.traits, c, m);
    var c2 := AddObject(head.ctx, x);
    var sealed := EncodePick(names, x.sealed, c2, m);
    RoundTripTraits(x.traits, c, m, open, s, p);
    ChildrenReady(x, c, m, open, d);
    TraitsReady(x.traits, c1, m, open1, d);
    ViewAddOpen(head.ctx, x, open);
    SealedPickable(x, d);
    assert [] + names == names && [] + CanonPick(names, x.sealed) == CanonPick(names, x.sealed);
    RoundTripPick(names, x.sealed, c2, m, open1, d, s, p + |head.bytes|, NO_PROPS);
    if x.traits.dynamic {
      PickReady(names, x.sealed, c2, m, open1, d);
      RoundTripMap(x.dyn, sealed.ctx, m, open1, d, s, p + |head.bytes| + |sealed.bytes|);
    }
    Finished(x, head.ctx, EncodeObject(x, c1, m).ctx, open);
  }

  lemma TraitsReady(t: Traits, c: Context, m: Policy, open: set<nat>, d: nat)
    requires Ready(c, open, d, m)
    ensures EncodeTraits(t, c, m).Wrote? ==> Ready(EncodeTraits(t, c, m).ctx, open, d, m)
  {
    TraitsKeep(t, c, m);
    if EncodeTraits(t, c, m).Wrote? { OpenStaysAbove(c, EncodeTraits(t, c, m).ctx, open, d); }
  }

  lemma PickReady(names: seq<Text>, p: Props<Item>, c: Context, m: Policy, open: set<nat>, d: nat)
    requires Ready(c, open, d, m)
    ensures EncodePick(names, p, c, m).Wrote? ==> Ready(EncodePick(names, p, c, m).ctx, open, d, m)
  {
    PickKeeps(names, p, c, m);
    if EncodePick(names, p, c, m).Wrote? { OpenStaysAbove(c, EncodePick(names, p, c, m).ctx, open, d); }
  }

  lemma SealedPickable(x: Item, d: nat)
    requires x.Object? && WellFormed(x) && Depth(x) == d + 1
    ensures Pickable(Unique(x.traits.attributes), x.sealed, d)
  {
    var names := Unique(x.traits.attributes);
    forall i | 0 <= i < |names|
      ensures Holds(x.sealed.names, names[i]) && WellFormed(x.sealed.values[Rank(x.sealed.names, names[i])])
    {
      assert names[i] in x.traits.attributes;
      var j :| 0 <= j < |x.traits.attributes| && x.traits.attributes[j] == names[i];
      assert Holds(x.sealed.names, x.traits.attributes[j]);
    }
  }

  // ----- Items -----

  lemma {:induction false} RoundTripBody(x: Item, c: Context, m: Policy, open: set<nat>, s: seq<byte>, p: nat)
    requires Tabled(x) && WellFormed(x) && Ready(c, open, Depth(x), m) && New(x, c, m)
    requires var r := EncodeBody(x, AddObject(c, x), m); r.Wrote? && r.exact && At(s, p, r.bytes)
    ensures var r := EncodeBody(x, AddObject(c, x), m);
      var h := U29.Read(s, p);
      h.Got? && h.value % 2 == 1
      && DecodeBody(Marker(x), h.value, s, h.next, View(c, open)) == Ok(Canon(x), p + |r.bytes|, View(r.ctx, open))
    decreases x, 1
  {
    hide EncodeArray, EncodeObject, EncodeVector, DecodeArray, DecodeObject, DecodeVector, U29.Read, View, At, Canon,
         WellFormed, Depth;
    if x.Array? {
      RoundTripArray(x, c, m, open, s, p);
    } else if x.Object? {
      RoundTripObject(x, c, m, open, s, p);
    } else if x.Vector? {
      RoundTripVector(x, c, m, open, s, p);
    } else {
      assert |c.objects| !in open;
      if x.Data? { RoundTripData(x, c, m, open, s, p); } else { RoundTripNumbers(x, c, m, open, s, p); }
    }
  }

  /**
    The main theorem. For every well-formed item and every pair of corresponding contexts,
    decoding what `serialize` wrote, wherever it sits in the input, yields the canonical
    form, stops right behind the bytes written, and leaves corresponding contexts again.
   */
  lemma {:induction false} RoundTripItem(x: Item, c: Context, m: Policy, open: set<nat>, s: seq<byte>, p: nat)
    requires WellFormed(x) && Ready(c, open, Depth(x), m)
    requires Encode(x, c, m).Wrote? && Encode(x, c, m).exact && At(s, p, Encode(x, c, m).bytes)
    ensures var r := Encode(x, c, m);
      Decode(s, p, View(c, open)) == Ok(Canon(x), p + |r.bytes|, View(r.ctx, open))
    decreases x, 2
  {
    hide EncodeBody, DecodeBody, U29.Read, View, WellFormed, Depth, ObjectIndex, OpenAbove, Consistent, DecodeSimple,
         EncodeString;
    if !Tabled(x) {
      RoundTripSimple(x, c, m, open, s, p);
    } else if ObjectIndex(c, x, m) < |c.objects| {
      RoundTripReference(x, c, m, open, s, p);
    } else {
      var body := EncodeBody(x, AddObject(c, x), m);
      AtSplit(s, p, [Marker(x)], body.bytes);
      assert s[p] == s[p..p + 1][0] == Marker(x);
      RoundTripBody(x, c, m, open, s, p + 1);
    }
  }
}
