/** `AmfDictionaryHash` serializes a key with a context of its own: when equal keys give equal bytes. */
module Hashing {
  import opened Words
  import opened Names
  import opened Items
  import opened Encoder
  import opened Equality
  import opened Lockstep
  import opened RoundTrip
  import opened Congruence

  // ----- The other zero -----

  function FlipSign(m: Octets): Octets {
    m[7 := U8(m[7] as int + 128)]
  }

  /** Changes the sign of every zero. */
  function Flip(x: Item): Item
    decreases x
  {
    match x
    case Double(m, i) => if IsZero(m) then Double(FlipSign(m), i) else x
    case Array(p, d) => Array(Props(p.names, FlipSeq(p.values)), FlipSeq(d))
    case Object(t, s, d, i) =>
      if t.externalizable then x
      else Object(t, Props(s.names, FlipSeq(s.values)), Props(d.names, FlipSeq(d.values)), i)
    case Vector(t, f, v) => Vector(t, f, FlipSeq(v))
    case _ => x
  }

  function FlipSeq(xs: seq<Item>): (r: seq<Item>)
    ensures |r| == |xs|
    decreases xs
  {
    seq(|xs|, i requires 0 <= i < |xs| => Flip(xs[i]))
  }

  /** Equality does not see it. */
  lemma {:induction false} SeenFlip(x: Item)
    ensures Seen(Flip(x)) == Seen(x)
    decreases x
  {
    match x
    case Double(m, _) => if IsZero(m) { FlipZero(m); }
    case Array(p, d) => SeenFlipSeq(p.values); SeenFlipSeq(d);
    case Object(_, s, d, _) => SeenFlipSeq(s.values); SeenFlipSeq(d.values);
    case Vector(_, _, v) => SeenFlipSeq(v);
    case _ =>
  }

  lemma {:induction false} SeenFlipSeq(xs: seq<Item>)
    ensures SeenSeq(FlipSeq(xs)) == SeenSeq(xs)
    decreases xs
  {
    forall i | 0 <= i < |xs| ensures Seen(Flip(xs[i])) == Seen(xs[i]) { SeenFlip(xs[i]); }
  }

  lemma EqFlip(x: Item)
    ensures Eq(x, Flip(x))
  {
    SeenFlip(x);
    EqIffSeen(x, Flip(x));
  }

  lemma EqFlipSeq(xs: seq<Item>)
    ensures EqSeq(xs, FlipSeq(xs))
  {
    SeenFlipSeq(xs);
    EqIffSeenSeq(xs, FlipSeq(xs));
  }

  lemma FlipZero(m: Octets)
    requires IsZero(m)
    ensures IsZero(FlipSign(m)) && FlipSign(m) != m && !IsNaN(m)
    ensures !IsNaN(FlipSign(m))
  {
    var n := FlipSign(m);
    assert n[..7] == m[..7] && n[7] != m[7];
  }

  /** Equal items write zeros in the same places. */
  lemma {:induction false} EqNoZeroSent(a: Item, b: Item)
    requires Eq(a, b) && NoZeroSent(a)
    ensures NoZeroSent(b)
    decreases a
  {
    match a
    case Array(p, d) => EqNoZeroSentSeq(p.values, b.assoc.values); EqNoZeroSentSeq(d, b.dense);
    case Object(t, s, d, _) =>
      EqObjects(a, b);
      EqNoZeroSentPick(Unique(t.attributes), s, b.sealed);
      if t.dynamic { EqNoZeroSentSeq(d.values, b.dyn.values); }
    case Vector(_, _, v) => EqNoZeroSentSeq(v, b.values);
    case _ =>
  }

  lemma {:induction false} EqNoZeroSentSeq(xs: seq<Item>, ys: seq<Item>)
    requires EqSeq(xs, ys) && NoZeroSentSeq(xs)
    ensures NoZeroSentSeq(ys)
    decreases xs
  {
    forall i | 0 <= i < |ys| ensures NoZeroSent(ys[i]) { EqNoZeroSent(xs[i], ys[i]); }
  }

  lemma {:induction false} EqNoZeroSentPick(names: seq<Text>, p: Props<Item>, q: Props<Item>)
    requires EqProps(p, q) && NoZeroSentPick(names, p)
    ensures NoZeroSentPick(names, q)
    decreases p
  {
    forall i | 0 <= i < |names| && Holds(q.names, names[i]) ensures NoZeroSent(q.values[Rank(q.names, names[i])]) {
      EqNoZeroSent(p.values[Rank(p.names, names[i])], q.values[Rank(q.names, names[i])]);
    }
  }

  // ----- A zero that is written shows -----

  /** No zero was written for any item in the table that is not open. */
  predicate Clean(c: Context, open: set<nat>) {
    forall i :: 0 <= i < |c.objects| && i !in open ==> NoZeroSent(c.objects[i])
  }

  /** From clean tables: the flipped item is written alike only if no zero is, and the tables stay clean. */
  predicate Shows(none: bool, a: Out, b: Out, c: Context, open: set<nat>, d: nat) {
    a.Wrote? && b.Wrote? && a.bytes == b.bytes && Clean(c, open) && OpenAbove(c, open, d) ==>
      none && Clean(a.ctx, open) && OpenAbove(a.ctx, open, d)
  }

  lemma BytesSplit(a: seq<byte>, b: seq<byte>, x: seq<byte>, y: seq<byte>)
    requires a + b == x + y && |a| == |x|
    ensures a == x && b == y
  {
    assert a == (a + b)[..|a|] && x == (x + y)[..|a|];
    assert b == (a + b)[|a|..] && y == (x + y)[|a|..];
  }

  /** One after the other. */
  lemma ShowsJoin(e: bool, a: Out, x: Out, f: bool, b: Out, y: Out, c: Context, open: set<nat>, d: nat)
    requires a.Wrote? && b.Wrote? && x.Wrote? && y.Wrote? && |a.bytes| == |x.bytes|
    requires Shows(e, a, x, c, open, d) && Shows(f, b, y, a.ctx, open, d)
    ensures Shows(e && f, Join(a, b), Join(x, y), c, open, d)
  {
    hide Clean, OpenAbove;
    if a.bytes + b.bytes == x.bytes + y.bytes { BytesSplit(a.bytes, b.bytes, x.bytes, y.bytes); }
  }

  /** What has no items in it shows nothing. */
  lemma NothingShows(a: Out, b: Out, c: Context, open: set<nat>, d: nat)
    requires a.Wrote? ==> a.ctx.objects == c.objects
    ensures Shows(true, a, b, c, open, d)
  {
  }

  /** The same for an item and everything in it: a zero is written in full the first time, and then shows. */
  lemma {:induction false} ItemShows(x: Item, c: Context, e: Context, m: Policy, open: set<nat>)
    requires Alike(c, e)
    ensures Shows(NoZeroSent(x), Encode(x, c, m), Encode(Flip(x), e, m), c, open, Depth(x))
    decreases x, 4
  {
    EqFlip(x);
    SameClassOfEqual(x, Flip(x));
    if Tabled(x) {
      TabledShows(x, c, e, m, open);
    } else {
      hide Clean, OpenAbove, EncodeString, EncodeBody, IntegerBytes;
      if x.Double? && IsZero(x.memory) {
        FlipZero(x.memory);
        var n := FlipSign(x.memory);
        if [DOUBLE] + x.memory == [DOUBLE] + n { BytesSplit([DOUBLE], x.memory, [DOUBLE], n); }
      }
    }
  }

  lemma {:induction false} TabledShows(x: Item, c: Context, e: Context, m: Policy, open: set<nat>)
    requires Tabled(x) && Alike(c, e)
    ensures Shows(NoZeroSent(x), Encode(x, c, m), Encode(Flip(x), e, m), c, open, Depth(x))
    decreases x, 3
  {
    var y := Flip(x);
    var a, b := Encode(x, c, m), Encode(y, e, m);
    EqFlip(x);
    SameClassOfEqual(x, y);
    FirstEqualAlike(c.objects, e.objects, x, y);
    if a.Wrote? && b.Wrote? && a.bytes == b.bytes && Clean(c, open) && OpenAbove(c, open, Depth(x)) {
      if New(x, c, m) {
        hide EncodeBody, Flip, Eq, NoZeroSent, Depth, FirstEqual, LookupRaises, Marker;
        NewWritten(x, c, m);
        LookupAlike(x, y, c, e, m);
        NewWritten(y, e, m);
        var a, b := EncodeBody(x, AddObject(c, x), m), EncodeBody(y, AddObject(e, y), m);
        BytesSplit([Marker(x)], a.bytes, [Marker(y)], b.bytes);
        NewShows(x, c, e, m, open);
      } else {
        KnownShows(x, c, m, open);
      }
    }
  }

  lemma NewWritten(x: Item, c: Context, m: Policy)
    requires Tabled(x) && New(x, c, m) && Encode(x, c, m).Wrote?
    ensures var r := EncodeBody(x, AddObject(c, x), m);
      r.Wrote? && Encode(x, c, m).bytes == [Marker(x)] + r.bytes && Encode(x, c, m).ctx == r.ctx
  {
    hide EncodeBody, LookupRaises, ObjectIndex, Marker;
  }

  lemma KnownShows(x: Item, c: Context, m: Policy, open: set<nat>)
    requires Tabled(x) && !New(x, c, m) && Encode(x, c, m).Wrote? && Clean(c, open) && OpenAbove(c, open, Depth(x))
    ensures NoZeroSent(x) && Encode(x, c, m).ctx == c
  {
    hide EncodeBody, NoZeroSent, Depth, Eq, FirstEqual, LookupRaises, Marker;
    var k := ObjectIndex(c, x, m);
    NeverAnOpenAncestor(x, c, m, open);
    EqNoZeroSent(c.objects[k], x);
  }

  lemma RegisteredClean(x: Item, c: Context, open: set<nat>)
    requires Clean(c, open)
    ensures Clean(AddObject(c, x), open + {|c.objects|})
  {
  }

  lemma FinishedClean(x: Item, c: Context, c': Context, open: set<nat>)
    requires Clean(c', open + {|c.objects|}) && AddObject(c, x).objects <= c'.objects && NoZeroSent(x)
    ensures Clean(c', open)
  {
    hide NoZeroSent;
    assert c'.objects[|c.objects|] == x;
  }

  lemma {:induction false} NewShows(x: Item, c: Context, e: Context, m: Policy, open: set<nat>)
    requires Tabled(x) && New(x, c, m) && Alike(c, e)
    requires var r := EncodeBody(x, AddObject(c, x), m); r.Wrote?
    requires EncodeBody(Flip(x), AddObject(e, Flip(x)), m).Wrote?
    requires EncodeBody(x, AddObject(c, x), m).bytes == EncodeBody(Flip(x), AddObject(e, Flip(x)), m).bytes
    requires Clean(c, open) && OpenAbove(c, open, Depth(x))
    ensures NoZeroSent(x)
    ensures var r := EncodeBody(x, AddObject(c, x), m); Clean(r.ctx, open) && OpenAbove(r.ctx, open, Depth(x))
    decreases x, 2
  {
    var y := Flip(x);
    var c1, e1, open1 := AddObject(c, x), AddObject(e, y), open + {|c.objects|};
    EqFlip(x);
    assert Alike(c1, e1);
    var r := EncodeBody(x, c1, m);
    OpenStaysAbove(c, r.ctx, open, Depth(x));
    if x.Array? || x.Object? || x.Vector? {
      hide EncodeBody, Flip, NoZeroSent, Depth, Eq;
      var d := Depth(x) - 1;
      OpenRegistered(x, c, open, d);
      RegisteredClean(x, c, open);
      ContainerShows(x, c1, e1, m, open1, d);
      FinishedClean(x, c, r.ctx, open);
    } else {
      RegisteredClean(x, c, open);
      FinishedClean(x, c, r.ctx, open);
    }
  }

  lemma {:induction false} ContainerShows(x: Item, c: Context, e: Context, m: Policy, open: set<nat>, d: nat)
    requires (x.Array? || x.Object? || x.Vector?) && !External(x) && Depth(x) == d + 1 && Alike(c, e)
    ensures Shows(NoZeroSent(x), EncodeBody(x, c, m), EncodeBody(Flip(x), e, m), c, open, d)
    decreases x, 1
  {
    hide EncodeArray, EncodeObject, EncodeVector, Shows, Depth, NoZeroSent, Alike;
    match x
    case Array(_, _) => ArrayShows(x, c, e, m, open, d);
    case Object(_, _, _, _) => ObjectShows(x, c, e, m, open, d);
    case Vector(_, _, _) => VectorShows(x, c, e, m, open, d);
  }

  lemma {:induction false} ArrayShows(x: Item, c: Context, e: Context, m: Policy, open: set<nat>, d: nat)
    requires x.Array? && Depth(x) == d + 1 && Alike(c, e)
    ensures Shows(NoZeroSent(x), EncodeArray(x, c, m), EncodeArray(Flip(x), e, m), c, open, d)
    decreases x, 0
  {
    hide EncodeSeq, EncodeProps, LengthHeader, NoZeroSentSeq, Small, Extends, Alike, Clean, OpenAbove, FlipSeq;
    var y := Flip(x);
    if EncodeArray(x, c, m).Wrote? && EncodeArray(y, e, m).Wrote? {
      EqFlipSeq(x.assoc.values);
      PropsAlike(x.assoc.names, x.assoc.values, y.assoc.values, c, e, m);
      PropsShow(x.assoc.names, x.assoc.values, c, e, m, open, d);
      var a, b := EncodeProps(x.assoc.names, x.assoc.values, c, m), EncodeProps(x.assoc.names, y.assoc.values, e, m);
      SeqShows(x.dense, a.ctx, b.ctx, m, open, d);
      var s, t := EncodeSeq(x.dense, a.ctx, m), EncodeSeq(y.dense, b.ctx, m);
      var h := LengthHeader(|x.dense|);
      if EncodeArray(x, c, m).bytes == EncodeArray(y, e, m).bytes {
        assert h + a.bytes + ([1] + s.bytes) == h + b.bytes + ([1] + t.bytes);
        BytesSplit(h + a.bytes, [1] + s.bytes, h + b.bytes, [1] + t.bytes);
        BytesSplit(h, a.bytes, h, b.bytes);
        BytesSplit([1], s.bytes, [1], t.bytes);
      }
    }
  }

  lemma {:induction false} VectorShows(x: Item, c: Context, e: Context, m: Policy, open: set<nat>, d: nat)
    requires x.Vector? && Depth(x) == d + 1 && Alike(c, e)
    ensures Shows(NoZeroSent(x), EncodeVector(x, c, m), EncodeVector(Flip(x), e, m), c, open, d)
    decreases x, 0
  {
    hide EncodeSeq, EncodeString, LengthHeader, NoZeroSentSeq, Small, Extends, Alike, Clean, OpenAbove, FlipSeq;
    var y := Flip(x);
    if EncodeVector(x, c, m).Wrote? && EncodeVector(y, e, m).Wrote? {
      StringAlike(x.typeName, c, e, m);
      var a, b := EncodeString(x.typeName, c, m), EncodeString(x.typeName, e, m);
      StringIsQuiet(x.typeName, c, m);
      NothingShows(a, b, c, open, d);
      SeqShows(x.values, a.ctx, b.ctx, m, open, d);
      var s, t := EncodeSeq(x.values, a.ctx, m), EncodeSeq(y.values, b.ctx, m);
      var h := LengthHeader(|x.values|) + Flag(x.fixed);
      if EncodeVector(x, c, m).bytes == EncodeVector(y, e, m).bytes {
        BytesSplit(h + a.bytes, s.bytes, h + b.bytes, t.bytes);
        BytesSplit(h, a.bytes, h, b.bytes);
      }
    }
  }

  lemma StringIsQuiet(t: Text, c: Context, m: Policy)
    ensures EncodeString(t, c, m).Wrote? ==> EncodeString(t, c, m).ctx.objects == c.objects
  {
  }

  lemma TraitsAreQuiet(t: Traits, c: Context, m: Policy)
    ensures EncodeTraits(t, c, m).Wrote? ==> EncodeTraits(t, c, m).ctx.objects == c.objects
  {
    hide EncodeString, EncodeNames, TraitsHeader, Unique, FirstIndex;
    StringIsQuiet(t.className, c, m);
    var name := EncodeString(t.className, c, m);
    if name.Wrote? { NamesIgnoreObject(Unique(t.attributes), AddTraits(name.ctx, t), Null, m); }
  }

  lemma {:induction false} ObjectShows(x: Item, c: Context, e: Context, m: Policy, open: set<nat>, d: nat)
    requires x.Object? && !External(x) && Depth(x) == d + 1 && Alike(c, e)
    ensures Shows(NoZeroSent(x), EncodeObject(x, c, m), EncodeObject(Flip(x), e, m), c, open, d)
    decreases x, 0
  {
    hide EncodeTraits, EncodePick, EncodeProps, NoZeroSentSeq, NoZeroSentPick, Small, Extends, Alike, Clean,
         OpenAbove, FlipSeq, Unique, DepthSeq;
    var y, names := Flip(x), Unique(x.traits.attributes);
    if EncodeObject(x, c, m).Wrote? && EncodeObject(y, e, m).Wrote? {
      TraitsAlike(x.traits, c, e, m);
      var a, b := EncodeTraits(x.traits, c, m), EncodeTraits(x.traits, e, m);
      TraitsAreQuiet(x.traits, c, m);
      NothingShows(a, b, c, open, d);
      EqFlipSeq(x.sealed.values);
      PickAlike(names, x.sealed, y.sealed, a.ctx, b.ctx, m);
      PickShows(names, x.sealed, y.sealed, a.ctx, b.ctx, m, open, d);
      var s, t := EncodePick(names, x.sealed, a.ctx, m), EncodePick(names, y.sealed, b.ctx, m);
      ShowsJoin(true, a, b, NoZeroSentPick(names, x.sealed), s, t, c, open, d);
      if x.traits.dynamic {
        EqFlipSeq(x.dyn.values);
        PropsAlike(x.dyn.names, x.dyn.values, y.dyn.values, s.ctx, t.ctx, m);
        PropsShow(x.dyn.names, x.dyn.values, s.ctx, t.ctx, m, open, d);
        var u, v := EncodeProps(x.dyn.names, x.dyn.values, s.ctx, m), EncodeProps(x.dyn.names, y.dyn.values, t.ctx, m);
        ShowsJoin(NoZeroSentPick(names, x.sealed), Join(a, s), Join(b, t), NoZeroSentSeq(x.dyn.values), u, v, c, open,
                  d);
        if EncodeObject(x, c, m).bytes == EncodeObject(y, e, m).bytes {
          assert Join(a, s).bytes + (u.bytes + [1]) == Join(b, t).bytes + (v.bytes + [1]);
          BytesSplit(Join(a, s).bytes, u.bytes + [1], Join(b, t).bytes, v.bytes + [1]);
          BytesSplit(u.bytes, [1], v.bytes, [1]);
        }
      }
    }
  }

  /** The same below any container that is deeper than the item. */
  lemma {:induction false} MemberShows(x: Item, c: Context, e: Context, m: Policy, open: set<nat>, d: nat)
    requires Depth(x) <= d && Alike(c, e)
    ensures Shows(NoZeroSent(x), Encode(x, c, m), Encode(Flip(x), e, m), c, open, d)
    decreases x, 5
  {
    hide Encode, NoZeroSent, Depth, Clean, Flip;
    ItemShows(x, c, e, m, open);
    var r := Encode(x, c, m);
    if r.Wrote? && OpenAbove(c, open, d) { OpenStaysAbove(c, r.ctx, open, d); }
  }

  lemma {:induction false} SeqShows(xs: seq<Item>, c: Context, e: Context, m: Policy, open: set<nat>, d: nat)
    requires DepthSeq(xs) <= d && Alike(c, e)
    ensures Shows(NoZeroSentSeq(xs), EncodeSeq(xs, c, m), EncodeSeq(FlipSeq(xs), e, m), c, open, d)
    decreases xs
  {
    hide Encode, NoZeroSent, Depth, Flip, Shows, Alike, Eq;
    if xs == [] {
      NothingShows(EncodeSeq(xs, c, m), EncodeSeq(FlipSeq(xs), e, m), c, open, d);
      assert EncodeSeq(xs, c, m) == Put1([], c);
    } else {
      EqFlip(xs[0]);
      EncodeAlike(xs[0], Flip(xs[0]), c, e, m);
      MemberShows(xs[0], c, e, m, open, d);
      assert FlipSeq(xs)[0] == Flip(xs[0]) && FlipSeq(xs)[1..] == FlipSeq(xs[1..]);
      var a, b := Encode(xs[0], c, m), Encode(Flip(xs[0]), e, m);
      if EncodeSeq(xs, c, m).Wrote? && EncodeSeq(FlipSeq(xs), e, m).Wrote? {
        SeqShows(xs[1..], a.ctx, b.ctx, m, open, d);
        ShowsJoin(NoZeroSent(xs[0]), a, b, NoZeroSentSeq(xs[1..]), EncodeSeq(xs[1..], a.ctx, m),
                  EncodeSeq(FlipSeq(xs[1..]), b.ctx, m), c, open, d);
        assert NoZeroSentSeq(xs) <==> NoZeroSent(xs[0]) && NoZeroSentSeq(xs[1..]);
      } else {
        NeverShows(NoZeroSentSeq(xs), EncodeSeq(xs, c, m), EncodeSeq(FlipSeq(xs), e, m), c, open, d);
      }
    }
  }

  lemma NeverShows(none: bool, a: Out, b: Out, c: Context, open: set<nat>, d: nat)
    requires a.Throws? || b.Throws?
    ensures Shows(none, a, b, c, open, d)
  {
  }

  lemma {:induction false} PropsShow(names: seq<Text>, values: seq<Item>, c: Context, e: Context, m: Policy,
                                     open: set<nat>, d: nat)
    requires |names| == |values| && DepthSeq(values) <= d && Alike(c, e)
    ensures Shows(NoZeroSentSeq(values), EncodeProps(names, values, c, m), EncodeProps(names, FlipSeq(values), e, m),
                  c, open, d)
    decreases values
  {
    hide Encode, EncodeString, NoZeroSent, Depth, Flip, Shows, Alike, Eq;
    var r, q := EncodeProps(names, values, c, m), EncodeProps(names, FlipSeq(values), e, m);
    if names == [] {
      assert r == Put1([], c);
      NothingShows(r, q, c, open, d);
    } else if r.Wrote? && q.Wrote? {
      var x := values[0];
      StringAlike(names[0], c, e, m);
      StringIsQuiet(names[0], c, m);
      var k, l := EncodeString(names[0], c, m), EncodeString(names[0], e, m);
      NothingShows(k, l, c, open, d);
      EqFlip(x);
      assert SameOut(k, l, true) && Alike(k.ctx, l.ctx);
      EncodeAlike(x, Flip(x), k.ctx, l.ctx, m);
      MemberShows(x, k.ctx, l.ctx, m, open, d);
      assert FlipSeq(values)[0] == Flip(x) && FlipSeq(values)[1..] == FlipSeq(values[1..]);
      var a, b := Encode(x, k.ctx, m), Encode(Flip(x), l.ctx, m);
      ShowsJoin(true, k, l, NoZeroSent(x), a, b, c, open, d);
      PropsShow(names[1..], values[1..], a.ctx, b.ctx, m, open, d);
      ShowsJoin(NoZeroSent(x), Join(k, a), Join(l, b), NoZeroSentSeq(values[1..]),
                EncodeProps(names[1..], values[1..], a.ctx, m), EncodeProps(names[1..], FlipSeq(values[1..]), b.ctx, m),
                c, open, d);
      assert NoZeroSentSeq(values) <==> NoZeroSent(x) && NoZeroSentSeq(values[1..]);
    } else {
      NeverShows(NoZeroSentSeq(values), r, q, c, open, d);
    }
  }

  lemma {:induction false} PickShows(names: seq<Text>, p: Props<Item>, q: Props<Item>, c: Context, e: Context,
                                     m: Policy, open: set<nat>, d: nat)
    requires q.names == p.names && q.values == FlipSeq(p.values) && DepthSeq(p.values) <= d && Alike(c, e)
    ensures Shows(NoZeroSentPick(names, p), EncodePick(names, p, c, m), EncodePick(names, q, e, m), c, open, d)
    decreases p, |names|
  {
    hide Encode, NoZeroSent, Depth, Flip, Shows, Alike, Eq;
    var r, s := EncodePick(names, p, c, m), EncodePick(names, q, e, m);
    if names == [] {
      assert r == Put1([], c);
      NothingShows(r, s, c, open, d);
    } else if r.Wrote? && s.Wrote? {
      var x := p.values[Rank(p.names, names[0])];
      EqFlip(x);
      EncodeAlike(x, Flip(x), c, e, m);
      MemberShows(x, c, e, m, open, d);
      var a, b := Encode(x, c, m), Encode(Flip(x), e, m);
      PickShows(names[1..], p, q, a.ctx, b.ctx, m, open, d);
      ShowsJoin(NoZeroSent(x), a, b, NoZeroSentPick(names[1..], p), EncodePick(names[1..], p, a.ctx, m),
                EncodePick(names[1..], q, b.ctx, m), c, open, d);
      assert NoZeroSentPick(names, p) <==> NoZeroSent(x) && NoZeroSentPick(names[1..], p);
    } else {
      NeverShows(NoZeroSentPick(names, p), r, s, c, open, d);
    }
  }

  // ----- Dictionary keys -----

  /** `y` hashes like `x`: both are serialized with a context of their own. */
  predicate SameHash(x: Item, y: Item) {
    var a, b := Encode(x, EMPTY, Compress), Encode(y, EMPTY, Compress);
    a.Wrote? && b.Wrote? && a.bytes == b.bytes
  }

  /** All keys that equal `x` hash like it exactly if no zero is written for it. */
  lemma HashConsistentIff(x: Item)
    requires Encode(x, EMPTY, Compress).Wrote?
    ensures (forall y :: Eq(x, y) ==> SameHash(x, y)) <==> NoZeroSent(x)
  {
    hide Encode, Eq, NoZeroSent, Flip, Shows, Depth;
    if NoZeroSent(x) {
      forall y | Eq(x, y) ensures SameHash(x, y) {
        EncodeAlike(x, y, EMPTY, EMPTY, Compress);
      }
    }
    if forall y :: Eq(x, y) ==> SameHash(x, y) {
      EqFlip(x);
      assert SameHash(x, Flip(x));
      ItemShows(x, EMPTY, EMPTY, Compress, {});
      ShowsMeans(NoZeroSent(x), Encode(x, EMPTY, Compress), Encode(Flip(x), EMPTY, Compress), Depth(x));
    }
  }

  lemma ShowsMeans(none: bool, a: Out, b: Out, d: nat)
    requires Shows(none, a, b, EMPTY, {}, d) && a.Wrote? && b.Wrote? && a.bytes == b.bytes
    ensures none
  {
  }
}
