/** Which items can be serialized, and when `serialize` throws. */
module Exceptions {
  import opened Words
  import opened Names
  import opened Items
  import opened Encoder
  import opened Equality
  import opened Lockstep
  import opened RoundTrip
  import U29

  /** Lengths below 2^27, a value for every sealed attribute, no external serializer, no cycle. */
  predicate Encodable(x: Item)
    decreases x
  {
    match x
    case Loop(_) => false
    case Str(t) => Fits(t)
    case Data(_, b) => Fits(b)
    case Numbers(_, n, _) => |n| < U29.LENGTH_LIMIT
    case Array(p, d) => |d| < U29.LENGTH_LIMIT && AllFit(p.names) && EncodableSeq(p.values) && EncodableSeq(d)
    case Object(t, s, d, _) =>
      && TraitsEncodable(t)
      && EncodablePick(Unique(t.attributes), s)
      && (t.dynamic ==> AllFit(d.names) && EncodableSeq(d.values))
    case Vector(t, _, v) => Fits(t) && |v| < U29.LENGTH_LIMIT && EncodableSeq(v)
    case _ => true
  }

  predicate TraitsEncodable(t: Traits) {
    !t.externalizable && Fits(t.className) && AllFit(Unique(t.attributes))
  }

  predicate AllFit(names: seq<Text>) {
    forall i :: 0 <= i < |names| ==> Fits(names[i])
  }

  predicate EncodableSeq(xs: seq<Item>)
    decreases xs
  {
    forall i :: 0 <= i < |xs| ==> Encodable(xs[i])
  }

  predicate EncodablePick(names: seq<Text>, p: Props<Item>)
    decreases p
  {
    forall i :: 0 <= i < |names| ==> Holds(p.names, names[i]) && Encodable(p.values[Rank(p.names, names[i])])
  }

  lemma {:induction false} EqEncodable(a: Item, b: Item)
    requires Eq(a, b) && Encodable(a)
    ensures Encodable(b)
    decreases a
  {
    match a
    case Array(p, d) => EqEncodableSeq(p.values, b.assoc.values); EqEncodableSeq(d, b.dense);
    case Object(t, s, d, _) =>
      EqObjects(a, b);
      EqEncodablePick(Unique(t.attributes), s, b.sealed);
      if t.dynamic { EqEncodableSeq(d.values, b.dyn.values); }
    case Vector(_, _, v) => EqEncodableSeq(v, b.values);
    case _ =>
  }

  lemma {:induction false} EqEncodableSeq(xs: seq<Item>, ys: seq<Item>)
    requires EqSeq(xs, ys) && EncodableSeq(xs)
    ensures EncodableSeq(ys)
    decreases xs
  {
    forall i | 0 <= i < |ys| ensures Encodable(ys[i]) { EqEncodable(xs[i], ys[i]); }
  }

  lemma {:induction false} EqEncodablePick(names: seq<Text>, p: Props<Item>, q: Props<Item>)
    requires p.names == q.names && EqSeq(p.values, q.values) && EncodablePick(names, p)
    ensures EncodablePick(names, q)
    decreases p
  {
    forall i | 0 <= i < |names| ensures Holds(q.names, names[i]) && Encodable(q.values[Rank(q.names, names[i])]) {
      EqEncodable(p.values[Rank(p.names, names[i])], q.values[Rank(q.names, names[i])]);
    }
  }

  // ----- What is compared -----

  /** Everything that is looked up in the object table when an item is sent in full: itself, then what is inside. */
  function Parts(x: Item): seq<Item>
    decreases x, 1
  {
    if Tabled(x) then [x] + Inner(x) else []
  }

  function Inner(x: Item): seq<Item>
    decreases x, 0
  {
    match x
    case Array(p, d) => PartsSeq(p.values) + PartsSeq(d)
    case Object(t, s, d, _) => PartsPick(Unique(t.attributes), s) + if t.dynamic then PartsSeq(d.values) else []
    case Vector(_, _, v) => PartsSeq(v)
    case _ => []
  }

  function PartsSeq(xs: seq<Item>): seq<Item>
    decreases xs
  {
    if xs == [] then [] else Parts(xs[0]) + PartsSeq(xs[1..])
  }

  function PartsPick(names: seq<Text>, p: Props<Item>): seq<Item>
    decreases p, |names|
  {
    if names == [] then [] else
      (if Holds(p.names, names[0]) then Parts(p.values[Rank(p.names, names[0])]) else []) + PartsPick(names[1..], p)
  }

  /** No two of them throw in comparison. */
  predicate Quiet(ps: seq<Item>) {
    forall a, b :: a in ps && b in ps ==> !Raises(a, b)
  }

  /** Nor does any of them with an entry of the object table. */
  predicate Safe(table: seq<Item>, ps: seq<Item>) {
    Quiet(ps) && forall o, p :: o in table && p in ps ==> !Raises(o, p)
  }

  /** Every one of them equals an entry of the object table. */
  predicate Vouched(table: seq<Item>, ps: seq<Item>) {
    forall p :: p in ps ==> exists o :: o in table && Eq(o, p)
  }

  /** What has been added to the object table is of these, and all of these are there. */
  predicate Grown(table: seq<Item>, table': seq<Item>, ps: seq<Item>) {
    table <= table' && (forall o :: o in table' ==> o in table || o in ps) && Vouched(table', ps)
  }

  /** To be safe one after the other is to be safe together. */
  lemma SafeJoin(table: seq<Item>, table': seq<Item>, ps: seq<Item>, qs: seq<Item>)
    requires Safe(table, ps) && Grown(table, table', ps)
    ensures Safe(table, ps + qs) <==> Safe(table', qs)
  {
    hide Eq, Raises;
    if Safe(table', qs) {
      forall p, q | p in ps && q in qs ensures !Raises(p, q) && !Raises(q, p) {
        var o :| o in table' && Eq(o, p);
        EqReflexive(q);
        RaisesEq(o, q, p, q);
        if Raises(q, p) { RaisesSymmetric(q, p); }
      }
    }
  }

  lemma SafePart(table: seq<Item>, ps: seq<Item>, qs: seq<Item>)
    requires Safe(table, ps + qs)
    ensures Safe(table, ps)
  {
  }

  lemma VouchedLater(table: seq<Item>, table': seq<Item>, ps: seq<Item>)
    requires Vouched(table, ps) && table <= table'
    ensures Vouched(table', ps)
  {
    hide Eq;
    forall p | p in ps ensures exists o :: o in table' && Eq(o, p) {
      var o :| o in table && Eq(o, p);
      assert o in table';
    }
  }

  lemma GrownJoin(table: seq<Item>, table': seq<Item>, table'': seq<Item>, ps: seq<Item>, qs: seq<Item>)
    requires Grown(table, table', ps) && Grown(table', table'', qs)
    ensures Grown(table, table'', ps + qs)
  {
    hide Vouched, Eq;
    VouchedLater(table', table'', ps);
    VouchedJoin(table'', ps, qs);
  }

  lemma VouchedJoin(table: seq<Item>, ps: seq<Item>, qs: seq<Item>)
    requires Vouched(table, ps) && Vouched(table, qs)
    ensures Vouched(table, ps + qs)
  {
  }

  lemma VouchedBoth(s: seq<Item>, t: seq<Item>, ps: seq<Item>, qs: seq<Item>)
    requires Vouched(s, ps) && Vouched(t, qs)
    ensures Vouched(s + t, ps + qs)
  {
    hide Eq;
    forall p | p in ps + qs ensures exists o :: o in s + t && Eq(o, p) {
      if p in ps {
        var o :| o in s && Eq(o, p);
        assert o in s + t;
      } else {
        var o :| o in t && Eq(o, p);
        assert o in s + t;
      }
    }
  }

  lemma VouchedThrough(table: seq<Item>, ps: seq<Item>, qs: seq<Item>)
    requires Vouched(table, ps) && Vouched(ps, qs)
    ensures Vouched(table, qs)
  {
    hide Eq;
    forall q | q in qs ensures exists o :: o in table && Eq(o, q) {
      var p :| p in ps && Eq(p, q);
      var o :| o in table && Eq(o, p);
      EqTransitive(o, p, q);
    }
  }

  /** What equals entries of a table without exceptions is safe. */
  lemma VouchedSafe(table: seq<Item>, ps: seq<Item>)
    requires Quiet(table) && Vouched(table, ps)
    ensures Safe(table, ps)
  {
    hide Eq, Raises;
    forall p, q | p in ps && q in ps ensures !Raises(p, q) {
      var o :| o in table && Eq(o, p);
      var r :| r in table && Eq(r, q);
      RaisesEq(o, r, p, q);
    }
    forall o, p | o in table && p in ps ensures !Raises(o, p) {
      var r :| r in table && Eq(r, p);
      EqReflexive(o);
      RaisesEq(o, r, o, p);
    }
  }

  lemma VouchedOne(a: Item, b: Item)
    requires Eq(a, b)
    ensures Vouched([a], [b])
  {
    hide Eq;
    assert a in [a];
  }

  lemma VouchedNone(ps: seq<Item>)
    ensures Vouched(ps, [])
  {
  }

  /** The parts of equal items are equal. */
  lemma {:induction false} EqParts(a: Item, b: Item)
    requires Eq(a, b)
    ensures Vouched(Parts(a), Parts(b))
    decreases a, 1
  {
    hide Inner, Eq, Vouched;
    SameClassOfEqual(a, b);
    if Tabled(a) {
      EqInner(a, b);
      VouchedOne(a, b);
      VouchedBoth([a], Inner(a), [b], Inner(b));
    } else {
      VouchedNone(Parts(a));
    }
  }

  lemma {:induction false} EqInner(a: Item, b: Item)
    requires Eq(a, b)
    ensures Vouched(Inner(a), Inner(b))
    decreases a, 0
  {
    hide Vouched, PartsSeq, PartsPick, EqSeq;
    match a
    case Array(p, d) =>
      EqPartsSeq(p.values, b.assoc.values);
      EqPartsSeq(d, b.dense);
      VouchedBoth(PartsSeq(p.values), PartsSeq(d), PartsSeq(b.assoc.values), PartsSeq(b.dense));
    case Object(t, s, d, _) =>
      EqObjects(a, b);
      var names := Unique(t.attributes);
      EqPartsPick(names, s, b.sealed);
      if t.dynamic { EqPartsSeq(d.values, b.dyn.values); } else { VouchedNone([]); }
      VouchedBoth(PartsPick(names, s), if t.dynamic then PartsSeq(d.values) else [],
                  PartsPick(names, b.sealed), if t.dynamic then PartsSeq(b.dyn.values) else []);
    case Vector(_, _, v) => EqPartsSeq(v, b.values);
    case _ => VouchedNone(Inner(a));
  }

  lemma {:induction false} EqPartsSeq(xs: seq<Item>, ys: seq<Item>)
    requires EqSeq(xs, ys)
    ensures Vouched(PartsSeq(xs), PartsSeq(ys))
    decreases xs
  {
    hide Vouched, Parts, Eq;
    if xs == [] {
      VouchedNone([]);
    } else {
      EqParts(xs[0], ys[0]);
      EqPartsSeq(xs[1..], ys[1..]);
      VouchedBoth(Parts(xs[0]), PartsSeq(xs[1..]), Parts(ys[0]), PartsSeq(ys[1..]));
    }
  }

  lemma {:induction false} EqPartsPick(names: seq<Text>, p: Props<Item>, q: Props<Item>)
    requires EqProps(p, q)
    ensures Vouched(PartsPick(names, p), PartsPick(names, q))
    decreases p, |names|
  {
    hide Vouched, Parts, Eq;
    if names == [] {
      VouchedNone([]);
    } else {
      EqPartsPick(names[1..], p, q);
      if Holds(p.names, names[0]) {
        var i := Rank(p.names, names[0]);
        EqParts(p.values[i], q.values[i]);
        VouchedBoth(Parts(p.values[i]), PartsPick(names[1..], p), Parts(q.values[i]), PartsPick(names[1..], q));
      } else {
        VouchedNone([]);
        VouchedBoth([], PartsPick(names[1..], p), [], PartsPick(names[1..], q));
      }
    }
  }

  // ----- Exceptions -----

  /**
    Nothing in the object table throws in comparison. Everything in the tables could be
    written, and what is inside has entries of its own, except perhaps for the containers
    still being written.
   */
  predicate Carried(c: Context, open: set<nat>) {
    && AllFit(c.strings)
    && (forall i :: 0 <= i < |c.traits| ==> TraitsEncodable(c.traits[i]))
    && Quiet(c.objects)
    && (forall i :: 0 <= i < |c.objects| && i !in open ==>
          Encodable(c.objects[i]) && Vouched(c.objects, Parts(c.objects[i])))
  }

  /**
    `r`, from tables `c`, is no exception exactly if what it writes is `encodable` and its
    `ps` are safe to look up; then the tables have those entries. Without lookups only the
    first matters.
   */
  predicate Sifts(encodable: bool, ps: seq<Item>, r: Out, c: Context, open: set<nat>, d: nat, m: Policy) {
    if m.Verbatim? then r.Wrote? <==> encodable
    else Carried(c, open) && OpenAbove(c, open, d) ==>
      && (r.Wrote? <==> encodable && Safe(c.objects, ps))
      && (r.Wrote? ==> Carried(r.ctx, open) && OpenAbove(r.ctx, open, d) && Grown(c.objects, r.ctx.objects, ps))
  }

  /** One after the other. */
  lemma SiftsJoin(e: bool, ps: seq<Item>, a: Out, f: bool, qs: seq<Item>, b: Out, c: Context, open: set<nat>, d: nat,
                  m: Policy)
    requires Sifts(e, ps, a, c, open, d, m) && (a.Wrote? ==> Sifts(f, qs, b, a.ctx, open, d, m))
    ensures Sifts(e && f, ps + qs, if a.Throws? then Throws else Join(a, b), c, open, d, m)
  {
    hide Carried, OpenAbove, Safe, Grown;
    if m.Compress? && Carried(c, open) && OpenAbove(c, open, d) {
      if a.Wrote? {
        SafeJoin(c.objects, a.ctx.objects, ps, qs);
        if b.Wrote? { GrownJoin(c.objects, a.ctx.objects, b.ctx.objects, ps, qs); }
      } else if Safe(c.objects, ps + qs) {
        SafePart(c.objects, ps, qs);
      }
    }
  }

  lemma SiftsLike(e: bool, ps: seq<Item>, a: Out, b: Out, c: Context, open: set<nat>, d: nat, m: Policy)
    requires Sifts(e, ps, a, c, open, d, m) && a.Wrote? == b.Wrote? && (a.Wrote? ==> a.ctx == b.ctx)
    ensures Sifts(e, ps, b, c, open, d, m)
  {
    hide Carried, OpenAbove, Safe, Grown;
  }

  lemma NothingSifts(bytes: seq<byte>, c: Context, open: set<nat>, d: nat, m: Policy)
    ensures Sifts(true, [], Put1(bytes, c), c, open, d, m)
  {
    hide Carried, OpenAbove;
  }

  lemma NothingAdded(table: seq<Item>)
    ensures Safe(table, []) && Grown(table, table, [])
  {
  }

  lemma StringSifts(t: Text, c: Context, m: Policy, open: set<nat>, d: nat)
    ensures Sifts(Fits(t), [], EncodeString(t, c, m), c, open, d, m)
    ensures var r := EncodeString(t, c, m); r.Wrote? ==> r.ctx.traits == c.traits && r.ctx.objects == c.objects
  {
    hide Quiet, Safe, Grown, Vouched, Encodable, Parts, TraitsEncodable, LengthHeader, Small;
    NothingAdded(c.objects);
  }

  lemma {:induction false} NamesSift(names: seq<Text>, c: Context, m: Policy, open: set<nat>, d: nat)
    ensures Sifts(AllFit(names), [], EncodeNames(names, c, m), c, open, d, m)
    ensures var r := EncodeNames(names, c, m); r.Wrote? ==> r.ctx.traits == c.traits && r.ctx.objects == c.objects
    decreases names
  {
    hide EncodeString, Sifts;
    if names == [] {
      NothingSifts([], c, open, d, m);
    } else {
      var first := EncodeString(names[0], c, m);
      StringSifts(names[0], c, m, open, d);
      if first.Wrote? { NamesSift(names[1..], first.ctx, m, open, d); }
      var rest := if first.Wrote? then EncodeNames(names[1..], first.ctx, m) else Throws;
      SiftsJoin(Fits(names[0]), [], first, AllFit(names[1..]), [], rest, c, open, d, m);
      assert AllFit(names) <==> Fits(names[0]) && AllFit(names[1..]);
      var none: seq<Item> := [];
      assert none + none == none;
    }
  }

  lemma TraitsSift(t: Traits, c: Context, m: Policy, open: set<nat>, d: nat)
    ensures Sifts(TraitsEncodable(t), [], EncodeTraits(t, c, m), c, open, d, m)
  {
    hide EncodeString, EncodeNames, TraitsHeader, Unique, AllFit, Encodable, Small, Quiet, Safe, Grown, Vouched,
         Parts;
    NothingAdded(c.objects);
    StringSifts(t.className, c, m, open, d);
    var name := EncodeString(t.className, c, m);
    if name.Wrote? && !t.externalizable && TraitsIndex(name.ctx, t, m) == |name.ctx.traits| {
      NamesIgnoreTraits(Unique(t.attributes), name.ctx, t, m);
      NamesSift(Unique(t.attributes), name.ctx, m, open, d);
    }
  }

  /**
    An item in any tables that have come about without an exception, under containers still
    open: it throws exactly if it is not encodable or comparing what is looked up does.
   */
  lemma {:induction false} EncodeSifts(x: Item, c: Context, m: Policy, open: set<nat>)
    ensures Sifts(Encodable(x), Parts(x), Encode(x, c, m), c, open, Depth(x), m)
    decreases x, 5
  {
    hide Sifts, Inner, EncodeString, EncodeBody;
    if Tabled(x) {
      if External(x) { ExternalSifts(x, c, open, m); } else { TabledSifts(x, c, m, open); }
    } else if x.Str? {
      StringSifts(x.text, c, m, open, Depth(x));
      SiftsLike(Fits(x.text), [], EncodeString(x.text, c, m), Encode(x, c, m), c, open, Depth(x), m);
    } else if x.Loop? {
      ThrowsSift([], c, open, Depth(x), m);
    } else {
      NothingSifts([], c, open, Depth(x), m);
      SiftsLike(true, [], Put1([], c), Encode(x, c, m), c, open, Depth(x), m);
    }
  }

  lemma ThrowsSift(ps: seq<Item>, c: Context, open: set<nat>, d: nat, m: Policy)
    ensures Sifts(false, ps, Throws, c, open, d, m)
  {
  }

  lemma ExternalSifts(x: Item, c: Context, open: set<nat>, m: Policy)
    requires External(x)
    ensures Sifts(Encodable(x), Parts(x), Encode(x, c, m), c, open, Depth(x), m)
  {
    hide Sifts;
    ThrowsSift(Parts(x), c, open, Depth(x), m);
  }

  lemma {:induction false} TabledSifts(x: Item, c: Context, m: Policy, open: set<nat>)
    requires Tabled(x) && !External(x)
    ensures Sifts(Encodable(x), Parts(x), Encode(x, c, m), c, open, Depth(x), m)
    decreases x, 4
  {
    hide EncodeBody, Encodable, Depth, Eq, Raises, Small, Marker, FirstEqual, Carried, OpenAbove, Safe, Grown, Parts;
    if m.Verbatim? {
      NewSifts(x, c, m, open);
    } else if Carried(c, open) && OpenAbove(c, open, Depth(x)) {
      if FirstEqual(c.objects, x) < |c.objects| {
        KnownSifts(x, c, open);
      } else if LookupRaises(c, x, m) {
        RaisesUnsafe(x, c);
      } else {
        NewSifts(x, c, m, open);
      }
    }
  }

  /** What equals an entry that is not open has been written, without exceptions. */
  lemma KnownSifts(x: Item, c: Context, open: set<nat>)
    requires FirstEqual(c.objects, x) < |c.objects| && Carried(c, open) && OpenAbove(c, open, Depth(x))
    ensures !LookupRaises(c, x, Compress)
    ensures Encodable(x) && Safe(c.objects, Parts(x)) && Grown(c.objects, c.objects, Parts(x))
  {
    hide Encodable, Depth, Eq, Raises, Parts, Safe, Vouched, FirstEqual;
    var k := FirstEqual(c.objects, x);
    NeverAnOpenAncestor(x, c, Compress, open);
    EqEncodable(c.objects[k], x);
    EqParts(c.objects[k], x);
    VouchedThrough(c.objects, Parts(c.objects[k]), Parts(x));
    VouchedSafe(c.objects, Parts(x));
    forall i | 0 <= i < k ensures !Raises(c.objects[i], x) {
      EqReflexive(c.objects[i]);
      RaisesEq(c.objects[i], c.objects[k], c.objects[i], x);
    }
  }

  lemma RaisesUnsafe(x: Item, c: Context)
    requires Tabled(x) && LookupRaises(c, x, Compress)
    ensures !Safe(c.objects, Parts(x))
  {
    hide Eq, Raises, Inner, FirstEqual;
    var i :| 0 <= i < FirstEqual(c.objects, x) && Raises(c.objects[i], x);
    assert c.objects[i] in c.objects && x in Parts(x);
  }

  lemma FreshSafe(x: Item, c: Context)
    requires New(x, c, Compress)
    ensures Safe(c.objects, [x]) && Grown(c.objects, AddObject(c, x).objects, [x])
  {
    hide Eq, Raises, FirstEqual;
    EqReflexive(x);
    RaisesNotEq(x, x);
  }

  lemma RegisteredCarried(x: Item, c: Context, open: set<nat>)
    requires Carried(c, open) && Safe(c.objects, [x])
    ensures Carried(AddObject(c, x), open + {|c.objects|})
  {
    hide Eq, Raises, Encodable, TraitsEncodable, Parts, Vouched;
    var c1 := AddObject(c, x);
    assert x in [x];
    forall o | o in c.objects ensures !Raises(x, o) {
      if Raises(x, o) { RaisesSymmetric(x, o); }
    }
    forall i | 0 <= i < |c1.objects| && i !in open + {|c.objects|}
      ensures Encodable(c1.objects[i]) && Vouched(c1.objects, Parts(c1.objects[i]))
    {
      VouchedLater(c.objects, c1.objects, Parts(c.objects[i]));
    }
  }

  lemma FinishedCarried(x: Item, c: Context, c': Context, open: set<nat>)
    requires Carried(c', open + {|c.objects|}) && AddObject(c, x).objects <= c'.objects
    requires Encodable(x) && Vouched(c'.objects, Parts(x))
    ensures Carried(c', open)
  {
    hide Quiet, Vouched, Parts, Encodable, TraitsEncodable;
    assert c'.objects[|c.objects|] == x;
  }

  /** With the item registered and open, what is inside comes next. */
  lemma {:induction false} NewSifts(x: Item, c: Context, m: Policy, open: set<nat>)
    requires Tabled(x) && New(x, c, m)
    ensures Sifts(Encodable(x), Parts(x), EncodeBody(x, AddObject(c, x), m), c, open, Depth(x), m)
    decreases x, 3
  {
    if x.Data? || x.Numbers? {
      LeafSifts(x, c, m, open);
    } else {
      hide EncodeBody, Encodable, Depth, Inner, Eq, Raises, Small, FirstEqual, Safe, Grown, Carried, OpenAbove;
      var c1, open1, d := AddObject(c, x), open + {|c.objects|}, Depth(x) - 1;
      ContainerDepth(x);
      ContainerSifts(x, c1, m, open1, d);
      var r := EncodeBody(x, c1, m);
      if m.Compress? && Carried(c, open) && OpenAbove(c, open, Depth(x)) {
        FreshSafe(x, c);
        RegisteredCarried(x, c, open);
        OpenRegistered(x, c, open, d);
        SafeJoin(c.objects, c1.objects, [x], Inner(x));
        if r.Wrote? {
          GrownJoin(c.objects, c1.objects, r.ctx.objects, [x], Inner(x));
          OpenStaysAbove(c, r.ctx, open, Depth(x));
          GrownVouched(c.objects, r.ctx.objects, Parts(x));
          FinishedCarried(x, c, r.ctx, open);
        }
      }
    }
  }

  lemma GrownVouched(table: seq<Item>, table': seq<Item>, ps: seq<Item>)
    requires Grown(table, table', ps)
    ensures Vouched(table', ps) && table <= table'
  {
  }

  lemma ContainerDepth(x: Item)
    requires x.Array? || x.Object? || x.Vector?
    ensures Depth(x) > 0
  {
  }

  lemma LeafSifts(x: Item, c: Context, m: Policy, open: set<nat>)
    requires (x.Data? || x.Numbers?) && New(x, c, m)
    ensures Sifts(Encodable(x), Parts(x), EncodeBody(x, AddObject(c, x), m), c, open, Depth(x), m)
  {
    hide LengthHeader, WordBytes, Eq, Raises, Small, FirstEqual, Safe, Grown, Carried, OpenAbove, Vouched;
    var c1 := AddObject(c, x);
    assert Parts(x) == [x];
    if m.Compress? && Carried(c, open) && OpenAbove(c, open, Depth(x)) {
      FreshSafe(x, c);
      RegisteredCarried(x, c, open);
      OpenStaysAbove(c, c1, open, Depth(x));
      GrownVouched(c.objects, c1.objects, [x]);
      if Encodable(x) { FinishedCarried(x, c, c1, open); }
    }
  }

  lemma {:induction false} ContainerSifts(x: Item, c: Context, m: Policy, open: set<nat>, d: nat)
    requires (x.Array? || x.Object? || x.Vector?) && !External(x) && Depth(x) == d + 1
    ensures Sifts(Encodable(x), Inner(x), EncodeBody(x, c, m), c, open, d, m)
    decreases x, 2
  {
    hide Sifts, Encodable, Inner, Depth, EncodeArray, EncodeObject, EncodeVector;
    match x
    case Array(_, _) => ArraySifts(x, c, m, open, d);
    case Object(_, _, _, _) => ObjectSifts(x, c, m, open, d);
    case Vector(_, _, _) => VectorSifts(x, c, m, open, d);
  }

  lemma {:induction false} ArraySifts(x: Item, c: Context, m: Policy, open: set<nat>, d: nat)
    requires x.Array? && Depth(x) == d + 1
    ensures Sifts(Encodable(x), Inner(x), EncodeArray(x, c, m), c, open, d, m)
    decreases x, 1
  {
    hide Sifts, EncodeSeq, EncodeProps, LengthHeader, AllFit, EncodableSeq, PartsSeq, Small, Extends;
    if |x.dense| >= U29.LENGTH_LIMIT {
      ThrowsSift(Inner(x), c, open, d, m);
    } else {
      var named := EncodeProps(x.assoc.names, x.assoc.values, c, m);
      PropsSift(x.assoc.names, x.assoc.values, c, m, open, d);
      if named.Wrote? { SeqSifts(x.dense, named.ctx, m, open, d); }
      var dense := if named.Wrote? then EncodeSeq(x.dense, named.ctx, m) else Throws;
      SiftsJoin(AllFit(x.assoc.names) && EncodableSeq(x.assoc.values), PartsSeq(x.assoc.values), named,
                EncodableSeq(x.dense), PartsSeq(x.dense), dense, c, open, d, m);
      SiftsLike(Encodable(x), Inner(x), if named.Throws? then Throws else Join(named, dense), EncodeArray(x, c, m),
                c, open, d, m);
    }
  }

  lemma {:induction false} VectorSifts(x: Item, c: Context, m: Policy, open: set<nat>, d: nat)
    requires x.Vector? && Depth(x) == d + 1
    ensures Sifts(Encodable(x), Inner(x), EncodeVector(x, c, m), c, open, d, m)
    decreases x, 1
  {
    hide Sifts, EncodeSeq, EncodeString, LengthHeader, EncodableSeq, PartsSeq, Small, Extends;
    if |x.values| >= U29.LENGTH_LIMIT {
      ThrowsSift(Inner(x), c, open, d, m);
    } else {
      var name := EncodeString(x.typeName, c, m);
      StringSifts(x.typeName, c, m, open, d);
      if name.Wrote? { SeqSifts(x.values, name.ctx, m, open, d); }
      var values := if name.Wrote? then EncodeSeq(x.values, name.ctx, m) else Throws;
      SiftsJoin(Fits(x.typeName), [], name, EncodableSeq(x.values), PartsSeq(x.values), values, c, open, d, m);
      assert [] + PartsSeq(x.values) == Inner(x);
      SiftsLike(Encodable(x), Inner(x), if name.Throws? then Throws else Join(name, values), EncodeVector(x, c, m),
                c, open, d, m);
    }
  }

  lemma {:induction false} ObjectSifts(x: Item, c: Context, m: Policy, open: set<nat>, d: nat)
    requires x.Object? && Depth(x) == d + 1
    ensures Sifts(Encodable(x), Inner(x), EncodeObject(x, c, m), c, open, d, m)
    decreases x, 1
  {
    hide Sifts, EncodeTraits, EncodePick, EncodeProps, AllFit, EncodableSeq, EncodablePick, TraitsEncodable, PartsSeq,
         PartsPick, Unique, Small, Extends, DepthSeq;
    var names, t := Unique(x.traits.attributes), x.traits;
    var head := EncodeTraits(t, c, m);
    TraitsSift(t, c, m, open, d);
    if head.Wrote? { PickSifts(names, x.sealed, head.ctx, m, open, d); }
    var sealed := if head.Wrote? then EncodePick(names, x.sealed, head.ctx, m) else Throws;
    SiftsJoin(TraitsEncodable(t), [], head, EncodablePick(names, x.sealed), PartsPick(names, x.sealed), sealed,
              c, open, d, m);
    assert [] + PartsPick(names, x.sealed) == PartsPick(names, x.sealed);
    var first := if head.Throws? then Throws else Join(head, sealed);
    if t.dynamic {
      var e := x.dyn;
      if first.Wrote? { PropsSift(e.names, e.values, first.ctx, m, open, d); }
      var dyn := if first.Wrote? then EncodeProps(e.names, e.values, first.ctx, m) else Throws;
      SiftsJoin(TraitsEncodable(t) && EncodablePick(names, x.sealed), PartsPick(names, x.sealed), first,
                AllFit(e.names) && EncodableSeq(e.values), PartsSeq(e.values), dyn, c, open, d, m);
      SiftsLike(Encodable(x), Inner(x), if first.Throws? then Throws else Join(first, dyn), EncodeObject(x, c, m),
                c, open, d, m);
    } else {
      assert Inner(x) == PartsPick(names, x.sealed);
      SiftsLike(Encodable(x), Inner(x), first, EncodeObject(x, c, m), c, open, d, m);
    }
  }

  /** The same below any container that is deeper than the item. */
  lemma {:induction false} MemberSifts(x: Item, c: Context, m: Policy, open: set<nat>, d: nat)
    requires Depth(x) <= d
    ensures Sifts(Encodable(x), Parts(x), Encode(x, c, m), c, open, d, m)
    decreases x, 6
  {
    hide Encode, Encodable, Depth, Carried, Parts, Safe, Grown;
    EncodeSifts(x, c, m, open);
    var r := Encode(x, c, m);
    if r.Wrote? && OpenAbove(c, open, d) { OpenStaysAbove(c, r.ctx, open, d); }
  }

  lemma {:induction false} SeqSifts(xs: seq<Item>, c: Context, m: Policy, open: set<nat>, d: nat)
    requires DepthSeq(xs) <= d
    ensures Sifts(EncodableSeq(xs), PartsSeq(xs), EncodeSeq(xs, c, m), c, open, d, m)
    decreases xs
  {
    hide Encode, Encodable, Depth, Sifts, Parts;
    if xs == [] {
      NothingSifts([], c, open, d, m);
    } else {
      var first := Encode(xs[0], c, m);
      MemberSifts(xs[0], c, m, open, d);
      if first.Wrote? { SeqSifts(xs[1..], first.ctx, m, open, d); }
      var rest := if first.Wrote? then EncodeSeq(xs[1..], first.ctx, m) else Throws;
      SiftsJoin(Encodable(xs[0]), Parts(xs[0]), first, EncodableSeq(xs[1..]), PartsSeq(xs[1..]), rest, c, open, d, m);
      assert EncodableSeq(xs) <==> Encodable(xs[0]) && EncodableSeq(xs[1..]);
    }
  }

  lemma {:induction false} PropsSift(names: seq<Text>, values: seq<Item>, c: Context, m: Policy, open: set<nat>, d: nat)
    requires |names| == |values| && DepthSeq(values) <= d
    ensures Sifts(AllFit(names) && EncodableSeq(values), PartsSeq(values), EncodeProps(names, values, c, m),
                  c, open, d, m)
    decreases values
  {
    hide Encode, Encodable, EncodeString, Depth, Sifts, Parts;
    if names == [] {
      NothingSifts([], c, open, d, m);
    } else {
      var name := EncodeString(names[0], c, m);
      StringSifts(names[0], c, m, open, d);
      if name.Wrote? { MemberSifts(values[0], name.ctx, m, open, d); }
      var value := if name.Wrote? then Encode(values[0], name.ctx, m) else Throws;
      SiftsJoin(Fits(names[0]), [], name, Encodable(values[0]), Parts(values[0]), value, c, open, d, m);
      assert [] + Parts(values[0]) == Parts(values[0]);
      var first := if name.Throws? then Throws else Join(name, value);
      if first.Wrote? { PropsSift(names[1..], values[1..], first.ctx, m, open, d); }
      var rest := if first.Wrote? then EncodeProps(names[1..], values[1..], first.ctx, m) else Throws;
      SiftsJoin(Fits(names[0]) && Encodable(values[0]), Parts(values[0]), first,
                AllFit(names[1..]) && EncodableSeq(values[1..]), PartsSeq(values[1..]), rest, c, open, d, m);
      assert AllFit(names) <==> Fits(names[0]) && AllFit(names[1..]);
      assert EncodableSeq(values) <==> Encodable(values[0]) && EncodableSeq(values[1..]);
    }
  }

  lemma {:induction false} PickSifts(names: seq<Text>, p: Props<Item>, c: Context, m: Policy, open: set<nat>, d: nat)
    requires DepthSeq(p.values) <= d
    ensures Sifts(EncodablePick(names, p), PartsPick(names, p), EncodePick(names, p, c, m), c, open, d, m)
    decreases p, |names|
  {
    hide Encode, Encodable, Depth, DepthSeq, Sifts, Parts;
    if names == [] {
      NothingSifts([], c, open, d, m);
    } else if !Holds(p.names, names[0]) {
      ThrowsSift(PartsPick(names, p), c, open, d, m);
    } else {
      var x := p.values[Rank(p.names, names[0])];
      MemberDepth(p.values, Rank(p.names, names[0]));
      MemberSifts(x, c, m, open, d);
      var first := Encode(x, c, m);
      if first.Wrote? { PickSifts(names[1..], p, first.ctx, m, open, d); }
      var rest := if first.Wrote? then EncodePick(names[1..], p, first.ctx, m) else Throws;
      SiftsJoin(Encodable(x), Parts(x), first, EncodablePick(names[1..], p), PartsPick(names[1..], p), rest,
                c, open, d, m);
      assert EncodablePick(names, p) <==> Encodable(x) && EncodablePick(names[1..], p);
    }
  }

  lemma MemberDepth(xs: seq<Item>, i: nat)
    requires i < |xs|
    ensures Depth(xs[i]) <= DepthSeq(xs)
  {
  }

  /** No exception on well-formed items. */
  lemma {:induction false} WellFormedEncodable(x: Item)
    requires WellFormed(x)
    ensures Encodable(x)
    decreases x
  {
    match x
    case Array(p, d) => WellFormedEncodableSeq(p.values); WellFormedEncodableSeq(d);
    case Object(t, s, d, _) =>
      WellFormedEncodablePick(t, s);
      if t.dynamic { WellFormedEncodableSeq(d.values); }
    case Vector(_, _, v) => WellFormedEncodableSeq(v);
    case _ =>
  }

  lemma {:induction false} WellFormedEncodablePick(t: Traits, s: Props<Item>)
    requires TraitsFit(t) && forall i :: 0 <= i < |t.attributes| ==> Holds(s.names, t.attributes[i])
    requires forall i :: 0 <= i < |s.names| && s.names[i] in t.attributes ==> WellFormed(s.values[i])
    ensures AllFit(Unique(t.attributes)) && EncodablePick(Unique(t.attributes), s)
    decreases s
  {
    var names := Unique(t.attributes);
    forall i | 0 <= i < |names|
      ensures Fits(names[i]) && Holds(s.names, names[i]) && Encodable(s.values[Rank(s.names, names[i])])
    {
      assert names[i] in t.attributes;
      var j :| 0 <= j < |t.attributes| && t.attributes[j] == names[i];
      assert Holds(s.names, t.attributes[j]);
      WellFormedEncodable(s.values[Rank(s.names, names[i])]);
    }
  }

  lemma {:induction false} WellFormedEncodableSeq(xs: seq<Item>)
    requires WellFormedSeq(xs)
    ensures EncodableSeq(xs)
    decreases xs
  {
    forall i | 0 <= i < |xs| ensures Encodable(xs[i]) { WellFormedEncodable(xs[i]); }
  }

  // ----- Streams -----

  /**
    A stream through one serializer throws exactly if one of its items is not encodable or
    two of the objects it looks up throw in comparison.
   */
  lemma StreamThrowsIff(xs: seq<Item>)
    ensures EncodeStream(xs).Wrote? <==> EncodableSeq(xs) && Quiet(PartsSeq(xs))
    ensures EncodeStream(xs).Wrote? ==> Carried(EncodeStream(xs).ctx, {})
  {
    hide EncodeSeq, EncodableSeq, PartsSeq;
    SeqSifts(xs, EMPTY, Compress, {}, DepthSeq(xs));
  }

  /** A stream of well-formed items throws only from a comparison. */
  lemma WellFormedStream(xs: seq<Item>)
    requires WellFormedSeq(xs)
    ensures EncodeStream(xs).Wrote? <==> Quiet(PartsSeq(xs))
  {
    hide EncodeSeq, EncodableSeq, PartsSeq, WellFormedSeq;
    WellFormedEncodableSeq(xs);
    StreamThrowsIff(xs);
  }

  lemma {:induction false} PartsNoExternal(x: Item)
    requires NoExternal(x)
    ensures NoExternalSeq(Parts(x))
    decreases x
  {
    match x
    case Array(p, d) => PartsNoExternalSeq(p.values); PartsNoExternalSeq(d);
    case Object(t, s, d, _) =>
      PartsNoExternalPick(Unique(t.attributes), s);
      if t.dynamic { PartsNoExternalSeq(d.values); }
    case Vector(_, _, v) => PartsNoExternalSeq(v);
    case _ =>
  }

  lemma {:induction false} PartsNoExternalSeq(xs: seq<Item>)
    requires NoExternalSeq(xs)
    ensures NoExternalSeq(PartsSeq(xs))
    decreases xs
  {
    hide NoExternal, Parts;
    if xs != [] {
      PartsNoExternal(xs[0]);
      PartsNoExternalSeq(xs[1..]);
    }
  }

  lemma {:induction false} PartsNoExternalPick(names: seq<Text>, p: Props<Item>)
    requires NoExternalSeq(p.values)
    ensures NoExternalSeq(PartsPick(names, p))
    decreases p, |names|
  {
    hide NoExternal, Parts;
    if names != [] {
      if Holds(p.names, names[0]) { PartsNoExternal(p.values[Rank(p.names, names[0])]); }
      PartsNoExternalPick(names[1..], p);
    }
  }

  /** Without externalizable objects in what is compared, no comparison throws. */
  lemma NoExternalQuiet(xs: seq<Item>)
    requires NoExternalSeq(xs)
    ensures Quiet(PartsSeq(xs))
  {
    hide Raises, NoExternal, PartsSeq;
    PartsNoExternalSeq(xs);
    var ps := PartsSeq(xs);
    forall a, b | a in ps && b in ps ensures !Raises(a, b) {
      var i :| 0 <= i < |ps| && ps[i] == a;
      NoExternalNeverRaises(a, b);
    }
  }

  const CALLER: Item := Object(Traits([], false, true, []), NO_PROPS, NO_PROPS, 1)
  const OTHER: Item := Object(Traits([], false, true, []), NO_PROPS, NO_PROPS, 2)

  /** An object with a sealed property that is no attribute of it, and so is compared but never written. */
  function Holder(x: Item, node: nat): Item {
    Object(Traits([], false, false, []), Props([[97]], [x]), NO_PROPS, node)
  }

  /** Of two such objects the second throws if each has an externalizable object of its own, not if they share it. */
  lemma SeparateExternalsThrow()
    ensures Encodable(Holder(CALLER, 3)) && Encodable(Holder(OTHER, 4))
    ensures EncodeStream([Holder(CALLER, 3), Holder(OTHER, 4)]).Throws?
    ensures EncodeStream([Holder(CALLER, 3), Holder(CALLER, 4)]).Wrote?
  {
    hide Encode, EncodeSeq, Raises, Encodable, PartsSeq;
    HolderParts(CALLER, 3, OTHER, 4);
    HolderParts(CALLER, 3, CALLER, 4);
    StreamThrowsIff([Holder(CALLER, 3), Holder(OTHER, 4)]);
    StreamThrowsIff([Holder(CALLER, 3), Holder(CALLER, 4)]);
    HoldersRaise();
  }

  lemma HoldersRaise()
    ensures Raises(Holder(CALLER, 3), Holder(OTHER, 4))
    ensures Quiet([Holder(CALLER, 3), Holder(CALLER, 4)])
  {
    var x, z := Holder(CALLER, 3), Holder(OTHER, 4);
    assert Raises(CALLER, OTHER);
    assert RaisesProps(x.sealed, z.sealed);
    hide Raises;
    HoldersQuiet(3, 3);
    HoldersQuiet(3, 4);
    HoldersQuiet(4, 3);
    HoldersQuiet(4, 4);
  }

  lemma HoldersQuiet(i: nat, j: nat)
    ensures !Raises(Holder(CALLER, i), Holder(CALLER, j))
  {
    hide Raises;
    EqReflexiveSeq([CALLER]);
    RaisesNotEq(Holder(CALLER, i), Holder(CALLER, j));
  }

  lemma HolderPart(x: Item, i: nat)
    ensures Parts(Holder(x, i)) == [Holder(x, i)] && Encodable(Holder(x, i))
  {
    var a := Holder(x, i);
    assert Unique(a.traits.attributes) == [];
    assert PartsPick([], a.sealed) == [];
    assert Inner(a) == [] + [];
  }

  lemma HolderParts(x: Item, i: nat, y: Item, j: nat)
    ensures PartsSeq([Holder(x, i), Holder(y, j)]) == [Holder(x, i), Holder(y, j)]
    ensures Encodable(Holder(x, i)) && EncodableSeq([Holder(x, i), Holder(y, j)])
  {
    hide Parts, Encodable, Holder;
    var a, b := Holder(x, i), Holder(y, j);
    HolderPart(x, i);
    HolderPart(y, j);
    assert [a, b][1..] == [b] && [b][1..] == [];
    assert PartsSeq([]) == [];
    assert PartsSeq([b]) == [b] + [];
    assert PartsSeq([a, b]) == [a] + [b];
  }
}
