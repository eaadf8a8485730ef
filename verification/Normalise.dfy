/** Whatever the decoder accepts is well-formed, and re-encoding it normalises it. */
module Normalise {
  import opened Words
  import opened Names
  import opened Items
  import opened Encoder
  import opened Decoder
  import opened Lockstep
  import opened Compression
  import opened Equality
  import opened Exceptions
  import opened Heap
  import U29

  /** No double anywhere. */
  predicate NoDouble(x: Item)
    decreases x
  {
    match x
    case Double(_, _) => false
    case Array(p, d) => NoDoubleSeq(p.values) && NoDoubleSeq(d)
    case Object(_, s, d, _) => NoDoubleSeq(s.values) && NoDoubleSeq(d.values)
    case Vector(_, _, v) => NoDoubleSeq(v)
    case _ => true
  }

  predicate NoDoubleSeq(xs: seq<Item>)
    decreases xs
  {
    forall i :: 0 <= i < |xs| ==> NoDouble(xs[i])
  }

  /** Well-formed but for doubles and for pointers back into open containers. */
  predicate Shaped(x: Item)
    decreases x
  {
    match x
    case Integer(v) => U29.MIN <= v <= U29.MAX
    case Str(t) => Fits(t)
    case Data(_, b) => Fits(b)
    case Numbers(_, n, _) => |n| < U29.LENGTH_LIMIT
    case Array(p, d) => |d| < U29.LENGTH_LIMIT && NamesFit(p.names) && ShapedSeq(p.values) && ShapedSeq(d)
    case Object(t, s, d, _) =>
      && TraitsFit(t)
      && (forall i :: 0 <= i < |t.attributes| ==> Holds(s.names, t.attributes[i]))
      && ShapedSeq(s.values) && NamesFit(d.names) && ShapedSeq(d.values)
    case Vector(t, _, v) => Fits(t) && |v| < U29.LENGTH_LIMIT && ShapedSeq(v)
    case _ => true
  }

  predicate ShapedSeq(xs: seq<Item>)
    decreases xs
  {
    forall i :: 0 <= i < |xs| ==> Shaped(xs[i])
  }

  lemma {:induction false} ShapedWellFormed(x: Item)
    requires Shaped(x) && NoDouble(x) && LoopFree(x)
    ensures WellFormed(x) && NoExternal(x)
    decreases x
  {
    match x
    case Array(p, d) => ShapedWellFormedSeq(p.values); ShapedWellFormedSeq(d);
    case Object(t, s, d, _) => ShapedWellFormedSeq(s.values); ShapedWellFormedSeq(d.values);
    case Vector(_, _, v) => ShapedWellFormedSeq(v);
    case _ =>
  }

  lemma {:induction false} ShapedWellFormedSeq(xs: seq<Item>)
    requires ShapedSeq(xs) && NoDoubleSeq(xs) && LoopFreeSeq(xs)
    ensures WellFormedSeq(xs) && NoExternalSeq(xs)
    decreases xs
  {
    forall i | 0 <= i < |xs| ensures WellFormed(xs[i]) && NoExternal(xs[i]) { ShapedWellFormed(xs[i]); }
  }

  predicate GoodTraits(t: Traits) {
    !t.externalizable && Fits(t.className) && |t.attributes| < 0x100_0000 && AllFit(t.attributes)
  }

  /** What every table reached by decoding from an empty one keeps. */
  predicate Sound(c: Table) {
    && AllFit(c.strings)
    && (forall i :: 0 <= i < |c.traits| ==> GoodTraits(c.traits[i]))
    && (forall i :: 0 <= i < |c.objects| && c.objects[i].Done? ==> Shaped(c.objects[i].item))
  }

  lemma HeaderRange(s: seq<byte>, p: nat)
    requires U29.Read(s, p).Got?
    ensures var v := U29.Read(s, p).value;
      U29.MIN <= v <= U29.MAX && v / 2 < U29.LENGTH_LIMIT && v / 16 < 0x100_0000
  {
    hide U29.Read, U29.Write;
    U29.NormalForm(s, p);
  }

  lemma StringSound(s: seq<byte>, p: nat, c: Table)
    requires Sound(c) && DecodeString(s, p, c).Ok?
    ensures Sound(DecodeString(s, p, c).ctx) && Fits(DecodeString(s, p, c).value)
  {
    hide U29.Read, Shaped, GoodTraits;
    HeaderRange(s, p);
  }

  lemma {:induction false} NamesSound(n: int, s: seq<byte>, p: nat, c: Table, acc: seq<Text>)
    requires p <= |s| && Sound(c) && AllFit(acc) && DecodeNames(n, s, p, c, acc).Ok?
    ensures var r := DecodeNames(n, s, p, c, acc);
      Sound(r.ctx) && AllFit(r.value) && |r.value| == |acc| + if n <= 0 then 0 else n
    decreases |s| - p
  {
    hide DecodeString, Sound;
    if n > 0 {
      var name := DecodeString(s, p, c);
      StringSound(s, p, c);
      NamesSound(n - 1, s, name.next, name.ctx, acc + [name.value]);
    }
  }

  lemma TraitsSound(h: int, s: seq<byte>, p: nat, c: Table)
    requires p <= |s| && Sound(c) && h / 16 < 0x100_0000 && DecodeTraits(h, s, p, c).Ok?
    ensures Sound(DecodeTraits(h, s, p, c).ctx) && GoodTraits(DecodeTraits(h, s, p, c).value)
  {
    hide DecodeString, DecodeNames, Shaped;
    if h % 4 != 1 {
      var name := DecodeString(s, p, c);
      StringSound(s, p, c);
      NamesSound(h / 16, s, name.next, name.ctx, []);
    }
  }

  lemma SimpleSound(s: seq<byte>, p: nat, c: Table)
    requires p < |s| && Sound(c) && DecodeSimple(s, p, c).Ok?
    ensures Sound(DecodeSimple(s, p, c).ctx) && Shaped(DecodeSimple(s, p, c).value)
  {
    hide DecodeString, U29.Read, Sound;
    if s[p] == INTEGER {
      HeaderRange(s, p + 1);
    } else if s[p] == STRING {
      StringSound(s, p + 1, c);
    }
  }

  lemma AddDoneSound(c: Table, x: Item)
    requires Sound(c) && Shaped(x)
    ensures Sound(AddObject(c, Done(x)))
  {
  }

  lemma AddOpenSound(c: Table, m: byte)
    requires Sound(c)
    ensures Sound(AddObject(c, Open(m)))
  {
  }

  lemma CloseSound(c: Table, i: nat, x: Item)
    requires Sound(c) && Shaped(x) && i < |c.objects|
    ensures Sound(Close(c, i, x))
  {
  }

  lemma LeafSound(m: byte, n: int, s: seq<byte>, p: nat, c: Table)
    requires p <= |s| && Sound(c) && n < U29.LENGTH_LIMIT
    ensures var r := DecodeData(m, n, s, p, c); r.Ok? ==> Sound(r.ctx) && Shaped(r.value)
    ensures var r := DecodeNumbers(m, n, s, p, c); r.Ok? ==> Sound(r.ctx) && Shaped(r.value)
  {
    hide Sound, ReadWords;
    if DecodeData(m, n, s, p, c).Ok? { AddDoneSound(c, DecodeData(m, n, s, p, c).value); }
    if DecodeNumbers(m, n, s, p, c).Ok? { AddDoneSound(c, DecodeNumbers(m, n, s, p, c).value); }
  }

  /** Decoding from a sound table yields a good item and a sound table. */
  lemma {:induction false} DecodeSound(s: seq<byte>, p: nat, c: Table)
    requires p <= |s| && Sound(c) && Decode(s, p, c).Ok?
    ensures Sound(Decode(s, p, c).ctx) && Shaped(Decode(s, p, c).value)
    decreases |s| - p, 0
  {
    hide DecodeSimple, DecodeBody, U29.Read, WellFormed;
    if s[p] in {XMLDOC, XML, BYTEARRAY, VECTOR_INT, VECTOR_UINT, ARRAY, OBJECT, VECTOR_OBJECT} {
      var h := U29.Read(s, p + 1);
      HeaderRange(s, p + 1);
      if h.value % 2 != 0 {
        BodySound(s[p], h.value, s, h.next, c);
      }
    } else {
      SimpleSound(s, p, c);
    }
  }

  lemma {:induction false} BodySound(m: byte, h: int, s: seq<byte>, p: nat, c: Table)
    requires p <= |s| && Sound(c) && h / 2 < U29.LENGTH_LIMIT && h / 16 < 0x100_0000 && DecodeBody(m, h, s, p, c).Ok?
    ensures Sound(DecodeBody(m, h, s, p, c).ctx) && Shaped(DecodeBody(m, h, s, p, c).value)
    decreases |s| - p, 3
  {
    hide DecodeArray, DecodeObject, DecodeVector, DecodeData, DecodeNumbers, Sound, Shaped;
    if m == ARRAY {
      ArraySound(h / 2, s, p, c);
    } else if m == OBJECT {
      ObjectSound(h, s, p, c);
    } else if m == VECTOR_OBJECT {
      VectorSound(h / 2, s, p, c);
    } else {
      LeafSound(m, h / 2, s, p, c);
    }
  }

  lemma {:induction false} ArraySound(n: int, s: seq<byte>, p: nat, c: Table)
    requires p <= |s| && Sound(c) && n < U29.LENGTH_LIMIT && DecodeArray(n, s, p, c).Ok?
    ensures Sound(DecodeArray(n, s, p, c).ctx) && Shaped(DecodeArray(n, s, p, c).value)
    decreases |s| - p, 2
  {
    hide DecodeProps, DecodeSeq, Sound, NamesFit;
    var c1 := AddObject(c, Open(ARRAY));
    AddOpenSound(c, ARRAY);
    NoNamesFit();
    PropsSound(s, p, c1, NO_PROPS);
    var named := DecodeProps(s, p, c1, NO_PROPS);
    SeqSound(n, s, named.next, named.ctx, []);
    var dense := DecodeSeq(n, s, named.next, named.ctx, []);
    ArrayGood(named.value, dense.value);
    CloseSound(dense.ctx, |c.objects|, Array(named.value, dense.value));
  }

  lemma NoNamesFit()
    ensures NamesFit([])
  {
  }

  lemma {:induction false} VectorSound(n: int, s: seq<byte>, p: nat, c: Table)
    requires p <= |s| && Sound(c) && n < U29.LENGTH_LIMIT && DecodeVector(n, s, p, c).Ok?
    ensures Sound(DecodeVector(n, s, p, c).ctx) && Shaped(DecodeVector(n, s, p, c).value)
    decreases |s| - p, 2
  {
    hide DecodeString, DecodeSeq, Sound;
    var name := DecodeString(s, p + 1, c);
    StringSound(s, p + 1, c);
    AddOpenSound(name.ctx, VECTOR_OBJECT);
    var c1 := AddObject(name.ctx, Open(VECTOR_OBJECT));
    SeqSound(n, s, name.next, c1, []);
    var values := DecodeSeq(n, s, name.next, c1, []);
    VectorGood(name.value, s[p] == 1, values.value);
    CloseSound(values.ctx, |name.ctx.objects|, Vector(name.value, s[p] == 1, values.value));
  }

  lemma {:induction false} ObjectSound(h: int, s: seq<byte>, p: nat, c: Table)
    requires p <= |s| && Sound(c) && h / 16 < 0x100_0000 && DecodeObject(h, s, p, c).Ok?
    ensures Sound(DecodeObject(h, s, p, c).ctx) && Shaped(DecodeObject(h, s, p, c).value)
    decreases |s| - p, 2
  {
    hide DecodeTraits, DecodeSealed, DecodeProps, Sound, Shaped, GoodTraits, ShapedSeq, NamesFit;
    var t := DecodeTraits(h, s, p, c);
    TraitsSound(h, s, p, c);
    AddOpenSound(t.ctx, OBJECT);
    var c1 := AddObject(t.ctx, Open(OBJECT));
    NoneGood();
    SealedSound(t.value.attributes, s, t.next, c1, NO_PROPS);
    var sealed := DecodeSealed(t.value.attributes, s, t.next, c1, NO_PROPS);
    if t.value.dynamic {
      NoNamesFit();
      PropsSound(s, sealed.next, sealed.ctx, NO_PROPS);
      var dyn := DecodeProps(s, sealed.next, sealed.ctx, NO_PROPS);
      ObjectGood(t.value, sealed.value, dyn.value);
      CloseSound(dyn.ctx, |c.objects|, Object(t.value, sealed.value, dyn.value, 0));
    } else {
      NoNamesFit();
      ObjectGood(t.value, sealed.value, NO_PROPS);
      CloseSound(sealed.ctx, |c.objects|, Object(t.value, sealed.value, NO_PROPS, 0));
    }
  }

  lemma ArrayGood(p: Props<Item>, d: seq<Item>)
    requires NamesFit(p.names) && ShapedSeq(p.values) && ShapedSeq(d) && |d| < U29.LENGTH_LIMIT
    ensures Shaped(Array(p, d))
  {
  }

  lemma VectorGood(t: Text, fixed: bool, v: seq<Item>)
    requires Fits(t) && ShapedSeq(v) && |v| < U29.LENGTH_LIMIT
    ensures Shaped(Vector(t, fixed, v))
  {
  }

  lemma NoneGood()
    ensures ShapedSeq([])
  {
  }

  /** An object with a value for every attribute, duplicates or not, is as good as its parts. */
  lemma ObjectGood(t: Traits, sealed: Props<Item>, dyn: Props<Item>)
    requires GoodTraits(t) && ShapedSeq(sealed.values) && NamesFit(dyn.names) && ShapedSeq(dyn.values)
    requires forall n :: n in t.attributes ==> n in sealed.names
    ensures Shaped(Object(t, sealed, dyn, 0))
  {
    hide Rank, Unique;
    forall i | 0 <= i < |t.attributes| ensures Holds(sealed.names, t.attributes[i]) {
      assert t.attributes[i] in sealed.names;
      RankSplits(sealed.names, t.attributes[i]);
    }
    assert TraitsFit(t);
  }

  lemma {:induction false} SeqSound(n: int, s: seq<byte>, p: nat, c: Table, acc: seq<Item>)
    requires p <= |s| && Sound(c) && ShapedSeq(acc) && DecodeSeq(n, s, p, c, acc).Ok?
    ensures var r := DecodeSeq(n, s, p, c, acc);
      Sound(r.ctx) && ShapedSeq(r.value) && |r.value| == |acc| + if n <= 0 then 0 else n
    decreases |s| - p, 1
  {
    hide Decode, Sound, Shaped;
    if n > 0 {
      var x := Decode(s, p, c);
      DecodeSound(s, p, c);
      SeqSound(n - 1, s, x.next, x.ctx, acc + [x.value]);
    }
  }

  lemma PutGood(acc: Props<Item>, k: Text, x: Item)
    requires ShapedSeq(acc.values) && Shaped(x)
    ensures ShapedSeq(Put(acc, k, x).values)
    ensures NamesFit(acc.names) && k != [] && Fits(k) ==> NamesFit(Put(acc, k, x).names)
  {
    hide Shaped, Insert;
  }

  lemma {:induction false} PropsSound(s: seq<byte>, p: nat, c: Table, acc: Props<Item>)
    requires p <= |s| && Sound(c) && ShapedSeq(acc.values) && NamesFit(acc.names) && DecodeProps(s, p, c, acc).Ok?
    ensures var r := DecodeProps(s, p, c, acc); Sound(r.ctx) && ShapedSeq(r.value.values) && NamesFit(r.value.names)
    decreases |s| - p, 1
  {
    hide Decode, DecodeString, Sound, Shaped, ShapedSeq, NamesFit, Put, Insert;
    var name := DecodeString(s, p, c);
    StringSound(s, p, c);
    if name.value != [] {
      var x := Decode(s, name.next, name.ctx);
      DecodeSound(s, name.next, name.ctx);
      PutGood(acc, name.value, x.value);
      PropsSound(s, x.next, x.ctx, Put(acc, name.value, x.value));
    }
  }

  lemma {:induction false} SealedSound(names: seq<Text>, s: seq<byte>, p: nat, c: Table, acc: Props<Item>)
    requires p <= |s| && Sound(c) && ShapedSeq(acc.values) && DecodeSealed(names, s, p, c, acc).Ok?
    ensures var r := DecodeSealed(names, s, p, c, acc);
      Sound(r.ctx) && ShapedSeq(r.value.values)
      && (forall n :: n in names || n in acc.names ==> n in r.value.names)
    decreases |s| - p, 1
  {
    hide Decode, Sound, Shaped, ShapedSeq, Put;
    if names != [] {
      var x := Decode(s, p, c);
      DecodeSound(s, p, c);
      PutGood(acc, names[0], x.value);
      SealedSound(names[1..], s, x.next, x.ctx, Put(acc, names[0], x.value));
      assert forall n :: n in names ==> n == names[0] || n in names[1..];
    }
  }

  // ----- Accept, then normalise -----

  /** No container is open: between the items of a stream. */
  predicate Settled(c: Table) {
    forall i :: 0 <= i < |c.objects| ==> c.objects[i].Done?
  }

  /** What a graph unfolds to is shaped like the value it stands for, whatever its loops lead to. */
  lemma {:induction false} ClosesShaped(nodes: seq<Node>, tab: seq<Ptr>, c: Table, x: Item, y: Item)
    requires Sound(c) && Settled(c) && TableRep(nodes, tab, c.objects)
    requires Shaped(x) && Closes(nodes, tab, x, y)
    ensures Shaped(y)
    decreases y, if x.Loop? then 1 else 0
  {
    match x
    case Loop(i) =>
      var z := c.objects[i].item;
      assert SlotRep(nodes, tab, Busy(tab, c.objects), tab[i], c.objects[i]);
      UnfoldsIff(nodes, tab, Busy(tab, c.objects), tab[i], z, y);
      ClosesShaped(nodes, tab, c, z, y);
    case Array(p, d) =>
      ClosesShapedSeq(nodes, tab, c, p.values, y.assoc.values);
      ClosesShapedSeq(nodes, tab, c, d, y.dense);
    case Object(_, s, d, _) =>
      ClosesShapedSeq(nodes, tab, c, s.values, y.sealed.values);
      ClosesShapedSeq(nodes, tab, c, d.values, y.dyn.values);
    case Vector(_, _, v) => ClosesShapedSeq(nodes, tab, c, v, y.values);
    case _ =>
  }

  lemma {:induction false} ClosesShapedSeq(nodes: seq<Node>, tab: seq<Ptr>, c: Table, xs: seq<Item>, ys: seq<Item>)
    requires Sound(c) && Settled(c) && TableRep(nodes, tab, c.objects)
    requires ShapedSeq(xs) && ClosesSeq(nodes, tab, xs, ys)
    ensures ShapedSeq(ys)
    decreases ys
  {
    forall i | 0 <= i < |ys| ensures Shaped(ys[i]) { ClosesShaped(nodes, tab, c, xs[i], ys[i]); }
  }

  /** Serialized with and without tables and decoded again, `y` comes back as its canonical form. */
  predicate Normalises(y: Item) {
    var a, b := Encode(y, EMPTY, Compress), Encode(y, EMPTY, Verbatim);
    && a.Wrote? && b.Wrote?
    && Decode(b.bytes, 0, FRESH) == Ok(Canon(y), |b.bytes|, View(b.ctx, {}))
    && (a.exact ==> Decode(a.bytes, 0, FRESH) == Ok(Canon(y), |a.bytes|, View(a.ctx, {})))
  }

  lemma ShapedNormalises(y: Item)
    requires Shaped(y) && NoDouble(y) && LoopFree(y)
    ensures WellFormed(y) && Normalises(y)
  {
    hide Encode, Decode, WellFormed, Canon, Shaped;
    ShapedWellFormed(y);
    assert View(EMPTY, {}) == FRESH;
    CompressionTransparent(y, EMPTY);
    NoExternalQuiet([y]);
    WellFormedStream([y]);
    assert EncodeStream([y]).Wrote? ==> Encode(y, EMPTY, Compress).Wrote?;
  }

  /** Everything decoded between the items of a stream is shaped. */
  lemma AcceptedIsShaped(s: seq<byte>, p: nat, c: Table)
    requires p <= |s| && Sound(c) && Settled(c) && Decode(s, p, c).Ok?
    ensures var r := Decode(s, p, c); Shaped(r.value) && Sound(r.ctx) && Settled(r.ctx)
  {
    DecodeSound(s, p, c);
  }

  /**
    Accept, then normalise. Whatever the decoder makes of any bytes, as an acyclic graph
    without doubles, unfolds to a well-formed item; re-encoding that and decoding again gives
    its canonical form, at once and ever after: without tables always, with tables whenever
    the references fit.
   */
  lemma AcceptThenNormalise(s: seq<byte>, pos: nat, c: Table, nodes: seq<Node>, tab: seq<Ptr>, p: Ptr, y: Item)
    requires pos <= |s| && Sound(c) && Settled(c) && Decode(s, pos, c).Ok?
    requires TableRep(nodes, tab, Decode(s, pos, c).ctx.objects) && Rep(nodes, tab, {}, p, Decode(s, pos, c).value)
    requires Unfolds(nodes, p, y) && NoDouble(y)
    ensures WellFormed(y) && Normalises(y)
  {
    hide Decode, Shaped, NoDouble, Unfolds, Rep, TableRep, WellFormed, Normalises, LoopFree;
    var r := Decode(s, pos, c);
    AcceptedIsShaped(s, pos, c);
    UnfoldsIff(nodes, tab, {}, p, r.value, y);
    ClosesShaped(nodes, tab, r.ctx, r.value, y);
    UnfoldsLoopFree(nodes, p, y);
    ShapedNormalises(y);
  }

  /** In particular, from a fresh context, what is accepted without doubles and loops is well-formed and normalises. */
  lemma AcceptedValueNormalises(s: seq<byte>)
    requires Decode(s, 0, FRESH).Ok? && NoDouble(Decode(s, 0, FRESH).value) && LoopFree(Decode(s, 0, FRESH).value)
    ensures WellFormed(Decode(s, 0, FRESH).value) && Normalises(Decode(s, 0, FRESH).value)
  {
    hide Decode, Shaped, NoDouble, WellFormed, Normalises, LoopFree;
    AcceptedIsShaped(s, 0, FRESH);
    ShapedNormalises(Decode(s, 0, FRESH).value);
  }
}
