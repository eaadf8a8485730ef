/** Where the encoding stops being faithful: one-byte references, doubles, wide integers. */
module Limits {
  import opened Words
  import opened Names
  import opened Items
  import opened Encoder
  import opened Decoder
  import opened Invariant
  import opened Lockstep
  import opened RoundTrip
  import opened Equality
  import opened Stream
  import U29

  // ----- One-byte references -----

  /** Reading a byte with its high bit set takes more than that byte; any other byte is the value. */
  lemma ReadOne(b: byte, rest: seq<byte>)
    ensures b < 128 ==> U29.Read([b] + rest, 0) == U29.Got(b, 1)
    ensures b >= 128 ==> U29.Read([b] + rest, 0).Short? || U29.Read([b] + rest, 0).next > 1
  {
  }

  /** The byte `u8(index << 1)` reads back as the reference it stands for exactly below 64. */
  lemma ReferenceLimit(i: nat, rest: seq<byte>)
    ensures U29.Read([U8(2 * i)] + rest, 0) == U29.Got(2 * i, 1) <==> i < 64
  {
  }

  /** A length header reads back as an odd non-negative number, so never as a reference. */
  lemma LengthIsNoReference(n: nat, rest: seq<byte>)
    requires n < U29.LENGTH_LIMIT
    ensures var h := U29.Read(LengthHeader(n) + rest, 0);
      h == U29.Got(2 * n + 1, |LengthHeader(n)|) && h.value >= 0 && h.value % 2 == 1 && h.value / 2 == n
  {
    hide U29.Read, U29.Write;
    var s := LengthHeader(n) + rest;
    assert s[0..|LengthHeader(n)|] == LengthHeader(n);
    ReadLength(s, 0, n);
  }

  /** A known string comes back by its reference exactly when it is among the first 64. */
  lemma StringReferenceLimit(c: Context, i: nat, rest: seq<byte>)
    requires Consistent(c, Compress) && i < |c.strings|
    ensures var b := Encode(Str(c.strings[i]), c, Compress).bytes;
      Decode(b + rest, 0, View(c, {})) == Ok(Str(c.strings[i]), 2, View(c, {})) <==> i < 64
  {
    hide U29.Read, U8, View, FirstIndex;
    var t := c.strings[i];
    LookupUnique(c, i, Null);
    assert Encode(Str(t), c, Compress).bytes == [STRING, U8(2 * i)];
    var s := [STRING, U8(2 * i)] + rest;
    assert s[0] == STRING;
    ReadReference(STRING, i, rest);
    assert View(c, {}).strings == c.strings by { ViewMeans(c); }
    if i >= 64 && i % 128 < 64 {
      assert c.strings[i % 128] != t;
    }
  }

  /** What a reference header reads as: the index itself, the index modulo 128, or nothing that stops in time. */
  lemma ReadReference(m: byte, i: nat, rest: seq<byte>)
    ensures var h := U29.Read([m, U8(2 * i)] + rest, 1);
      if i % 128 < 64 then h == U29.Got(2 * (i % 128), 2) else h.Short? || h.next > 2
    ensures i % 128 < 64 ==> 2 * (i % 128) % 2 == 0 && 2 * (i % 128) / 2 == i % 128
    ensures i < 64 ==> i % 128 == i
    ensures i >= 64 && i % 128 < 64 ==> i % 128 < i
  {
    hide U29.Read;
    WrappedIndex(i);
    ShiftedRead(m, U8(2 * i), rest);
    ReadOne(U8(2 * i), rest);
  }

  lemma WrappedIndex(i: nat)
    ensures U8(2 * i) == 2 * (i % 128)
  {
  }

  lemma {:induction false} ScanShifted(a: byte, s: seq<byte>, p: nat, i: nat, val: nat)
    requires p < |s|
    ensures var x, y := U29.Scan([a] + s, p + 1, i, val), U29.Scan(s, p, i, val);
      x.Short? == y.Short? && (y.Got? ==> x == U29.Got(y.value, y.next + 1))
    decreases |s| - p
  {
    assert ([a] + s)[p + 1] == s[p];
    if i < 3 && s[p] >= 0x80 && p + 1 < |s| {
      ScanShifted(a, s, p + 1, i + 1, val * 0x80 + s[p] % 0x80);
    }
  }

  /** An integer reads the same one byte further on. */
  lemma ShiftedRead(a: byte, b: byte, rest: seq<byte>)
    ensures var x, y := U29.Read([a, b] + rest, 1), U29.Read([b] + rest, 0);
      x.Short? == y.Short? && (y.Got? ==> x == U29.Got(y.value, y.next + 1))
  {
    assert [a, b] + rest == [a] + ([b] + rest);
    ScanShifted(a, [b] + rest, 0, 0, 0);
  }

  /**
    A known object comes back by its reference exactly when it is among the first 64,
    unless an object registered before it has the same canonical form.
   */
  lemma ObjectReferenceLimit(c: Context, i: nat, rest: seq<byte>)
    requires Consistent(c, Compress) && i < |c.objects| && Tabled(c.objects[i])
    requires forall j :: 0 <= j < i ==> Canon(c.objects[j]) != Canon(c.objects[i])
    ensures Encode(c.objects[i], c, Compress).Wrote?
    ensures var b := Encode(c.objects[i], c, Compress).bytes;
      Decode(b + rest, 0, View(c, {})) == Ok(Canon(c.objects[i]), 2, View(c, {})) <==> i < 64
  {
    hide U29.Read, U8, View, FirstEqual, Canon, Eq, Consistent, Marker;
    var x := c.objects[i];
    EqReflexive(x);
    KnownIsFound(c, i, x);
    assert Encode(x, c, Compress).bytes == [Marker(x), U8(2 * i)];
    var s := [Marker(x), U8(2 * i)] + rest;
    assert s[0] == Marker(x);
    TabledMarker(x);
    ReadReference(Marker(x), i, rest);
    ViewMeans(c);
    CanonMarker(x);
  }

  lemma TabledMarker(x: Item)
    requires Tabled(x)
    ensures Marker(x) in {XMLDOC, XML, BYTEARRAY, VECTOR_INT, VECTOR_UINT, ARRAY, OBJECT, VECTOR_OBJECT}
  {
  }

  /** What a traits reference header reads as: the index itself, the index modulo 64, or nothing that stops in time. */
  lemma ReadTraitsReference(i: nat, rest: seq<byte>)
    ensures var h := U29.Read([U8(4 * i + 1)] + rest, 0);
      if i % 64 < 32 then h == U29.Got(4 * (i % 64) + 1, 1) else h.Short? || h.next > 1
    ensures i % 64 < 32 ==> (4 * (i % 64) + 1) % 4 == 1 && (4 * (i % 64) + 1) / 4 == i % 64
    ensures i < 32 ==> i % 64 == i
    ensures i >= 32 && i % 64 < 32 ==> i % 64 < i
  {
    hide U29.Read;
    WrappedTraitsIndex(i);
    ReadOne(U8(4 * i + 1), rest);
  }

  lemma WrappedTraitsIndex(i: nat)
    ensures U8(4 * i + 1) == 4 * (i % 64) + 1
  {
  }

  /**
    Known traits come back by their reference exactly when they are among the first 32,
    unless traits registered before them differ only in the order of their attributes.
   */
  lemma TraitsReferenceLimit(c: Context, i: nat, rest: seq<byte>)
    requires Consistent(c, Compress) && i < |c.traits| && !c.traits[i].externalizable
    requires forall j :: 0 <= j < i ==> CanonTraits(c.traits[j]) != CanonTraits(c.traits[i])
    ensures EncodeTraits(c.traits[i], c, Compress).Wrote? && EncodeTraits(c.traits[i], c, Compress).ctx == c
    ensures var s := EncodeTraits(c.traits[i], c, Compress).bytes + rest;
      var h := U29.Read(s, 0);
      (h.Got? && DecodeTraits(h.value, s, h.next, View(c, {})) == Ok(CanonTraits(c.traits[i]), 1, View(c, {})))
      <==> i < 32
  {
    hide U29.Read, U8, View, Unique, EncodeString, EncodeNames, DecodeString, DecodeNames, FirstIndex, Consistent;
    var t := c.traits[i];
    LookupUnique(c, i, Null);
    DroppedNameIsSilent(t, c);
    assert EncodeTraits(t, c, Compress) == Wrote([U8(4 * i + 1)], c, i < 32);
    ReadTraitsReference(i, rest);
    ViewMeans(c);
  }

  // ----- Streams of strings: the exact condition -----

  function Strings(ts: seq<Text>): (r: seq<Item>)
    ensures |r| == |ts|
  {
    seq(|ts|, i requires 0 <= i < |ts| => Str(ts[i]))
  }

  /** The string table once `t` has been sent too. */
  function Next(known: seq<Text>, t: Text): seq<Text> {
    if t == [] || t in known then known else known + [t]
  }

  /** The string table once `ts` have been sent: the distinct non-empty strings, in order of their first appearance. */
  function Firsts(known: seq<Text>, ts: seq<Text>): (r: seq<Text>)
    ensures known <= r
    decreases ts
  {
    if ts == [] then known
    else Firsts(Next(known, ts[0]), ts[1..])
  }

  /** The `j`-th string is not empty and was known before or sent before. */
  predicate Again(known: seq<Text>, ts: seq<Text>, j: nat)
    requires j < |ts|
  {
    ts[j] != [] && (ts[j] in known || ts[j] in ts[..j])
  }

  /** Every string that is sent again is among the first 64 distinct ones. */
  predicate Early(known: seq<Text>, ts: seq<Text>) {
    forall j :: 0 <= j < |ts| && Again(known, ts, j) ==> FirstIndex(Firsts(known, ts), ts[j]) < 64
  }

  lemma {:induction false} FirstIndexKept(known: seq<Text>, all: seq<Text>, t: Text)
    requires known <= all && t in known
    ensures FirstIndex(all, t) == FirstIndex(known, t) < |known|
  {
    if known[0] != t { FirstIndexKept(known[1..], all[1..], t); }
  }

  lemma FirstIndexAbsent(known: seq<Text>, t: Text)
    requires t !in known
    ensures FirstIndex(known, t) == |known|
  {
  }

  lemma AgainShift(known: seq<Text>, ts: seq<Text>, j: nat)
    requires 0 < j < |ts|
    ensures Again(known, ts, j) <==> Again(Next(known, ts[0]), ts[1..], j - 1)
  {
    assert ts[..j] == [ts[0]] + ts[1..][..j - 1];
  }

  /** One string off the front. */
  lemma EarlySplit(known: seq<Text>, ts: seq<Text>)
    requires ts != []
    ensures Early(known, ts) <==>
      (ts[0] != [] && ts[0] in known ==> FirstIndex(known, ts[0]) < 64) && Early(Next(known, ts[0]), ts[1..])
  {
    hide FirstIndex, Again, Next;
    var all, next, rest := Firsts(known, ts), Next(known, ts[0]), ts[1..];
    FirstAgain(known, ts);
    assert all == Firsts(next, rest) by { FirstsStep(known, ts); }
    forall j | 0 < j < |ts|
      ensures ts[j] == rest[j - 1] && (Again(known, ts, j) <==> Again(next, rest, j - 1))
    {
      AgainShift(known, ts, j);
    }
    forall j | 0 <= j < |rest| ensures rest[j] == ts[j + 1] && (Again(known, ts, j + 1) <==> Again(next, rest, j)) {
      AgainShift(known, ts, j + 1);
    }
  }

  lemma FirstsStep(known: seq<Text>, ts: seq<Text>)
    requires ts != []
    ensures Firsts(known, ts) == Firsts(Next(known, ts[0]), ts[1..])
  {
  }

  lemma FirstAgain(known: seq<Text>, ts: seq<Text>)
    requires ts != []
    ensures Again(known, ts, 0) <==> ts[0] != [] && ts[0] in known
    ensures ts[0] in known ==> FirstIndex(Firsts(known, ts), ts[0]) == FirstIndex(known, ts[0])
  {
    if ts[0] in known { FirstIndexKept(known, Firsts(known, ts), ts[0]); }
  }

  lemma StringStep(t: Text, c: Context)
    requires Fits(t)
    ensures var r := Encode(Str(t), c, Compress);
      r.Wrote? && (r.exact <==> (t != [] && t in c.strings ==> FirstIndex(c.strings, t) < 64))
      && r.ctx.strings == Next(c.strings, t)
  {
    hide LengthHeader, Small, Extends;
    if t in c.strings {
      FirstIndexKept(c.strings, c.strings, t);
    } else {
      FirstIndexAbsent(c.strings, t);
    }
  }

  lemma StringsStep(ts: seq<Text>, c: Context)
    requires ts != [] && Encode(Str(ts[0]), c, Compress).Wrote?
    ensures var first := Encode(Str(ts[0]), c, Compress);
      EncodeSeq(Strings(ts), c, Compress) == Join(first, EncodeSeq(Strings(ts[1..]), first.ctx, Compress))
  {
    hide Encode, Extends, Small;
    assert Strings(ts)[0] == Str(ts[0]) && Strings(ts)[1..] == Strings(ts[1..]);
  }

  /** All references written fit exactly when no string is sent again too late. */
  lemma {:induction false} ExactIff(ts: seq<Text>, c: Context)
    requires forall i :: 0 <= i < |ts| ==> Fits(ts[i])
    ensures var r := EncodeSeq(Strings(ts), c, Compress); r.Wrote? && (r.exact <==> Early(c.strings, ts))
    decreases ts
  {
    if ts == [] {
      assert Strings(ts) == [];
    } else {
      hide Encode, EncodeSeq, Strings, FirstIndex, Firsts, Early, Next, Extends, Small;
      EarlySplit(c.strings, ts);
      StringStep(ts[0], c);
      StringsStep(ts, c);
      ExactIff(ts[1..], Encode(Str(ts[0]), c, Compress).ctx);
    }
  }

  lemma {:induction false} DecodeSeqKeepsPrefix(n: int, s: seq<byte>, p: nat, c: Table, acc: seq<Item>)
    requires p <= |s| && DecodeSeq(n, s, p, c, acc).Ok?
    ensures acc <= DecodeSeq(n, s, p, c, acc).value
    decreases |s| - p
  {
    hide Decode;
    if n > 0 {
      var x := Decode(s, p, c);
      DecodeSeqKeepsPrefix(n - 1, s, x.next, x.ctx, acc + [x.value]);
    }
  }

  /**
    A string reference that does not fit is read as a different string or not at all: either
    its low seven bits are another index, or it swallows the marker of the string after it.
   */
  lemma MisreadString(c: Context, i: nat, s: seq<byte>, p: nat)
    requires Consistent(c, Compress) && 64 <= i < |c.strings| && At(s, p, [STRING, U8(2 * i)])
    requires p + 2 < |s| ==> s[p + 2] == STRING
    ensures var x := Decode(s, p, View(c, {})); x.Ok? ==> x.value != Str(c.strings[i])
  {
    hide U29.Read, View;
    var b: byte := U8(2 * i);
    U29.AtBytes(s, p, [STRING, b]);
    assert s[p + 0] == STRING && s[p + 1] == b;
    ViewMeans(c);
    WrappedIndex(i);
    U29.ReadShape(s, p + 1);
    if b < 128 {
      assert c.strings[i % 128] != c.strings[i];
    } else if p + 2 < |s| {
      SwallowedMarker(i);
      var j := U29.Value2(b, STRING) / 2;
      assert j < |c.strings| ==> c.strings[j] != c.strings[i];
    }
  }

  lemma SwallowedMarker(i: nat)
    requires U8(2 * i) >= 128
    ensures var v := U29.Value2(U8(2 * i), STRING); v % 2 == 0 && v / 2 != i && v >= 0
  {
    WrappedIndex(i);
    var k := i % 128;
    assert U29.Value2(U8(2 * i), STRING) == 2 * (128 * (k - 64) + 3);
    assert i % 128 >= 64 && (128 * (k - 64) + 3) % 128 == 3;
  }

  lemma {:induction false} StringsMisread(ts: seq<Text>, c: Context, s: seq<byte>, p: nat, acc: seq<Item>)
    requires (forall i :: 0 <= i < |ts| ==> Fits(ts[i])) && Consistent(c, Compress)
    requires var r := EncodeSeq(Strings(ts), c, Compress);
      r.Wrote? && !r.exact && At(s, p, r.bytes) && p + |r.bytes| == |s|
    ensures var d := DecodeSeq(|ts|, s, p, View(c, {}), acc); d.Ok? ==> d.value != acc + Strings(ts)
    decreases ts
  {
    hide Encode, Decode, EncodeSeq, View, Consistent, At, Extends, Small, Settles;
    NothingToMisread(c);
    assert ts != [];
    var x := Str(ts[0]);
    var first := Encode(x, c, Compress);
    StringStep(ts[0], c);
    StringsStep(ts, c);
    assert Strings(ts) == [x] + Strings(ts[1..]);
    var rest := EncodeSeq(Strings(ts[1..]), first.ctx, Compress);
    AtSplit(s, p, first.bytes, rest.bytes);
    var d := DecodeSeq(|ts|, s, p, View(c, {}), acc);
    var y := Decode(s, p, View(c, {}));
    if first.exact {
      RoundTripItem(x, c, Compress, {}, s, p);
      EncodeKeeps(x, c, Compress);
      StringsMisread(ts[1..], first.ctx, s, p + |first.bytes|, acc + [x]);
      assert acc + [x] + Strings(ts[1..]) == acc + Strings(ts);
    } else {
      InexactString(ts[0], c);
      var i := StringIndex(c, ts[0], Compress);
      NextMarker(ts[1..], first.ctx, s, p + 2);
      MisreadString(c, i, s, p);
      if d.Ok? {
        DecodeSeqKeepsPrefix(|ts| - 1, s, y.next, y.ctx, acc + [y.value]);
        assert d.value[|acc|] == y.value && (acc + Strings(ts))[|acc|] == x;
      }
    }
  }

  lemma NothingToMisread(c: Context)
    ensures EncodeSeq(Strings([]), c, Compress) == Put1([], c)
  {
  }

  lemma InexactString(t: Text, c: Context)
    requires Encode(Str(t), c, Compress).Wrote? && !Encode(Str(t), c, Compress).exact
    ensures var i := StringIndex(c, t, Compress);
      64 <= i < |c.strings| && c.strings[i] == t && Encode(Str(t), c, Compress).bytes == [STRING, U8(2 * i)]
  {
  }

  lemma NextMarker(ts: seq<Text>, c: Context, s: seq<byte>, p: nat)
    requires EncodeSeq(Strings(ts), c, Compress).Wrote? && At(s, p, EncodeSeq(Strings(ts), c, Compress).bytes)
    requires p + |EncodeSeq(Strings(ts), c, Compress).bytes| == |s|
    ensures p < |s| ==> s[p] == STRING
  {
    hide EncodeString;
    var b := EncodeSeq(Strings(ts), c, Compress).bytes;
    if p < |s| {
      assert ts != [] && b[0] == STRING;
      assert s[p..p + |b|][0] == s[p];
    }
  }

  /**
    A stream of strings comes back if and only if every non-empty string that is sent again
    is among the first 64 distinct ones.
   */
  lemma StringStreamIff(ts: seq<Text>)
    requires forall i :: 0 <= i < |ts| ==> Fits(ts[i])
    ensures var r := EncodeStream(Strings(ts));
      r.Wrote? && (Early([], ts) <==>
        DecodeSeq(|ts|, r.bytes, 0, FRESH, []) == Ok(Strings(ts), |r.bytes|, View(r.ctx, {})))
  {
    hide Encode, Decode, EncodeSeq, DecodeSeq, Early;
    var xs := Strings(ts);
    assert WellFormedSeq(xs);
    ExactIff(ts, EMPTY);
    var r := EncodeStream(xs);
    assert View(EMPTY, {}) == FRESH;
    if r.exact {
      assert xs[..|ts|] == xs;
      StreamRoundTrip(xs, |ts|);
      CanonOfStrings(ts);
    } else {
      assert r.bytes[0..|r.bytes|] == r.bytes;
      StringsMisread(ts, EMPTY, r.bytes, 0, []);
      assert [] + xs == xs;
    }
  }

  lemma CanonOfStrings(ts: seq<Text>)
    ensures CanonSeq(Strings(ts)) == Strings(ts)
  {
  }

  // ----- Integers -----

  /** An `int` comes back as an integer exactly when it is in the 29-bit range. */
  lemma IntegerRoundTripIff(v: int, c: Context)
    requires -0x8000_0000 <= v < 0x8000_0000
    ensures var r := Encode(Integer(v), c, Compress);
      Decode(r.bytes, 0, View(c, {})) == Ok(Integer(v), |r.bytes|, View(c, {})) <==> U29.MIN <= v <= U29.MAX
  {
    hide U29.Read, U29.Write, View;
    var b := Encode(Integer(v), c, Compress).bytes;
    if U29.MIN <= v <= U29.MAX {
      assert b[0..|b|] == b;
      RoundTripSimple(Integer(v), c, Compress, {}, b, 0);
    } else {
      assert b[0] == DOUBLE;
    }
  }
}
