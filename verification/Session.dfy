/** `Serializer` and a whole exchange: many items through one serializer and one deserializer. */
module Session {
  import opened Words
  import opened Items
  import opened Encoder
  import opened Decoder
  import opened Invariant
  import opened Equality
  import opened Lockstep
  import opened RoundTrip
  import opened Sharing
  import opened SerializationContexts
  import opened Serialize
  import opened Deserialize
  import opened Heap
  import opened Stream
  import opened Canonical
  import opened Exceptions
  import opened Store
  import U29

  class Serializer {
    const ctx: SerializationContext<Item>
    var buf: seq<byte>
    /** The items written since construction or `clear`. */
    ghost var sent: seq<Item>

    constructor ()
      ensures Valid() && sent == [] && buf == [] && fresh(ctx)
    {
      buf, sent := [], [];
      ctx := new SerializationContext();
    }

    /** Buffer and tables are those of the stream of items sent. */
    ghost predicate Valid()
      reads this, ctx
    {
      var spec := EncodeStream(sent);
      spec.Wrote? && buf == spec.bytes && ctx.Value() == spec.ctx
    }

    /**
      `operator<<`: throws exactly on an item that is not encodable, or when two of the
      objects looked up so far throw in comparison. An exception leaves the buffer alone, the
      tables in an unspecified state.
     */
    method Put(item: Item) returns (ok: bool)
      requires Valid()
      modifies this, ctx
      ensures ok <==> Encodable(item) && Quiet(PartsSeq(old(sent) + [item]))
      ensures ok == EncodeStream(old(sent) + [item]).Wrote?
      ensures ok ==> Valid() && sent == old(sent) + [item] && old(buf) <= buf
      ensures !ok ==> buf == old(buf) && sent == old(sent)
    {
      hide Encode, Encodable, EncodeSeq, Quiet, PartsSeq, Carried;
      StreamThrowsIff(sent);
      StreamThrowsIff(sent + [item]);
      assert EncodableSeq(sent + [item]) <==> EncodableSeq(sent) && Encodable(item) by { LastEncodable(sent, item); }
      ghost var spec := Encode(item, ctx.Value(), Compress);
      EncodeSeqSplit(sent, [item], EMPTY, Compress);
      SingleItem(item, ctx.Value());
      var serialized := SerializeItem(item, ctx);
      if serialized.None? {
        return false;
      }
      buf := buf + serialized.value;
      sent := sent + [item];
      return true;
    }

    method Clear()
      modifies this, ctx
      ensures Valid() && sent == [] && buf == []
    {
      buf, sent := [], [];
      ctx.Clear();
    }
  }

  lemma LastEncodable(xs: seq<Item>, x: Item)
    ensures EncodableSeq(xs + [x]) <==> EncodableSeq(xs) && Encodable(x)
  {
    hide Encodable;
    assert (xs + [x])[|xs|] == x && forall i :: 0 <= i < |xs| ==> (xs + [x])[i] == xs[i];
  }

  lemma SingleItem(x: Item, c: Context)
    ensures EncodeSeq([x], c, Compress) == Encode(x, c, Compress)
  {
  }

  /** The object table entries of the containers among the next `n` items. */
  function Entries(n: nat, s: seq<byte>, p: nat, c: Table): seq<Option<nat>>
    requires p <= |s|
    decreases n
  {
    if n == 0 then [] else
      var x := Decode(s, p, c);
      [Entry(s, p, c)] + if x.Bad? then [] else Entries(n - 1, s, x.next, x.ctx)
  }

  /** Every container was returned by the pointer in its entry. */
  predicate EnteredAll(ps: seq<Ptr>, entries: seq<Option<nat>>, tab: seq<Ptr>) {
    |ps| == |entries| && forall i :: 0 <= i < |ps| && entries[i].Some? ==>
      entries[i].value < |tab| && ps[i] == tab[entries[i].value]
  }

  /** Read `n` items one after the other with one context. */
  method ReadAll(d: Deserializer, n: nat) returns (ps: Option<seq<Ptr>>)
    requires d.Linked(FRESH) && d.it == 0 && d.nodes == []
    modifies d, d.ctx
    ensures var r := DecodeSeq(n, d.data, 0, FRESH, []);
      ps.Some? == r.Ok?
      && (r.Ok? ==> (d.it == r.next && d.Linked(r.ctx) && d.StandAll(ps.value, r.value, r.ctx) && |d.nodes| <= d.it))
    ensures ps.Some? ==> EnteredAll(ps.value, Entries(n, d.data, 0, FRESH), d.ctx.objects)
  {
    hide TableRep, Built, RepSeq, Rep, Decode, Settles, Entry;
    ghost var now: Table, acc: seq<Item>, entries: seq<Option<nat>> := FRESH, [], [];
    EmptyStands(d.nodes, d.ctx.objects, Busy(d.ctx.objects, FRESH.objects));
    var read: seq<Ptr> := [];
    for i := 0 to n
      invariant d.Linked(now) && d.StandAll(read, acc, now) && |d.nodes| <= d.it
      invariant DecodeSeq(n, d.data, 0, FRESH, []) == DecodeSeq(n - i, d.data, d.it, now, acc)
      invariant EnteredAll(read, entries, d.ctx.objects)
      invariant Entries(n, d.data, 0, FRESH) == entries + Entries(n - i, d.data, d.it, now)
    {
      ghost var k := Entry(d.data, d.it, now);
      ghost var dx := Decode(d.data, d.it, now);
      ghost var nodes0, tab0 := d.nodes, d.ctx.objects;
      var val := d.Deserialize(now);
      if val.None? {
        return None;
      }
      assert Settles(now, dx.ctx);
      SettlesMeans(now, dx.ctx);
      ChildRead(nodes0, tab0, now.objects, d.nodes, d.ctx.objects, dx.ctx.objects, read, acc);
      PushRep(d.nodes, d.ctx.objects, Busy(d.ctx.objects, dx.ctx.objects), read, acc, val.value, dx.value);
      ghost var rest := Entries(n - i - 1, d.data, d.it, dx.ctx);
      assert entries + ([k] + rest) == entries + [k] + rest;
      read, acc, now, entries := read + [val.value], acc + [dx.value], dx.ctx, entries + [k];
    }
    return Some(read);
  }

  lemma SettlesMeans(c: Table, d: Table)
    requires Settles(c, d)
    ensures c.objects <= d.objects && forall i :: |c.objects| <= i < |d.objects| ==> d.objects[i].Done?
  {
  }

  // ----- Which pointers are the same -----

  lemma FirstByte(x: Item, c: Context)
    requires WellFormed(x) && Encode(x, c, Compress).Wrote?
    ensures var b := Encode(x, c, Compress).bytes; b != [] && b[0] == Marker(x)
  {
    hide U29.Write, EncodeString, EncodeBody;
  }

  lemma ContainerMarkers(x: Item)
    ensures ContainerMarker(Marker(x)) <==> Container(x)
  {
  }

  /** The decoder's entry for an item is the encoder's. */
  lemma EntryOfItem(x: Item, c: Context, s: seq<byte>, p: nat)
    requires WellFormed(x) && Consistent(c, Compress)
    requires Encode(x, c, Compress).Wrote? && Encode(x, c, Compress).exact && At(s, p, Encode(x, c, Compress).bytes)
    ensures Entry(s, p, View(c, {})) == if Container(x) then Some(ObjectIndex(c, x, Compress)) else None
  {
    hide U29.Read, EncodeBody, WellFormed, Depth, View, ObjectIndex, Consistent, Marker, Extends, Settles, Canon,
         DecodeBody;
    var b := Encode(x, c, Compress).bytes;
    FirstByte(x, c);
    ContainerMarkers(x);
    assert s[p] == s[p..p + |b|][0] == b[0];
    if Container(x) {
      var i := ObjectIndex(c, x, Compress);
      if i < |c.objects| {
        assert b == [Marker(x)] + [U8(2 * i)];
        AtSplit(s, p, [Marker(x)], [U8(2 * i)]);
        ReadSmall(s, p + 1, 2 * i);
      } else {
        AtSplit(s, p, [Marker(x)], EncodeBody(x, AddObject(c, x), Compress).bytes);
        RoundTripBody(x, c, Compress, {}, s, p + 1);
      }
    }
  }

  /** And it is the one the item has in the tables of the whole stream. */
  lemma {:induction false} EntriesOfStream(xs: seq<Item>, c: Context, s: seq<byte>, p: nat)
    requires WellFormedSeq(xs) && Consistent(c, Compress)
    requires var r := EncodeSeq(xs, c, Compress); r.Wrote? && r.exact && At(s, p, r.bytes)
    ensures var all := EncodeSeq(xs, c, Compress).ctx;
      var r := Entries(|xs|, s, p, View(c, {}));
      |r| == |xs|
      && forall i :: 0 <= i < |xs| ==>
                       r[i] == if Container(xs[i]) then Some(ObjectIndex(all, xs[i], Compress)) else None
    decreases xs
  {
    hide Encode, Decode, WellFormed, View, Consistent, At, Entry, ObjectIndex;
    if xs != [] {
      var first := Encode(xs[0], c, Compress);
      var rest := EncodeSeq(xs[1..], first.ctx, Compress);
      AtSplit(s, p, first.bytes, rest.bytes);
      EntryOfItem(xs[0], c, s, p);
      RoundTripItem(xs[0], c, Compress, {}, s, p);
      EncodeKeeps(xs[0], c, Compress);
      EntriesOfStream(xs[1..], first.ctx, s, p + |first.bytes|);
      SeqKeeps(xs[1..], first.ctx, Compress);
      if Container(xs[0]) { SentAgain(xs[0], c, rest.ctx); }
    }
  }

  /** In the final tables two items have one entry exactly when they are equal. */
  lemma SameEntryIff(xs: seq<Item>, i: nat, j: nat)
    requires i < |xs| && j < |xs| && Tabled(xs[i]) && Tabled(xs[j]) && EncodeStream(xs).Wrote?
    ensures var all := EncodeStream(xs).ctx;
      ObjectIndex(all, xs[i], Compress) == ObjectIndex(all, xs[j], Compress) <==> Eq(xs[i], xs[j])
  {
    hide Encode, Eq, ObjectIndex, Consistent, FirstEqual;
    var all := EncodeStream(xs).ctx;
    StreamInvariant(xs);
    EmptyConsistent();
    Sent(xs, EMPTY, i);
    Sent(xs, EMPTY, j);
    var a, b := ObjectIndex(all, xs[i], Compress), ObjectIndex(all, xs[j], Compress);
    if a == b {
      EqSymmetric(all.objects[a], xs[i]);
      EqTransitive(xs[i], all.objects[a], xs[j]);
    }
    if Eq(xs[i], xs[j]) {
      EqTransitive(all.objects[a], xs[i], xs[j]);
      LookupUnique(all, a, xs[j]);
    }
  }

  lemma EmptyConsistent()
    ensures Consistent(EMPTY, Compress)
  {
  }

  lemma {:induction false} Sent(xs: seq<Item>, c: Context, i: nat)
    requires i < |xs| && Tabled(xs[i]) && Consistent(c, Compress) && EncodeSeq(xs, c, Compress).Wrote?
    ensures var all := EncodeSeq(xs, c, Compress).ctx;
      var k := ObjectIndex(all, xs[i], Compress);
      k < |all.objects| && Eq(all.objects[k], xs[i])
    decreases xs
  {
    hide Encode, Eq, ObjectIndex, Consistent;
    var first := Encode(xs[0], c, Compress);
    EncodeKeeps(xs[0], c, Compress);
    if i == 0 {
      SeqKeeps(xs[1..], first.ctx, Compress);
      SentAgain(xs[0], c, EncodeSeq(xs[1..], first.ctx, Compress).ctx);
    } else {
      Sent(xs[1..], first.ctx, i - 1);
    }
  }

  lemma Injective(nodes: seq<Node>, tab: seq<Ptr>, slots: seq<Slot>)
    requires TableRep(nodes, tab, slots)
    ensures forall i, j :: 0 <= i < j < |tab| ==> tab[i] != tab[j]
  {
  }

  /** All items go through one new serializer. */
  method SendAll(xs: seq<Item>) returns (buf: seq<byte>)
    requires EncodeStream(xs).Wrote?
    ensures buf == EncodeStream(xs).bytes
  {
    hide Encode, EncodeSeq, Encodable, Quiet;
    var s := new Serializer();
    for i := 0 to |xs|
      invariant s.Valid() && s.sent == xs[..i] && fresh(s) && fresh(s.ctx)
    {
      assert xs[..i + 1] + xs[i + 1..] == xs && xs[..i] + [xs[i]] == xs[..i + 1];
      EncodeSeqSplit(xs[..i + 1], xs[i + 1..], EMPTY, Compress);
      var ok := s.Put(xs[i]);
    }
    assert xs[..|xs|] == xs;
    return s.buf;
  }

  /** In a table without duplicates, containers are at one node exactly when their entries are one. */
  lemma OneNodeIff(xs: seq<Item>, ps: seq<Ptr>, entries: seq<Option<nat>>, tab: seq<Ptr>)
    requires EncodeStream(xs).Wrote? && |ps| == |xs| && EnteredAll(ps, entries, tab)
    requires forall i, j :: 0 <= i < j < |tab| ==> tab[i] != tab[j]
    requires forall i :: 0 <= i < |xs| ==>
      entries[i] == if Container(xs[i]) then Some(ObjectIndex(EncodeStream(xs).ctx, xs[i], Compress)) else None
    ensures forall i, j :: 0 <= i < |xs| && 0 <= j < |xs| && Container(xs[i]) && Container(xs[j]) ==>
      (ps[i] == ps[j] <==> Eq(xs[i], xs[j]))
  {
    hide EncodeStream, ObjectIndex, Eq;
    forall i, j | 0 <= i < |xs| && 0 <= j < |xs| && Container(xs[i]) && Container(xs[j])
      ensures ps[i] == ps[j] <==> Eq(xs[i], xs[j])
    {
      SameEntryIff(xs, i, j);
    }
  }

  /**
    A whole exchange, through buffers, tables and pointers: every well-formed item whose
    references fit arrives as an acyclic graph that unfolds to its canonical form, the
    input is used up, and no more nodes were built than bytes sent. Two of the containers
    sent arrive as one node exactly when they were equal; no two containers in the whole
    store are alike exactly if nothing sent differs only in what is not serialized. The
    store is as comparing pointers asks.
   */
  method Exchange(xs: seq<Item>) returns (buf: seq<byte>, d: Deserializer, ps: seq<Ptr>)
    requires WellFormedSeq(xs) && Quiet(PartsSeq(xs)) && (EncodeStream(xs).Wrote? ==> EncodeStream(xs).exact)
    ensures EncodeStream(xs).Wrote? && buf == EncodeStream(xs).bytes
    ensures d.data == buf && d.it == |buf| && |d.nodes| <= |buf|
    ensures Labelled(d.nodes) && exists rank :: Acyclic(d.nodes, rank)
    ensures OneEach(d.nodes) <==> Telling(PartsSeq(xs))
    ensures |ps| == |xs| && forall i :: 0 <= i < |xs| ==> Unfolds(d.nodes, ps[i], Canon(xs[i]))
    ensures forall i, j :: 0 <= i < |xs| && 0 <= j < |xs| && Container(xs[i]) && Container(xs[j]) ==>
              (ps[i] == ps[j] <==> Eq(xs[i], xs[j]))
  {
    hide Encode, EncodeSeq, DecodeSeq, WellFormed, Quiet, PartsSeq, Unfolds, Canon, TableRep, Rep, LoopFree, Entries,
         ObjectIndex, Eq, Labelled, Telling, Acyclic, OneEach, AllUnfold;
    WellFormedStream(xs);
    buf := SendAll(xs);
    d := new Deserializer(buf);
    assert xs[..|xs|] == xs && View(EMPTY, {}) == FRESH;
    StreamRoundTrip(xs, |xs|);
    var read := ReadAll(d, |xs|);
    ps := read.value;
    CanonLoopFreeSeq(xs);
    ghost var all := EncodeStream(xs).ctx;
    ghost var slots := View(all, {}).objects;
    RepUnfoldsSeq(d.nodes, d.ctx.objects, Busy(d.ctx.objects, slots), ps, CanonSeq(xs));
    assert buf[0..|buf|] == buf;
    EntriesOfStream(xs, EMPTY, buf, 0);
    Injective(d.nodes, d.ctx.objects, slots);
    OneNodeIff(xs, ps, Entries(|xs|, buf, 0, FRESH), d.ctx.objects);
    StreamEntries(xs);
    StoreUnfolds(all, d.nodes, d.ctx.objects, d.it);
    AcyclicIff(d.nodes);
    OneEachIff(xs, d.nodes, d.ctx.objects, d.it);
  }
}
