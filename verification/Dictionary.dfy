/**
  `AmfDictionary` with items of the modelled fragment as keys and values, `asString` off. Its
  `unordered_map` is the sequence of its entries in the order it happens to be enumerated in.
 */
module Dictionary {
  import opened Words
  import opened Items
  import opened Encoder
  import opened Decoder
  import opened Invariant
  import opened Equality
  import opened Lockstep
  import opened RoundTrip
  import opened Canonical
  import opened SerializationContexts
  import opened Serialize
  import U29

  const DICTIONARY: byte := 17

  datatype Entry = Entry(key: Item, value: Item)

  datatype Dictionary = Dictionary(entries: seq<Entry>, weak: bool)

  /**
    The dictionary's own entry in the object table of `c`. No item of the fragment equals a
    dictionary or has its class, so a stand-in that equals no item does for it.
   */
  function StandIn(c: Context): Item {
    Loop(|c.objects|)
  }

  /** The dictionaries in an object table, in the order of their entries. */
  datatype Known = Known(index: nat, dict: Dictionary)

  /** `unordered_map::find`: the value under the first equal key. */
  function Lookup(es: seq<Entry>, k: Item): Option<Item> {
    if es == [] then None else if Eq(es[0].key, k) then Some(es[0].value) else Lookup(es[1..], k)
  }

  /** `AmfDictionary::operator==`: the same flags, as many entries, and an equal value under every key of the first. */
  predicate SameDictionary(a: Dictionary, b: Dictionary) {
    && a.weak == b.weak && |a.entries| == |b.entries|
    && forall i :: 0 <= i < |a.entries| ==>
                     var v := Lookup(b.entries, a.entries[i].key); v.Some? && Eq(a.entries[i].value, v.value)
  }

  /** `getIndex` of a dictionary: the first known one that compares equal, or the length. */
  function FirstSame(known: seq<Known>, d: Dictionary): (r: nat)
    ensures r <= |known|
    ensures r < |known| ==> SameDictionary(known[r].dict, d)
    ensures forall k :: 0 <= k < r ==> !SameDictionary(known[k].dict, d)
  {
    if known == [] || SameDictionary(known[0].dict, d) then 0 else 1 + FirstSame(known[1..], d)
  }

  // ----- Encoding -----

  /** `AmfDictionary::serialize`: a reference to an equal dictionary, or the entries. */
  function EncodeDictionary(d: Dictionary, c: Context, known: seq<Known>): Out {
    var k := FirstSame(known, d);
    if k < |known| then Wrote([DICTIONARY, U8(2 * known[k].index)], c, known[k].index < 64) else EncodeNew(d, c)
  }

  /** The dictionaries that are known afterwards. */
  function Remember(d: Dictionary, c: Context, known: seq<Known>): seq<Known> {
    if FirstSame(known, d) < |known| then known else known + [Known(|c.objects|, d)]
  }

  /** A dictionary that is not in the object table yet. */
  function EncodeNew(d: Dictionary, c: Context): Out {
    if |d.entries| >= U29.LENGTH_LIMIT then Throws else
      var c1 := AddObject(c, StandIn(c));
      Join(Put1([DICTIONARY] + LengthHeader(|d.entries|) + Flag(d.weak), c1), EncodeEntries(d.entries, c1))
  }

  function EncodeEntries(es: seq<Entry>, c: Context): Out {
    if es == [] then Put1([], c) else
      var key := Encode(es[0].key, c, Compress);
      if key.Throws? then Throws else
        var value := Encode(es[0].value, key.ctx, Compress);
        if value.Throws? then Throws else Join(Join(key, value), EncodeEntries(es[1..], value.ctx))
  }

  /** The templated `getIndex`, for dictionaries: the first one that compares equal, or -1. */
  method IndexOfDictionary(known: seq<Known>, d: Dictionary) returns (index: int)
    ensures index == -1 ==> FirstSame(known, d) == |known|
    ensures index != -1 ==> FirstSame(known, d) < |known| && index == known[FirstSame(known, d)].index
  {
    for k := 0 to |known|
      invariant forall j :: 0 <= j < k ==> !SameDictionary(known[j].dict, d)
    {
      if SameDictionary(known[k].dict, d) {
        return known[k].index;
      }
    }
    return -1;
  }

  /** `AmfDictionary::serialize`, with the dictionaries of the object table beside the context. */
  method SerializeDictionary(d: Dictionary, ctx: SerializationContext<Item>, known: seq<Known>)
    returns (r: Option<seq<byte>>, known': seq<Known>)
    modifies ctx
    ensures Did(r, EncodeDictionary(d, old(ctx.Value()), known), ctx.Value())
    ensures known' == Remember(d, old(ctx.Value()), known)
  {
    hide EncodeNew, SameDictionary;
    var index := IndexOfDictionary(known, d);
    if index != -1 {
      return Some([DICTIONARY, U8(2 * index)]), known;
    }
    known' := known + [Known(|ctx.objects|, d)];
    r := SerializeNew(d, ctx);
  }

  /** The loop over the entries, into a growing buffer. */
  method SerializeNew(d: Dictionary, ctx: SerializationContext<Item>) returns (r: Option<seq<byte>>)
    modifies ctx
    ensures Did(r, EncodeNew(d, old(ctx.Value())), ctx.Value())
  {
    hide Encode, EncodeEntries, LengthHeader;
    ctx.AddObject(Loop(|ctx.objects|));
    var buf := AsLength(|d.entries|, DICTIONARY);
    if buf.None? {
      return None;
    }
    var entries := SerializeEntries(d.entries, ctx);
    if entries.None? {
      return None;
    }
    return Some(buf.value + Flag(d.weak) + entries.value);
  }

  method SerializeEntries(es: seq<Entry>, ctx: SerializationContext<Item>) returns (r: Option<seq<byte>>)
    modifies ctx
    ensures Did(r, EncodeEntries(es, old(ctx.Value())), ctx.Value())
  {
    hide Encode;
    var buf := [];
    ghost var spec := EncodeEntries(es, ctx.Value());
    StartUnderway(spec, ctx.Value());
    for i := 0 to |es|
      invariant Underway(spec, buf, ctx.Value(), EncodeEntries(es[i..], ctx.Value()))
    {
      ghost var was := ctx.Value();
      ghost var first := Encode(es[i].key, was, Compress);
      var key := SerializeItem(es[i].key, ctx);
      if key.None? {
        return None;
      }
      ghost var second := Encode(es[i].value, ctx.Value(), Compress);
      var value := SerializeItem(es[i].value, ctx);
      if value.None? {
        return None;
      }
      StepUnderway(spec, buf, was, Join(first, second), EncodeEntries(es[i..][1..], second.ctx));
      assert es[i..][1..] == es[i + 1..];
      buf := buf + (key.value + value.value);
    }
    return Some(buf);
  }

  // ----- Decoding -----

  /** `values[key] = val`: the first equal key keeps its place and gets the new value. */
  function PutEntry(es: seq<Entry>, key: Item, value: Item): (r: seq<Entry>)
    ensures |es| <= |r| <= |es| + 1
  {
    if es == [] then [Entry(key, value)]
    else if Eq(es[0].key, key) then [Entry(es[0].key, value)] + es[1..]
    else [es[0]] + PutEntry(es[1..], key, value)
  }

  function DecodeEntries(n: int, s: seq<byte>, p: nat, c: Table, acc: seq<Entry>): (r: Decoded<seq<Entry>>)
    requires p <= |s|
    ensures r.Ok? ==> p <= r.next <= |s|
    decreases |s| - p
  {
    if n <= 0 then Ok(acc, p, c) else
      var key := Decode(s, p, c);
      if key.Bad? then Bad else
        var value := Decode(s, key.next, key.ctx);
        if value.Bad? then Bad
        else DecodeEntries(n - 1, s, value.next, value.ctx, PutEntry(acc, key.value, value.value))
  }

  /** `getPointer<AmfDictionary>`: the dictionary that was registered as entry `i`. */
  function DictionaryAt(known: seq<Known>, i: int): (r: Option<Dictionary>) {
    if known == [] then None else if known[0].index == i then Some(known[0].dict) else DictionaryAt(known[1..], i)
  }

  /** A decoded dictionary, and the dictionaries that are known with it. */
  datatype Decoding = Decoding(dict: Dictionary, known: seq<Known>)

  /** `AmfDictionary::deserializePtr`. */
  function DecodeDictionary(s: seq<byte>, p: nat, c: Table, known: seq<Known>): (r: Decoded<Decoding>)
    requires p <= |s|
    ensures r.Ok? ==> p < r.next <= |s|
  {
    if p == |s| || s[p] != DICTIONARY then Bad else
      var h := U29.Read(s, p + 1);
      if h.Short? then Bad
      else if h.value % 2 == 0 then
        var d := DictionaryAt(known, h.value / 2);
        if d.None? then Bad else Ok(Decoding(d.value, known), h.next, c)
      else if h.next == |s| then Bad
      else
        var entries := DecodeEntries(h.value / 2, s, h.next + 1, AddObject(c, Done(Loop(|c.objects|))), []);
        if entries.Bad? then Bad else
          var d := Dictionary(entries.value, s[h.next] != 0);
          Ok(Decoding(d, known + [Known(|c.objects|, d)]), entries.next, entries.ctx)
  }

  // ----- Entries as a map -----

  predicate WellFormedEntries(es: seq<Entry>) {
    forall i :: 0 <= i < |es| ==> WellFormed(es[i].key) && WellFormed(es[i].value)
  }

  function CanonEntry(e: Entry): Entry {
    Entry(Canon(e.key), Canon(e.value))
  }

  function CanonEntries(es: seq<Entry>): (r: seq<Entry>)
    ensures |r| == |es|
  {
    seq(|es|, i requires 0 <= i < |es| => CanonEntry(es[i]))
  }

  /** No two keys have the same canonical form. */
  predicate KeysDistinct(es: seq<Entry>) {
    forall i, j :: 0 <= i < j < |es| ==> Canon(es[i].key) != Canon(es[j].key)
  }

  /** Inserting canonical entries one by one, as the decoder does. */
  function Collected(es: seq<Entry>, acc: seq<Entry>): (r: seq<Entry>)
    ensures |acc| <= |r| <= |acc| + |es|
  {
    if es == [] then acc else Collected(es[1..], PutEntry(acc, Canon(es[0].key), Canon(es[0].value)))
  }

  // ----- Round trip -----

  /** The depth that bounds every key and value. */
  function EntriesDepth(es: seq<Entry>): (r: nat)
    ensures forall i :: 0 <= i < |es| ==> Depth(es[i].key) <= r && Depth(es[i].value) <= r
  {
    if es == [] then 0 else Max(Max(Depth(es[0].key), Depth(es[0].value)), EntriesDepth(es[1..]))
  }

  lemma {:induction false} RoundTripEntries(es: seq<Entry>, c: Context, s: seq<byte>, p: nat, acc: seq<Entry>)
    requires WellFormedEntries(es) && Consistent(c, Compress)
    requires EncodeEntries(es, c).Wrote? && EncodeEntries(es, c).exact && At(s, p, EncodeEntries(es, c).bytes)
    ensures var r := EncodeEntries(es, c);
      DecodeEntries(|es|, s, p, View(c, {}), acc) == Ok(Collected(es, acc), p + |r.bytes|, View(r.ctx, {}))
    decreases es
  {
    hide Encode, Decode, Canon, View, WellFormed, Depth, Consistent, At, Extends, PutEntry;
    if es != [] {
      var key := Encode(es[0].key, c, Compress);
      var value := Encode(es[0].value, key.ctx, Compress);
      var rest := EncodeEntries(es[1..], value.ctx);
      AtSplit3(s, p, key.bytes, value.bytes, rest.bytes);
      EncodeKeeps(es[0].key, c, Compress);
      EncodeKeeps(es[0].value, key.ctx, Compress);
      RoundTripItem(es[0].key, c, Compress, {}, s, p);
      RoundTripItem(es[0].value, key.ctx, Compress, {}, s, p + |key.bytes|);
      RoundTripEntries(es[1..], value.ctx, s, p + |key.bytes| + |value.bytes|,
                       PutEntry(acc, Canon(es[0].key), Canon(es[0].value)));
    }
  }

  /** Marker, number of entries and flag. */
  lemma ReadDictionaryHeader(n: nat, weak: bool, rest: seq<byte>, s: seq<byte>, p: nat)
    requires n < U29.LENGTH_LIMIT && At(s, p, [DICTIONARY] + LengthHeader(n) + Flag(weak) + rest)
    ensures p < |s| && s[p] == DICTIONARY
    ensures var q := p + 1 + |LengthHeader(n)|;
      U29.Read(s, p + 1) == U29.Got(2 * n + 1, q) && q < |s| && (s[q] != 0 <==> weak) && At(s, q + 1, rest)
  {
    hide U29.Read, U29.Write, LengthHeader;
    var head := LengthHeader(n);
    AtSplit(s, p, [DICTIONARY] + head + Flag(weak), rest);
    AtSplit3(s, p, [DICTIONARY], head, Flag(weak));
    assert s[p..p + 1][0] == s[p];
    assert s[p + 1 + |head|..p + 1 + |head| + 1][0] == s[p + 1 + |head|];
    ReadLength(s, p + 1, n);
  }

  /** A new dictionary decodes to the collection of its canonical entries, in the order they were enumerated in. */
  lemma RoundTripNew(d: Dictionary, c: Context, known: seq<Known>, s: seq<byte>, p: nat)
    requires WellFormedEntries(d.entries) && Consistent(c, Compress)
    requires EncodeNew(d, c).Wrote? && EncodeNew(d, c).exact && At(s, p, EncodeNew(d, c).bytes)
    ensures var r := EncodeNew(d, c);
      DecodeDictionary(s, p, View(c, {}), known) ==
        Ok(Decoding(Received(d), known + [Known(|c.objects|, Received(d))]), p + |r.bytes|, View(r.ctx, {}))
  {
    hide U29.Read, EncodeEntries, DecodeEntries, View, Collected, LengthHeader, At, Consistent, Canon;
    var c1 := AddObject(c, StandIn(c));
    ReadDictionaryHeader(|d.entries|, d.weak, EncodeEntries(d.entries, c1).bytes, s, p);
    StandInConsistent(c);
    ViewAddDone(c, StandIn(c), {});
    CanonStandIn(c);
    RoundTripEntries(d.entries, c1, s, p + 1 + |LengthHeader(|d.entries|)| + 1, []);
  }

  /** What the decoder makes of a dictionary sent in full, and of all that are known. */
  function Received(d: Dictionary): Dictionary {
    Dictionary(Collected(d.entries, []), d.weak)
  }

  function ReceivedAll(known: seq<Known>): (r: seq<Known>)
    ensures |r| == |known|
  {
    seq(|known|, k requires 0 <= k < |known| => Known(known[k].index, Received(known[k].dict)))
  }

  /** Known dictionaries are in the order of their entries, and could be sent and decoded without merging any keys. */
  predicate Keeps(known: seq<Known>, c: Context) {
    && (forall k :: 0 <= k < |known| ==> known[k].index < |c.objects| && Sendable(known[k].dict))
    && (forall j, k :: 0 <= j < k < |known| ==> known[j].index < known[k].index)
  }

  predicate Sendable(d: Dictionary) {
    && WellFormedEntries(d.entries) && KeysDistinct(d.entries)
    && forall i :: 0 <= i < |d.entries| ==> NoExternal(d.entries[i].key) && NoExternal(d.entries[i].value)
  }

  lemma {:induction false} DictionaryAtKnown(known: seq<Known>, k: nat)
    requires k < |known| && forall i, j :: 0 <= i < j < |known| ==> known[i].index < known[j].index
    ensures DictionaryAt(known, known[k].index) == Some(known[k].dict)
    decreases known
  {
    if k > 0 { DictionaryAtKnown(known[1..], k - 1); }
  }

  /** A reference decodes to what the dictionary it was written for was decoded to. */
  lemma RoundTripKnown(d: Dictionary, c: Context, known: seq<Known>, s: seq<byte>, p: nat)
    requires Keeps(known, c) && FirstSame(known, d) < |known|
    requires EncodeDictionary(d, c, known).exact && At(s, p, EncodeDictionary(d, c, known).bytes)
    ensures var e := known[FirstSame(known, d)].dict;
      DecodeDictionary(s, p, View(c, {}), ReceivedAll(known)) ==
        Ok(Decoding(Received(e), ReceivedAll(known)), p + 2, View(c, {}))
  {
    hide U29.Read, View, Received, SameDictionary, Sendable, EncodeNew, DecodeEntries, FirstSame, LengthHeader;
    var k := FirstSame(known, d);
    var i := known[k].index;
    assert [DICTIONARY, U8(2 * i)] == [DICTIONARY] + [U8(2 * i)];
    AtSplit(s, p, [DICTIONARY], [U8(2 * i)]);
    assert s[p] == s[p..p + 1][0] == DICTIONARY;
    ReadSmall(s, p + 1, 2 * i);
    DictionaryAtKnown(ReceivedAll(known), k);
  }

  /** Serializing a dictionary keeps the tables consistent and the known ones in order. */
  lemma KeepsRemembered(d: Dictionary, c: Context, known: seq<Known>)
    requires Consistent(c, Compress) && Keeps(known, c) && Sendable(d) && EncodeDictionary(d, c, known).Wrote?
    ensures var r := EncodeDictionary(d, c, known);
      Consistent(r.ctx, Compress) && Keeps(Remember(d, c, known), r.ctx) && |c.objects| <= |r.ctx.objects|
  {
    hide Sendable, SameDictionary, Consistent, Encode, LengthHeader, Small;
    if FirstSame(known, d) == |known| {
      StandInConsistent(c);
      EntriesKeep(d.entries, AddObject(c, StandIn(c)));
    }
  }

  lemma {:induction false} EntriesKeep(es: seq<Entry>, c: Context)
    requires Consistent(c, Compress)
    ensures var r := EncodeEntries(es, c);
      r.Wrote? ==> Consistent(r.ctx, Compress) && |c.objects| <= |r.ctx.objects|
    decreases es
  {
    hide Encode, Consistent;
    if es != [] {
      var key := Encode(es[0].key, c, Compress);
      EncodeKeeps(es[0].key, c, Compress);
      if key.Wrote? {
        var value := Encode(es[0].value, key.ctx, Compress);
        EncodeKeeps(es[0].value, key.ctx, Compress);
        if value.Wrote? { EntriesKeep(es[1..], value.ctx); }
      }
    }
  }

  lemma CanonStandIn(c: Context)
    ensures Canon(StandIn(c)) == Loop(|View(c, {}).objects|)
  {
  }

  lemma StandInConsistent(c: Context)
    requires Consistent(c, Compress)
    ensures Consistent(AddObject(c, StandIn(c)), Compress)
  {
  }

  // ----- The decoded map -----

  lemma {:induction false} PutEntryNew(es: seq<Entry>, k: Item, v: Item)
    ensures |PutEntry(es, k, v)| == |es| + 1 <==> forall i :: 0 <= i < |es| ==> !Eq(es[i].key, k)
    ensures |PutEntry(es, k, v)| == |es| + 1 ==> PutEntry(es, k, v) == es + [Entry(k, v)]
  {
    hide Eq;
    if es != [] && !Eq(es[0].key, k) {
      PutEntryNew(es[1..], k, v);
      assert forall i :: 1 <= i < |es| ==> es[i] == es[1..][i - 1];
      assert [es[0]] + (es[1..] + [Entry(k, v)]) == es + [Entry(k, v)];
    }
  }

  /** Entries whose keys have distinct canonical forms all arrive, in the order they were sent. */
  lemma {:induction false} CollectedAll(done: seq<Entry>, es: seq<Entry>)
    requires WellFormedEntries(done + es) && KeysDistinct(done + es)
    ensures Collected(es, CanonEntries(done)) == CanonEntries(done + es)
    decreases es
  {
    hide Eq, Canon, WellFormed, PutEntry;
    if es == [] {
      assert done + es == done;
    } else {
      var all := done + es;
      var n := |done|;
      assert all[n] == es[0];
      forall i | 0 <= i < n ensures !Eq(CanonEntries(done)[i].key, Canon(es[0].key)) {
        assert all[i] == done[i];
        CanonEqIff(all[i].key, all[n].key);
      }
      PutEntryNew(CanonEntries(done), Canon(es[0].key), Canon(es[0].value));
      var more := done + [es[0]];
      assert more + es[1..] == all;
      assert CanonEntries(more) == CanonEntries(done) + [CanonEntry(es[0])];
      CollectedAll(more, es[1..]);
    }
  }

  /** If nothing was merged, no two keys were equal, and none was in the map before. */
  lemma {:induction false} NothingMerged(es: seq<Entry>, acc: seq<Entry>)
    requires |Collected(es, acc)| == |acc| + |es|
    ensures forall i, j :: 0 <= i < j < |es| ==> !Eq(Canon(es[i].key), Canon(es[j].key))
    ensures forall a, i :: 0 <= a < |acc| && 0 <= i < |es| ==> !Eq(acc[a].key, Canon(es[i].key))
    decreases es
  {
    hide Eq, Canon, PutEntry;
    if es != [] {
      var k, v := Canon(es[0].key), Canon(es[0].value);
      PutEntryNew(acc, k, v);
      var acc' := acc + [Entry(k, v)];
      NothingMerged(es[1..], acc');
      forall i, j | 0 <= i < j < |es| ensures !Eq(Canon(es[i].key), Canon(es[j].key)) {
        assert es[j] == es[1..][j - 1];
        if i == 0 {
          assert acc'[|acc|].key == k;
        } else {
          assert es[i] == es[1..][i - 1];
        }
      }
      forall a, i | 0 <= a < |acc| && 0 <= i < |es| ensures !Eq(acc[a].key, Canon(es[i].key)) {
        if i > 0 {
          assert es[i] == es[1..][i - 1] && acc'[a] == acc[a];
        }
      }
    }
  }

  /** A dictionary arrives with as many entries as it had exactly when its keys have distinct canonical forms. */
  lemma AllEntriesArriveIff(es: seq<Entry>)
    requires WellFormedEntries(es)
    ensures |Collected(es, [])| == |es| <==> KeysDistinct(es)
    ensures KeysDistinct(es) ==> Collected(es, []) == CanonEntries(es)
  {
    hide Canon, WellFormed, Collected, KeysDistinct, WellFormedEntries;
    if KeysDistinct(es) {
      assert [] + es == es;
      assert CanonEntries([]) == [];
      CollectedAll([], es);
    }
    if |Collected(es, [])| == |es| {
      AllArrivedDistinct(es);
    }
  }

  lemma AllArrivedDistinct(es: seq<Entry>)
    requires WellFormedEntries(es) && |Collected(es, [])| == |es|
    ensures KeysDistinct(es)
  {
    hide Eq, Canon, WellFormed, Collected, KeysDistinct, WellFormedEntries;
    NothingMerged(es, []);
    UnequalDistinct(es);
  }

  lemma UnequalDistinct(es: seq<Entry>)
    requires WellFormedEntries(es)
    requires forall i, j :: 0 <= i < j < |es| ==> !Eq(Canon(es[i].key), Canon(es[j].key))
    ensures KeysDistinct(es)
  {
    hide Eq, Canon, WellFormed;
    forall i, j | 0 <= i < j < |es| ensures Canon(es[i].key) != Canon(es[j].key) {
      CanonEqIff(es[i].key, es[j].key);
    }
  }

  /** A lookup in a map whose keys are pairwise unequal: the value of whichever entry matches. */
  lemma {:induction false} LookupIff(es: seq<Entry>, k: Item, v: Item)
    requires forall i, j :: 0 <= i < j < |es| ==> !Eq(es[i].key, es[j].key)
    ensures Lookup(es, k) == Some(v) <==> exists i :: 0 <= i < |es| && Eq(es[i].key, k) && es[i].value == v
  {
    hide Eq;
    if es != [] {
      LookupIff(es[1..], k, v);
      if Eq(es[0].key, k) {
        forall i | 0 < i < |es| ensures !Eq(es[i].key, k) {
          if Eq(es[i].key, k) {
            EqSymmetric(es[i].key, k);
            EqTransitive(es[0].key, k, es[i].key);
          }
        }
      } else {
        assert forall i :: 1 <= i < |es| ==> es[i] == es[1..][i - 1];
        assert forall i :: 0 <= i < |es| - 1 ==> es[1..][i] == es[i + 1];
      }
    }
  }

  /** Two orders of the same entries decode to maps that answer every lookup alike. */
  lemma EnumerationOrderIrrelevant(es: seq<Entry>, fs: seq<Entry>, k: Item)
    requires WellFormedEntries(es) && KeysDistinct(es) && WellFormedEntries(fs) && KeysDistinct(fs)
    requires forall e :: e in es <==> e in fs
    ensures Lookup(Collected(es, []), k) == Lookup(Collected(fs, []), k)
  {
    AllEntriesArriveIff(es);
    AllEntriesArriveIff(fs);
    LookupTransfers(es, fs, k);
    LookupTransfers(fs, es, k);
  }

  lemma LookupTransfers(es: seq<Entry>, fs: seq<Entry>, k: Item)
    requires WellFormedEntries(es) && KeysDistinct(es) && WellFormedEntries(fs) && KeysDistinct(fs)
    requires forall e :: e in es ==> e in fs
    ensures Lookup(CanonEntries(es), k).Some? ==> Lookup(CanonEntries(fs), k) == Lookup(CanonEntries(es), k)
  {
    hide Eq, Canon, WellFormed, Lookup;
    var a, b := CanonEntries(es), CanonEntries(fs);
    if Lookup(a, k).Some? {
      var v := Lookup(a, k).value;
      UnequalKeys(es);
      UnequalKeys(fs);
      LookupIff(a, k, v);
      var i :| 0 <= i < |a| && Eq(a[i].key, k) && a[i].value == v;
      assert es[i] in fs;
      var j :| 0 <= j < |fs| && fs[j] == es[i];
      assert b[j] == a[i];
      LookupIff(b, k, v);
    }
  }

  lemma UnequalKeys(es: seq<Entry>)
    requires WellFormedEntries(es) && KeysDistinct(es)
    ensures forall i, j :: 0 <= i < j < |es| ==> !Eq(CanonEntries(es)[i].key, CanonEntries(es)[j].key)
  {
    hide Eq, Canon, WellFormed;
    forall i, j | 0 <= i < j < |es| ensures !Eq(CanonEntries(es)[i].key, CanonEntries(es)[j].key) {
      CanonEqIff(es[i].key, es[j].key);
    }
  }

  // ----- Equal dictionaries -----

  function KeySet(es: seq<Entry>): set<Item> {
    set i | 0 <= i < |es| :: Canon(es[i].key)
  }

  lemma {:induction false} KeySetSize(es: seq<Entry>)
    requires KeysDistinct(es)
    ensures |KeySet(es)| == |es|
  {
    hide Canon;
    if es == [] {
      assert KeySet(es) == {};
    } else {
      var rest := es[..|es| - 1];
      KeySetSize(rest);
      var last := Canon(es[|es| - 1].key);
      assert last !in KeySet(rest);
      assert KeySet(es) == KeySet(rest) + {last};
    }
  }

  /** A set inside another of the same size is that set. */
  lemma SameSize(a: set<Item>, b: set<Item>)
    requires a <= b && |a| == |b|
    ensures a == b
  {
    assert b == a + (b - a);
  }

  /** Lookups by equal keys find equal values: both dictionaries canonically hold the same. */
  lemma SameEntries(a: Dictionary, b: Dictionary, i: nat)
    requires Sendable(a) && Sendable(b) && SameDictionary(a, b) && i < |b.entries|
    ensures exists j :: 0 <= j < |a.entries| && CanonEntry(a.entries[j]) == CanonEntry(b.entries[i])
  {
    hide Eq, Canon, WellFormed, Lookup;
    forall j | 0 <= j < |a.entries|
      ensures exists k :: 0 <= k < |b.entries| && CanonEntry(b.entries[k]) == CanonEntry(a.entries[j])
    {
      Matched(a, b, j);
    }
    assert KeySet(a.entries) <= KeySet(b.entries);
    KeySetSize(a.entries);
    KeySetSize(b.entries);
    SameSize(KeySet(a.entries), KeySet(b.entries));
    assert Canon(b.entries[i].key) in KeySet(b.entries);
    var j :| 0 <= j < |a.entries| && Canon(a.entries[j].key) == Canon(b.entries[i].key);
    var k :| 0 <= k < |b.entries| && CanonEntry(b.entries[k]) == CanonEntry(a.entries[j]);
    assert k == i;
  }

  lemma Matched(a: Dictionary, b: Dictionary, j: nat)
    requires Sendable(a) && Sendable(b) && SameDictionary(a, b) && j < |a.entries|
    ensures exists k :: 0 <= k < |b.entries| && CanonEntry(b.entries[k]) == CanonEntry(a.entries[j])
  {
    hide Eq, Canon, WellFormed, Lookup;
    var v := Lookup(b.entries, a.entries[j].key);
    LookupFinds(b.entries, a.entries[j].key);
    var k :| 0 <= k < |b.entries| && Eq(b.entries[k].key, a.entries[j].key) && b.entries[k].value == v.value;
    EqCanon(b.entries[k].key, a.entries[j].key);
    EqCanon(a.entries[j].value, b.entries[k].value);
  }

  lemma {:induction false} LookupFinds(es: seq<Entry>, k: Item)
    requires Lookup(es, k).Some?
    ensures exists i :: 0 <= i < |es| && Eq(es[i].key, k) && es[i].value == Lookup(es, k).value
  {
    hide Eq;
    if !Eq(es[0].key, k) {
      LookupFinds(es[1..], k);
      var i :| 0 <= i < |es| - 1 && Eq(es[1..][i].key, k) && es[1..][i].value == Lookup(es[1..], k).value;
      assert es[i + 1] == es[1..][i];
    }
  }

  /** Under every key sent, the decoded dictionary holds the canonical form of its value. */
  lemma ReceivedHolds(d: Dictionary, i: nat)
    requires Sendable(d) && i < |d.entries|
    ensures |Received(d).entries| == |d.entries|
    ensures Lookup(Received(d).entries, Canon(d.entries[i].key)) == Some(Canon(d.entries[i].value))
  {
    hide Eq, Canon, WellFormed, Lookup, Collected;
    AllEntriesArriveIff(d.entries);
    UnequalKeys(d.entries);
    var es := CanonEntries(d.entries);
    CanonEqIff(d.entries[i].key, d.entries[i].key);
    assert Eq(es[i].key, Canon(d.entries[i].key));
    LookupIff(es, Canon(d.entries[i].key), Canon(d.entries[i].value));
  }

  /** `r` is what `d` should arrive as: the same flag, as many entries, under every key sent the canonical value. */
  predicate Arrived(r: Dictionary, d: Dictionary) {
    && r.weak == d.weak && |r.entries| == |d.entries|
    && forall i :: 0 <= i < |d.entries| ==>
                     Lookup(r.entries, Canon(d.entries[i].key)) == Some(Canon(d.entries[i].value))
  }

  lemma ReceivedArrived(d: Dictionary)
    requires Sendable(d)
    ensures Arrived(Received(d), d)
  {
    hide Eq, Canon, WellFormed, Lookup, Collected;
    AllEntriesArriveIff(d.entries);
    forall i | 0 <= i < |d.entries|
      ensures Lookup(Received(d).entries, Canon(d.entries[i].key)) == Some(Canon(d.entries[i].value))
    {
      ReceivedHolds(d, i);
    }
  }

  lemma SameArrived(e: Dictionary, d: Dictionary)
    requires Sendable(e) && Sendable(d) && SameDictionary(e, d)
    ensures Arrived(Received(e), d)
  {
    hide Eq, Canon, WellFormed, Lookup, Collected, Sendable;
    ReceivedArrived(e);
    forall i | 0 <= i < |d.entries|
      ensures Lookup(Received(e).entries, Canon(d.entries[i].key)) == Some(Canon(d.entries[i].value))
    {
      SameEntries(e, d, i);
      var j :| 0 <= j < |e.entries| && CanonEntry(e.entries[j]) == CanonEntry(d.entries[i]);
      ReceivedHolds(e, j);
    }
  }

  /**
    The dictionary theorem: in whatever order `unordered_map` enumerates the entries, and be
    the dictionary sent in full or as a reference to an equal one, the decoded dictionary has
    the weak flag, as many entries, and under every key sent the canonical form of its value.
    Afterwards both sides know corresponding dictionaries.
   */
  lemma DictionaryTheorem(d: Dictionary, c: Context, known: seq<Known>, s: seq<byte>, p: nat)
    requires Sendable(d) && Keeps(known, c) && Consistent(c, Compress)
    requires var r := EncodeDictionary(d, c, known); r.Wrote? && r.exact && At(s, p, r.bytes)
    ensures var w, r := EncodeDictionary(d, c, known), DecodeDictionary(s, p, View(c, {}), ReceivedAll(known));
      r.Ok? && r.next == p + |w.bytes| && r.ctx == View(w.ctx, {})
      && r.value.known == ReceivedAll(Remember(d, c, known)) && Arrived(r.value.dict, d)
  {
    hide Eq, Canon, WellFormed, Lookup, EncodeNew, DecodeDictionary, View, Collected, Sendable, Arrived;
    var k := FirstSame(known, d);
    if k == |known| {
      SendableMeans(d);
      RoundTripNew(d, c, ReceivedAll(known), s, p);
      ReceivedArrived(d);
      assert ReceivedAll(known + [Known(|c.objects|, d)]) == ReceivedAll(known) + [Known(|c.objects|, Received(d))];
    } else {
      RoundTripKnown(d, c, known, s, p);
      SameArrived(known[k].dict, d);
    }
  }

  lemma SendableMeans(d: Dictionary)
    requires Sendable(d)
    ensures WellFormedEntries(d.entries) && KeysDistinct(d.entries)
  {
  }

  // ----- Streams of items and dictionaries -----

  datatype Element = Single(item: Item) | Whole(dict: Dictionary)

  function EncodeElement(x: Element, c: Context, known: seq<Known>): Out {
    match x case Single(i) => Encode(i, c, Compress) case Whole(d) => EncodeDictionary(d, c, known)
  }

  function KnownAfter(x: Element, c: Context, known: seq<Known>): seq<Known> {
    match x case Single(_) => known case Whole(d) => Remember(d, c, known)
  }

  function EncodeElements(xs: seq<Element>, c: Context, known: seq<Known>): Out {
    if xs == [] then Put1([], c) else
      var first := EncodeElement(xs[0], c, known);
      if first.Throws? then Throws else Join(first, EncodeElements(xs[1..], first.ctx, KnownAfter(xs[0], c, known)))
  }

  /** `Deserializer::deserialize`, dictionaries included. */
  function DecodeElement(s: seq<byte>, p: nat, c: Table, known: seq<Known>): (r: Decoded<(Element, seq<Known>)>)
    requires p <= |s|
    ensures r.Ok? ==> p < r.next <= |s|
  {
    if p < |s| && s[p] == DICTIONARY then
      var d := DecodeDictionary(s, p, c, known);
      if d.Bad? then Bad else Ok((Whole(d.value.dict), d.value.known), d.next, d.ctx)
    else
      var x := Decode(s, p, c);
      if x.Bad? then Bad else Ok((Single(x.value), known), x.next, x.ctx)
  }

  function DecodeElements(n: nat, s: seq<byte>, p: nat, c: Table, known: seq<Known>): (r: Decoded<seq<Element>>)
    requires p <= |s|
    ensures r.Ok? ==> p <= r.next <= |s|
    decreases n
  {
    if n == 0 then Ok([], p, c) else
      var x := DecodeElement(s, p, c, known);
      if x.Bad? then Bad else
        var rest := DecodeElements(n - 1, s, x.next, x.ctx, x.value.1);
        if rest.Bad? then Bad else Ok([x.value.0] + rest.value, rest.next, rest.ctx)
  }

  predicate ElementSendable(x: Element) {
    match x case Single(i) => WellFormed(i) case Whole(d) => Sendable(d)
  }

  predicate ElementArrived(r: Element, x: Element) {
    match x case Single(i) => r == Single(Canon(i)) case Whole(d) => r.Whole? && Arrived(r.dict, d)
  }

  lemma ElementTrip(x: Element, c: Context, known: seq<Known>, s: seq<byte>, p: nat)
    requires ElementSendable(x) && Keeps(known, c) && Consistent(c, Compress)
    requires var r := EncodeElement(x, c, known); r.Wrote? && r.exact && At(s, p, r.bytes)
    ensures var w, r := EncodeElement(x, c, known), DecodeElement(s, p, View(c, {}), ReceivedAll(known));
      && r.Ok? && r.next == p + |w.bytes| && r.ctx == View(w.ctx, {})
      && r.value.1 == ReceivedAll(KnownAfter(x, c, known)) && ElementArrived(r.value.0, x)
      && Consistent(w.ctx, Compress) && Keeps(KnownAfter(x, c, known), w.ctx)
  {
    hide Encode, Decode, EncodeDictionary, DecodeDictionary, WellFormed, Canon, View, Consistent, Sendable, Arrived,
         Depth;
    var b := EncodeElement(x, c, known).bytes;
    match x
    case Single(i) =>
      ItemIsNoDictionary(i, c);
      assert s[p] == s[p..p + |b|][0] == b[0];
      RoundTripItem(i, c, Compress, {}, s, p);
      EncodeKeeps(i, c, Compress);
    case Whole(d) =>
      DictionaryMarked(d, c, known);
      assert s[p] == s[p..p + |b|][0] == b[0];
      DictionaryTheorem(d, c, known, s, p);
      KeepsRemembered(d, c, known);
  }

  lemma ItemIsNoDictionary(x: Item, c: Context)
    requires WellFormed(x) && Encode(x, c, Compress).Wrote?
    ensures var b := Encode(x, c, Compress).bytes; b != [] && b[0] != DICTIONARY
  {
    hide EncodeBody, EncodeString, U29.Write, FirstEqual, LookupRaises;
  }

  lemma DictionaryMarked(d: Dictionary, c: Context, known: seq<Known>)
    requires EncodeDictionary(d, c, known).Wrote?
    ensures var b := EncodeDictionary(d, c, known).bytes; b != [] && b[0] == DICTIONARY
  {
    hide EncodeEntries, FirstSame;
  }

  /**
    A whole stream of items and dictionaries through one serializer and one deserializer:
    every one arrives, equal dictionaries by reference, and the tables correspond after each.
   */
  lemma {:induction false} ElementsTrip(xs: seq<Element>, c: Context, known: seq<Known>, s: seq<byte>, p: nat)
    requires (forall x :: x in xs ==> ElementSendable(x)) && Keeps(known, c) && Consistent(c, Compress)
    requires var r := EncodeElements(xs, c, known); r.Wrote? && r.exact && At(s, p, r.bytes)
    ensures var w, r := EncodeElements(xs, c, known), DecodeElements(|xs|, s, p, View(c, {}), ReceivedAll(known));
      && r.Ok? && r.next == p + |w.bytes| && r.ctx == View(w.ctx, {}) && |r.value| == |xs|
      && forall i :: 0 <= i < |xs| ==> ElementArrived(r.value[i], xs[i])
    decreases xs
  {
    hide EncodeElement, DecodeElement, ElementSendable, ElementArrived, KnownAfter, Keeps, Consistent, View, At;
    if xs != [] {
      var first := EncodeElement(xs[0], c, known);
      var known' := KnownAfter(xs[0], c, known);
      var rest := EncodeElements(xs[1..], first.ctx, known');
      AtSplit(s, p, first.bytes, rest.bytes);
      ElementTrip(xs[0], c, known, s, p);
      ElementsTrip(xs[1..], first.ctx, known', s, p + |first.bytes|);
    }
  }

  /** From a cleared context. */
  lemma MixedStreamTrip(xs: seq<Element>)
    requires forall x :: x in xs ==> ElementSendable(x)
    requires EncodeElements(xs, EMPTY, []).Wrote? && EncodeElements(xs, EMPTY, []).exact
    ensures var w := EncodeElements(xs, EMPTY, []);
      var r := DecodeElements(|xs|, w.bytes, 0, FRESH, []);
      && r.Ok? && r.next == |w.bytes| && r.ctx == View(w.ctx, {}) && |r.value| == |xs|
      && forall i :: 0 <= i < |xs| ==> ElementArrived(r.value[i], xs[i])
  {
    hide EncodeElements, DecodeElements, ElementSendable, ElementArrived;
    var b := EncodeElements(xs, EMPTY, []).bytes;
    assert b[0..|b|] == b && View(EMPTY, {}) == FRESH && ReceivedAll([]) == [];
    ElementsTrip(xs, EMPTY, [], b, 0);
  }
}
