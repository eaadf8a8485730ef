/** Dictionaries on the wire and in comparison, without reference to how they are written, read and compared. */
module DictionaryFormat {
  import opened Words
  import opened Items
  import opened Encoder
  import opened Decoder
  import opened Equality
  import opened Grammar
  import opened Dictionary
  import Written
  import Accepted
  import U29

  /** Key and value in turn. */
  function EntryTokens(es: seq<Entry>): (r: seq<Token>)
    ensures |r| == 2 * |es|
  {
    seq(2 * |es|, i requires 0 <= i < 2 * |es| => Value(if i % 2 == 0 then es[i / 2].key else es[i / 2].value))
  }

  lemma EntryTokensStep(es: seq<Entry>)
    requires es != []
    ensures EntryTokens(es) == [Value(es[0].key), Value(es[0].value)] + EntryTokens(es[1..])
  {
    var r, t := EntryTokens(es), EntryTokens(es[1..]);
    forall i | 2 <= i < |r| ensures r[i] == t[i - 2] {
      assert (i - 2) / 2 == i / 2 - 1 && (i - 2) % 2 == i % 2;
    }
  }

  // ----- Writing -----

  lemma {:induction false} EntriesWritten(es: seq<Entry>, c: Context)
    ensures EncodeEntries(es, c) == WriteTokens(EntryTokens(es), c, Compress)
    decreases es
  {
    hide Encode;
    if es == [] {
      assert EntryTokens(es) == [];
    } else {
      EntryTokensStep(es);
      var ts := EntryTokens(es[1..]);
      assert ([Value(es[0].key), Value(es[0].value)] + ts)[1..] == [Value(es[0].value)] + ts;
      assert ([Value(es[0].value)] + ts)[1..] == ts;
      var key := Encode(es[0].key, c, Compress);
      if key.Wrote? {
        var value := Encode(es[0].value, key.ctx, Compress);
        if value.Wrote? {
          EntriesWritten(es[1..], value.ctx);
          JoinAssociates(key, value, WriteTokens(ts, value.ctx, Compress));
        }
      }
    }
  }

  /** Marker 17, number of entries, weak flag, and key and value of every entry, after an entry in the table. */
  lemma NewWritten(d: Dictionary, c: Context)
    ensures EncodeNew(d, c) ==
      WriteTokens([Byte(17), Length(|d.entries|), Byte(if d.weak then 1 else 0)] + EntryTokens(d.entries),
                  c.(objects := c.objects + [Loop(|c.objects|)]), Compress)
  {
    hide Encode, EncodeEntries, U29.Write, EntryTokens;
    var c1 := c.(objects := c.objects + [Loop(|c.objects|)]);
    var ts := [Byte(17), Length(|d.entries|), Byte(if d.weak then 1 else 0)];
    assert ts[1..] == [ts[1], ts[2]];
    Written.PairOfTokens(ts[1], ts[2], c1, Compress);
    WriteAppend(ts, EntryTokens(d.entries), c1, Compress);
    EntriesWritten(d.entries, c1);
    if |d.entries| < 0x800_0000 {
      var head, flag := LengthHeader(|d.entries|), Flag(d.weak);
      assert [DICTIONARY] + (head + flag) == [DICTIONARY] + head + flag;
    }
  }

  // ----- Comparison -----

  /** No two keys are equal, as in any `unordered_map`. */
  predicate KeysUnequal(es: seq<Entry>) {
    forall i, j :: 0 <= i < j < |es| ==> !Eq(es[i].key, es[j].key)
  }

  /** Some entry has an equal key and an equal value. */
  predicate Present(e: Entry, es: seq<Entry>) {
    exists j :: 0 <= j < |es| && Eq(e.key, es[j].key) && Eq(e.value, es[j].value)
  }

  /** Two dictionaries are equal exactly if every entry of the first is one of the second, wherever it is. */
  lemma SameIff(a: Dictionary, b: Dictionary)
    requires KeysUnequal(b.entries)
    ensures SameDictionary(a, b) <==>
      && a.weak == b.weak && |a.entries| == |b.entries|
      && forall i :: 0 <= i < |a.entries| ==> Present(a.entries[i], b.entries)
  {
    hide Eq, Lookup, Present;
    forall i | 0 <= i < |a.entries|
      ensures Present(a.entries[i], b.entries) <==>
        var v := Lookup(b.entries, a.entries[i].key); v.Some? && Eq(a.entries[i].value, v.value)
    {
      PresentIff(a.entries[i], b.entries);
    }
  }

  lemma PresentIff(e: Entry, es: seq<Entry>)
    requires KeysUnequal(es)
    ensures Present(e, es) <==> var v := Lookup(es, e.key); v.Some? && Eq(e.value, v.value)
  {
    hide Eq, Lookup;
    var v := Lookup(es, e.key);
    if j :| 0 <= j < |es| && Eq(e.key, es[j].key) && Eq(e.value, es[j].value) {
      EqSymmetric(e.key, es[j].key);
      LookupIff(es, e.key, es[j].value);
    }
    if v.Some? && Eq(e.value, v.value) {
      LookupIff(es, e.key, v.value);
      var j :| 0 <= j < |es| && Eq(es[j].key, e.key) && es[j].value == v.value;
      EqSymmetric(es[j].key, e.key);
    }
  }

  /** The same entries in another order are an equal dictionary. */
  lemma PermutedSame(a: Dictionary, b: Dictionary)
    requires KeysUnequal(b.entries) && a.weak == b.weak && multiset(a.entries) == multiset(b.entries)
    ensures SameDictionary(a, b)
  {
    hide Eq;
    assert |multiset(a.entries)| == |a.entries| && |multiset(b.entries)| == |b.entries|;
    forall i | 0 <= i < |a.entries| ensures Present(a.entries[i], b.entries) {
      assert a.entries[i] in multiset(b.entries);
      var j :| 0 <= j < |b.entries| && b.entries[j] == a.entries[i];
      EqReflexive(b.entries[j].key);
      EqReflexive(b.entries[j].value);
    }
    SameIff(a, b);
  }

  /** A dictionary is written as the reference to the first known one that equals it, or in full if none does. */
  lemma KnownWritten(d: Dictionary, c: Context, known: seq<Known>, k: nat)
    requires k <= |known| && forall j :: 0 <= j < k ==> !SameDictionary(known[j].dict, d)
    requires k < |known| ==> SameDictionary(known[k].dict, d)
    ensures EncodeDictionary(d, c, known) ==
      if k < |known| then Wrote([17, 2 * known[k].index % 256], c, known[k].index < 64) else EncodeNew(d, c)
  {
    hide SameDictionary, EncodeNew;
  }

  /** So a dictionary that was sent in another order before is a reference now. */
  lemma PermutedIsReference(d: Dictionary, c: Context, known: seq<Known>, k: nat)
    requires k < |known| && known[k].dict.weak == d.weak && KeysUnequal(d.entries)
    requires multiset(known[k].dict.entries) == multiset(d.entries)
    ensures exists j :: 0 <= j <= k && SameDictionary(known[j].dict, d)
                        && EncodeDictionary(d, c, known)
                        == Wrote([17, 2 * known[j].index % 256], c, known[j].index < 64)
  {
    hide SameDictionary, EncodeDictionary;
    PermutedSame(known[k].dict, d);
    var j := FirstSame(known, d);
    KnownWritten(d, c, known, j);
  }

  // ----- Reading -----

  /** `values[key] = value` for one entry after the other. */
  function Gather(acc: seq<Entry>, es: seq<Entry>): seq<Entry>
    decreases es
  {
    if es == [] then acc else Gather(PutEntry(acc, es[0].key, es[0].value), es[1..])
  }

  lemma {:induction false} PutEntryLookup(es: seq<Entry>, key: Item, value: Item, k: Item)
    ensures Lookup(PutEntry(es, key, value), k) == if Eq(key, k) then Some(value) else Lookup(es, k)
  {
    hide Eq;
    if es != [] {
      PutEntryLookup(es[1..], key, value, k);
      if Eq(es[0].key, key) {
        EqReflexive(k);
        EqIff(es[0].key, key, k, k);
        assert PutEntry(es, key, value)[1..] == es[1..];
      } else {
        if Eq(key, k) && Eq(es[0].key, k) {
          EqSymmetric(key, k);
          EqTransitive(es[0].key, k, key);
        }
        assert PutEntry(es, key, value)[1..] == PutEntry(es[1..], key, value);
      }
    }
  }

  lemma {:induction false} GatherOther(acc: seq<Entry>, es: seq<Entry>, k: Item)
    requires forall j :: 0 <= j < |es| ==> !Eq(es[j].key, k)
    ensures Lookup(Gather(acc, es), k) == Lookup(acc, k)
    decreases es
  {
    hide Eq, Lookup, PutEntry;
    if es != [] {
      PutEntryLookup(acc, es[0].key, es[0].value, k);
      GatherOther(PutEntry(acc, es[0].key, es[0].value), es[1..], k);
    }
  }

  /** What is found under a key is what came last under an equal one. */
  lemma {:induction false} GatherLast(acc: seq<Entry>, es: seq<Entry>, k: Item, j: nat)
    requires j < |es| && Eq(es[j].key, k) && forall i :: j < i < |es| ==> !Eq(es[i].key, k)
    ensures Lookup(Gather(acc, es), k) == Some(es[j].value)
    decreases es
  {
    hide Eq, Lookup, PutEntry;
    var acc' := PutEntry(acc, es[0].key, es[0].value);
    if j == 0 {
      PutEntryLookup(acc, es[0].key, es[0].value, k);
      GatherOther(acc', es[1..], k);
    } else {
      GatherLast(acc', es[1..], k, j - 1);
    }
  }

  /** Of equal keys the map keeps the first, and no two. */
  lemma {:induction false} PutEntryKeys(es: seq<Entry>, key: Item, value: Item)
    ensures var r := PutEntry(es, key, value);
      |es| <= |r| && (forall i :: 0 <= i < |es| ==> r[i].key == es[i].key)
      && if exists i :: 0 <= i < |es| && Eq(es[i].key, key) then |r| == |es|
         else |r| == |es| + 1 && r[|es|].key == key
  {
    hide Eq;
    if es != [] {
      PutEntryKeys(es[1..], key, value);
      if !Eq(es[0].key, key) {
        var r, t := PutEntry(es, key, value), PutEntry(es[1..], key, value);
        assert r == [es[0]] + t;
        if i :| 0 <= i < |es| && Eq(es[i].key, key) { assert es[1..][i - 1] == es[i]; }
        if i :| 0 <= i < |es[1..]| && Eq(es[1..][i].key, key) { assert es[i + 1] == es[1..][i]; }
      }
    }
  }

  /** The key `k` is that of an entry none before which has an equal key. */
  predicate First(k: Item, es: seq<Entry>) {
    exists j :: 0 <= j < |es| && es[j].key == k && forall i :: 0 <= i < j ==> !Eq(es[i].key, k)
  }

  /** So the keys are those that came first. */
  lemma {:induction false} GatherFirst(acc: seq<Entry>, es: seq<Entry>)
    requires KeysUnequal(acc)
    ensures var r := Gather(acc, es);
      KeysUnequal(r) && |acc| <= |r| && (forall i :: 0 <= i < |acc| ==> r[i].key == acc[i].key)
      && forall i :: |acc| <= i < |r| ==> First(r[i].key, es)
    decreases es
  {
    hide Eq, PutEntry, First;
    if es != [] {
      var acc', r := PutEntry(acc, es[0].key, es[0].value), Gather(acc, es);
      PutEntryKeys(acc, es[0].key, es[0].value);
      PutKeepsUnequal(acc, es[0]);
      GatherFirst(acc', es[1..]);
      forall i | |acc| <= i < |r| ensures First(r[i].key, es) {
        if i < |acc'| {
          FirstOfAll(es);
        } else {
          if a :| 0 <= a < |acc| && Eq(acc[a].key, es[0].key) {
            if Eq(es[0].key, r[i].key) { EqTransitive(acc[a].key, es[0].key, r[i].key); }
          }
          FirstOfRest(r[i].key, es);
        }
      }
    }
  }

  lemma PutKeepsUnequal(acc: seq<Entry>, e: Entry)
    requires KeysUnequal(acc)
    ensures KeysUnequal(PutEntry(acc, e.key, e.value))
  {
    hide Eq, PutEntry;
    PutEntryKeys(acc, e.key, e.value);
  }

  lemma FirstOfAll(es: seq<Entry>)
    requires es != []
    ensures First(es[0].key, es)
  {
  }

  lemma FirstOfRest(k: Item, es: seq<Entry>)
    requires es != [] && First(k, es[1..]) && !Eq(es[0].key, k)
    ensures First(k, es)
  {
    var j :| 0 <= j < |es[1..]| && es[1..][j].key == k && forall i :: 0 <= i < j ==> !Eq(es[1..][i].key, k);
    assert es[j + 1] == es[1..][j];
    forall i | 0 <= i < j + 1 ensures !Eq(es[i].key, k) {
      if i > 0 { assert es[1..][i - 1] == es[i]; }
    }
  }

  lemma {:induction false} EntriesRead(n: int, s: seq<byte>, p: nat, c: Table, acc: seq<Entry>) returns (es: seq<Entry>)
    requires p <= |s| && DecodeEntries(n, s, p, c, acc).Ok?
    ensures var d := DecodeEntries(n, s, p, c, acc);
      && d.value == Gather(acc, es) && |es| == Accepted.Count(n)
      && ReadTokens(EntryTokens(es), s, p, c) == Here(d.next, d.ctx)
    decreases |s| - p
  {
    hide Decode, PutEntry;
    if n <= 0 {
      es := [];
    } else {
      var k := Decode(s, p, c);
      var v := Decode(s, k.next, k.ctx);
      var rest := EntriesRead(n - 1, s, v.next, v.ctx, PutEntry(acc, k.value, v.value));
      es := [Entry(k.value, v.value)] + rest;
      assert es[1..] == rest;
      EntryStep(es, s, p, c);
    }
  }

  lemma EntryStep(es: seq<Entry>, s: seq<byte>, p: nat, c: Table)
    requires es != [] && p <= |s|
    ensures ReadTokens(EntryTokens(es), s, p, c) ==
      var k := Decode(s, p, c);
      if k.Bad? || k.value != es[0].key then Nowhere else
        var v := Decode(s, k.next, k.ctx);
        if v.Bad? || v.value != es[0].value then Nowhere else ReadTokens(EntryTokens(es[1..]), s, v.next, v.ctx)
  {
    hide Decode;
    EntryTokensStep(es);
    var ts := EntryTokens(es[1..]);
    assert ([Value(es[0].key), Value(es[0].value)] + ts)[1..] == [Value(es[0].value)] + ts;
    assert ([Value(es[0].value)] + ts)[1..] == ts;
  }

  lemma {:induction false} EntriesAccepted(es: seq<Entry>, n: int, s: seq<byte>, p: nat, c: Table, acc: seq<Entry>)
    requires p <= |s| && |es| == Accepted.Count(n) && ReadTokens(EntryTokens(es), s, p, c).Here?
    ensures var r := ReadTokens(EntryTokens(es), s, p, c);
      DecodeEntries(n, s, p, c, acc) == Ok(Gather(acc, es), r.next, r.ctx)
    decreases es
  {
    hide Decode, PutEntry;
    if es != [] {
      EntryStep(es, s, p, c);
      var v := Decode(s, Decode(s, p, c).next, Decode(s, p, c).ctx);
      EntriesAccepted(es[1..], n - 1, s, v.next, v.ctx, PutEntry(acc, es[0].key, es[0].value));
    }
  }

  /** A reference to the first known dictionary with the index. */
  predicate AsReference(s: seq<byte>, p: nat, known: seq<Known>, d: Dictionary, q: nat) {
    && p < |s| && s[p] == 17
    && exists k :: 0 <= k < |known| && known[k].dict == d && U29.Read(s, p + 1) == U29.Got(2 * known[k].index, q)
                   && forall j :: 0 <= j < k ==> known[j].index != known[k].index
  }

  /** Marker 17, count, a byte that is not 0 on a weak dictionary, and keys and values in turn. */
  predicate InFull(s: seq<byte>, p: nat, c: Table, n: int, b: byte, es: seq<Entry>, q: nat, e: Table)
    requires p <= |s|
  {
    && |es| == Accepted.Count(n)
    && ReadTokens([Byte(17), Length(n), Byte(b)] + EntryTokens(es), s, p,
                  c.(objects := c.objects + [Done(Loop(|c.objects|))])) == Here(q, e)
  }

  lemma FullStep(s: seq<byte>, p: nat, n: int, b: byte, es: seq<Entry>, c: Table)
    requires p <= |s|
    ensures ReadTokens([Byte(17), Length(n), Byte(b)] + EntryTokens(es), s, p, c) ==
      var h := U29.Read(s, p + 1);
      if p < |s| && s[p] == 17 && h.Got? && h.value == 2 * n + 1 && h.next < |s| && s[h.next] == b
      then ReadTokens(EntryTokens(es), s, h.next + 1, c) else Nowhere
  {
    hide U29.Read, ReadTokens, EntryTokens;
    var rest := EntryTokens(es);
    assert [Byte(17), Length(n), Byte(b)] + rest == [Byte(17)] + ([Length(n)] + ([Byte(b)] + rest));
    Accepted.ByteStep(17, [Length(n)] + ([Byte(b)] + rest), s, p, c);
    if p < |s| {
      Accepted.HeadStep(Length(n), [Byte(b)] + rest, s, p + 1, c);
      var h := U29.Read(s, p + 1);
      if h.Got? { Accepted.ByteStep(b, rest, s, h.next, c); }
    }
  }

  /** A reference, or a dictionary in full, which holds what came last under every key. */
  ghost predicate Accepts(s: seq<byte>, p: nat, c: Table, known: seq<Known>, r: Decoding, q: nat, e: Table)
    requires p <= |s|
  {
    || (AsReference(s, p, known, r.dict, q) && r.known == known && e == c)
    || (r.known == known + [Known(|c.objects|, r.dict)]
        && exists n, b, es :: InFull(s, p, c, n, b, es, q, e) && r.dict == Dictionary(Gather([], es), b != 0))
  }

  lemma DictionaryRead(s: seq<byte>, p: nat, c: Table, known: seq<Known>)
    requires p <= |s| && DecodeDictionary(s, p, c, known).Ok?
    ensures var r := DecodeDictionary(s, p, c, known);
      Accepts(s, p, c, known, r.value, r.next, r.ctx)
  {
    hide U29.Read, DecodeEntries, Gather, ReadTokens, EntryTokens;
    var h := U29.Read(s, p + 1);
    if h.value % 2 == 0 {
      var k := AtIndex(known, h.value / 2);
    } else {
      var n, b, e := h.value / 2, s[h.next], AddObject(c, Done(Loop(|c.objects|)));
      var es := EntriesRead(n, s, h.next + 1, e, []);
      FullStep(s, p, n, b, es, e);
      var r := DecodeDictionary(s, p, c, known);
      assert InFull(s, p, c, n, b, es, r.next, r.ctx);
    }
  }

  lemma {:induction false} AtIndex(known: seq<Known>, i: int) returns (k: nat)
    requires DictionaryAt(known, i).Some?
    ensures k < |known| && known[k].index == i && known[k].dict == DictionaryAt(known, i).value
    ensures forall j :: 0 <= j < k ==> known[j].index != i
  {
    if known[0].index == i {
      k := 0;
    } else {
      k := AtIndex(known[1..], i);
      k := k + 1;
    }
  }

  lemma DictionaryAccepted(s: seq<byte>, p: nat, c: Table, known: seq<Known>, n: int, b: byte, es: seq<Entry>, q: nat,
                           e: Table)
    requires p <= |s| && InFull(s, p, c, n, b, es, q, e)
    ensures var d := Dictionary(Gather([], es), b != 0);
      DecodeDictionary(s, p, c, known) == Ok(Decoding(d, known + [Known(|c.objects|, d)]), q, e)
  {
    hide U29.Read, DecodeEntries, Gather, ReadTokens, EntryTokens;
    var e1 := AddObject(c, Done(Loop(|c.objects|)));
    FullStep(s, p, n, b, es, e1);
    var h := U29.Read(s, p + 1);
    EntriesAccepted(es, n, s, h.next + 1, e1, []);
  }

  lemma ReferenceAccepted(s: seq<byte>, p: nat, c: Table, known: seq<Known>, d: Dictionary, q: nat)
    requires p <= |s| && AsReference(s, p, known, d, q)
    ensures DecodeDictionary(s, p, c, known) == Ok(Decoding(d, known), q, c)
  {
    hide U29.Read;
    var k :| 0 <= k < |known| && known[k].dict == d && U29.Read(s, p + 1) == U29.Got(2 * known[k].index, q)
             && forall j :: 0 <= j < k ==> known[j].index != known[k].index;
    FirstAt(known, k);
  }

  lemma {:induction false} FirstAt(known: seq<Known>, k: nat)
    requires k < |known| && forall j :: 0 <= j < k ==> known[j].index != known[k].index
    ensures DictionaryAt(known, known[k].index) == Some(known[k].dict)
  {
    if k > 0 { FirstAt(known[1..], k - 1); }
  }

  /** Exactly references and dictionaries in full are accepted. */
  lemma DictionaryAcceptedIff(s: seq<byte>, p: nat, c: Table, known: seq<Known>, r: Decoding, q: nat, e: Table)
    requires p <= |s|
    ensures DecodeDictionary(s, p, c, known) == Ok(r, q, e) <==> Accepts(s, p, c, known, r, q, e)
  {
    hide DecodeDictionary, AsReference, InFull, Gather;
    if DecodeDictionary(s, p, c, known) == Ok(r, q, e) { DictionaryRead(s, p, c, known); }
    if AsReference(s, p, known, r.dict, q) { ReferenceAccepted(s, p, c, known, r.dict, q); }
    if n, b, es :| InFull(s, p, c, n, b, es, q, e) && r.dict == Dictionary(Gather([], es), b != 0) {
      DictionaryAccepted(s, p, c, known, n, b, es, q, e);
    }
  }
}
