/** The encoding delimits itself: what follows an item does not affect how it is read. */
module Framing {
  import opened Words
  import opened Names
  import opened Items
  import opened Encoder
  import opened Decoder
  import opened Lockstep
  import opened RoundTrip
  import U29

  lemma {:induction false} ScanAppend(s: seq<byte>, t: seq<byte>, p: nat, i: nat, val: nat)
    requires p < |s| && U29.Scan(s, p, i, val).Got?
    ensures U29.Scan(s + t, p, i, val) == U29.Scan(s, p, i, val)
    decreases |s| - p
  {
    assert (s + t)[p] == s[p];
    if i < 3 && s[p] >= 0x80 {
      ScanAppend(s, t, p + 1, i + 1, val * 0x80 + s[p] % 0x80);
    }
  }

  lemma ReadAppend(s: seq<byte>, t: seq<byte>, p: nat)
    requires U29.Read(s, p).Got?
    ensures U29.Read(s + t, p) == U29.Read(s, p)
  {
    ScanAppend(s, t, p, 0, 0);
  }

  lemma StringAppend(s: seq<byte>, t: seq<byte>, p: nat, c: Table)
    requires DecodeString(s, p, c).Ok?
    ensures DecodeString(s + t, p, c) == DecodeString(s, p, c)
  {
    hide U29.Read;
    ReadAppend(s, t, p);
    var h := U29.Read(s, p);
    if h.value % 2 == 1 {
      assert (s + t)[h.next..h.next + h.value / 2] == s[h.next..h.next + h.value / 2];
    }
  }

  lemma {:induction false} NamesAppend(n: int, s: seq<byte>, t: seq<byte>, p: nat, c: Table, acc: seq<Text>)
    requires p <= |s| && DecodeNames(n, s, p, c, acc).Ok?
    ensures DecodeNames(n, s + t, p, c, acc) == DecodeNames(n, s, p, c, acc)
    decreases |s| - p
  {
    hide DecodeString, Settles;
    if n > 0 {
      var name := DecodeString(s, p, c);
      StringAppend(s, t, p, c);
      NamesAppend(n - 1, s, t, name.next, name.ctx, acc + [name.value]);
    }
  }

  lemma TraitsAppend(h: int, s: seq<byte>, t: seq<byte>, p: nat, c: Table)
    requires p <= |s| && DecodeTraits(h, s, p, c).Ok?
    ensures DecodeTraits(h, s + t, p, c) == DecodeTraits(h, s, p, c)
  {
    hide DecodeString, DecodeNames, Settles;
    if h % 4 != 1 {
      var name := DecodeString(s, p, c);
      StringAppend(s, t, p, c);
      NamesAppend(h / 16, s, t, name.next, name.ctx, []);
    }
  }

  lemma {:induction false} WordsAppend(s: seq<byte>, t: seq<byte>, p: nat, n: nat)
    requires p + 4 * n <= |s|
    ensures ReadWords(s + t, p, n) == ReadWords(s, p, n)
    decreases n
  {
    if n > 0 {
      WordsAppend(s, t, p + 4, n - 1);
    }
  }

  lemma LeafAppend(m: byte, h: int, s: seq<byte>, t: seq<byte>, p: nat, c: Table)
    requires p <= |s|
    ensures DecodeData(m, h, s, p, c).Ok? ==> DecodeData(m, h, s + t, p, c) == DecodeData(m, h, s, p, c)
    ensures DecodeNumbers(m, h, s, p, c).Ok? ==> DecodeNumbers(m, h, s + t, p, c) == DecodeNumbers(m, h, s, p, c)
  {
    hide ReadWords;
    if DecodeData(m, h, s, p, c).Ok? {
      assert (s + t)[p..p + h] == s[p..p + h];
    }
    if DecodeNumbers(m, h, s, p, c).Ok? {
      WordsAppend(s, t, p + 1, h);
    }
  }

  lemma SimpleAppend(s: seq<byte>, t: seq<byte>, p: nat, c: Table)
    requires p < |s| && DecodeSimple(s, p, c).Ok?
    ensures DecodeSimple(s + t, p, c) == DecodeSimple(s, p, c)
  {
    hide DecodeString, U29.Read, Settles;
    if s[p] == INTEGER {
      ReadAppend(s, t, p + 1);
    } else if s[p] == DOUBLE {
      assert (s + t)[p + 1..p + 9] == s[p + 1..p + 9];
    } else if s[p] == STRING {
      StringAppend(s, t, p + 1, c);
    }
  }

  /** A successful decoding is unchanged by whatever bytes come after. */
  lemma {:induction false} DecodeAppend(s: seq<byte>, t: seq<byte>, p: nat, c: Table)
    requires p <= |s| && Decode(s, p, c).Ok?
    ensures Decode(s + t, p, c) == Decode(s, p, c)
    decreases |s| - p, 0
  {
    hide DecodeSimple, DecodeBody, U29.Read, Settles;
    assert (s + t)[p] == s[p];
    if s[p] in {XMLDOC, XML, BYTEARRAY, VECTOR_INT, VECTOR_UINT, ARRAY, OBJECT, VECTOR_OBJECT} {
      var h := U29.Read(s, p + 1);
      ReadAppend(s, t, p + 1);
      if h.value % 2 != 0 {
        BodyAppend(s[p], h.value, s, t, h.next, c);
      }
    } else {
      SimpleAppend(s, t, p, c);
    }
  }

  lemma {:induction false} BodyAppend(m: byte, h: int, s: seq<byte>, t: seq<byte>, p: nat, c: Table)
    requires p <= |s| && DecodeBody(m, h, s, p, c).Ok?
    ensures DecodeBody(m, h, s + t, p, c) == DecodeBody(m, h, s, p, c)
    decreases |s| - p, 3
  {
    hide DecodeArray, DecodeObject, DecodeVector, DecodeData, DecodeNumbers, Settles;
    if m == ARRAY {
      ArrayAppend(h / 2, s, t, p, c);
    } else if m == OBJECT {
      ObjectAppend(h, s, t, p, c);
    } else if m == VECTOR_OBJECT {
      VectorAppend(h / 2, s, t, p, c);
    } else {
      LeafAppend(m, h / 2, s, t, p, c);
    }
  }

  lemma {:induction false} ArrayAppend(n: int, s: seq<byte>, t: seq<byte>, p: nat, c: Table)
    requires p <= |s| && DecodeArray(n, s, p, c).Ok?
    ensures DecodeArray(n, s + t, p, c) == DecodeArray(n, s, p, c)
    decreases |s| - p, 2
  {
    hide DecodeProps, DecodeSeq, Settles;
    var c1 := AddObject(c, Open(ARRAY));
    var named := DecodeProps(s, p, c1, NO_PROPS);
    PropsAppend(s, t, p, c1, NO_PROPS);
    SeqAppend(n, s, t, named.next, named.ctx, []);
  }

  lemma {:induction false} ObjectAppend(h: int, s: seq<byte>, t: seq<byte>, p: nat, c: Table)
    requires p <= |s| && DecodeObject(h, s, p, c).Ok?
    ensures DecodeObject(h, s + t, p, c) == DecodeObject(h, s, p, c)
    decreases |s| - p, 2
  {
    hide DecodeProps, DecodeSealed, DecodeTraits;
    var traits := DecodeTraits(h, s, p, c);
    TraitsAppend(h, s, t, p, c);
    var c1 := AddObject(traits.ctx, Open(OBJECT));
    var sealed := DecodeSealed(traits.value.attributes, s, traits.next, c1, NO_PROPS);
    SealedAppend(traits.value.attributes, s, t, traits.next, c1, NO_PROPS);
    if traits.value.dynamic {
      PropsAppend(s, t, sealed.next, sealed.ctx, NO_PROPS);
    }
  }

  lemma {:induction false} VectorAppend(n: int, s: seq<byte>, t: seq<byte>, p: nat, c: Table)
    requires p <= |s| && DecodeVector(n, s, p, c).Ok?
    ensures DecodeVector(n, s + t, p, c) == DecodeVector(n, s, p, c)
    decreases |s| - p, 2
  {
    hide DecodeString, DecodeSeq;
    var name := DecodeString(s, p + 1, c);
    StringAppend(s, t, p + 1, c);
    SeqAppend(n, s, t, name.next, AddObject(name.ctx, Open(VECTOR_OBJECT)), []);
  }

  lemma {:induction false} SeqAppend(n: int, s: seq<byte>, t: seq<byte>, p: nat, c: Table, acc: seq<Item>)
    requires p <= |s| && DecodeSeq(n, s, p, c, acc).Ok?
    ensures DecodeSeq(n, s + t, p, c, acc) == DecodeSeq(n, s, p, c, acc)
    decreases |s| - p, 1
  {
    hide Decode, Settles;
    if n > 0 {
      var x := Decode(s, p, c);
      DecodeAppend(s, t, p, c);
      SeqAppend(n - 1, s, t, x.next, x.ctx, acc + [x.value]);
    }
  }

  lemma {:induction false} PropsAppend(s: seq<byte>, t: seq<byte>, p: nat, c: Table, acc: Props<Item>)
    requires p <= |s| && DecodeProps(s, p, c, acc).Ok?
    ensures DecodeProps(s + t, p, c, acc) == DecodeProps(s, p, c, acc)
    decreases |s| - p, 1
  {
    hide Decode, DecodeString, Settles, Put;
    var name := DecodeString(s, p, c);
    StringAppend(s, t, p, c);
    if name.value != [] {
      var x := Decode(s, name.next, name.ctx);
      DecodeAppend(s, t, name.next, name.ctx);
      PropsAppend(s, t, x.next, x.ctx, Put(acc, name.value, x.value));
    }
  }

  lemma {:induction false} SealedAppend(names: seq<Text>, s: seq<byte>, t: seq<byte>, p: nat, c: Table,
                                        acc: Props<Item>)
    requires p <= |s| && DecodeSealed(names, s, p, c, acc).Ok?
    ensures DecodeSealed(names, s + t, p, c, acc) == DecodeSealed(names, s, p, c, acc)
    decreases |s| - p, 1
  {
    hide Decode, Settles, Put;
    if names != [] {
      var x := Decode(s, p, c);
      DecodeAppend(s, t, p, c);
      SealedAppend(names[1..], s, t, x.next, x.ctx, Put(acc, names[0], x.value));
    }
  }

  // ----- Consequences for what the encoder writes -----

  lemma WholeInput(x: Item, c: Context, m: Policy)
    requires WellFormed(x) && Ready(c, {}, Depth(x), m) && Encode(x, c, m).Wrote? && Encode(x, c, m).exact
    ensures var r := Encode(x, c, m); Decode(r.bytes, 0, View(c, {})) == Ok(Canon(x), |r.bytes|, View(r.ctx, {}))
  {
    var r := Encode(x, c, m);
    assert r.bytes[0..|r.bytes|] == r.bytes;
    RoundTripItem(x, c, m, {}, r.bytes, 0);
  }
}
