/** What the decoder accepts: exactly the sentences of the format, and references. */
module Accepted {
  import opened Words
  import opened Names
  import opened Items
  import opened Encoder
  import opened Decoder
  import opened Grammar
  import Delimiting
  import U29

  // ----- Maps filled in the order of the wire -----

  function PutAll(acc: Props<Item>, names: seq<Text>, values: seq<Item>): Props<Item>
    requires |names| == |values|
    decreases names
  {
    if names == [] then acc else PutAll(Put(acc, names[0], values[0]), names[1..], values[1..])
  }

  lemma {:induction false} PutAllOther(acc: Props<Item>, names: seq<Text>, values: seq<Item>, n: Text)
    requires |names| == |values| && n !in names
    ensures Find(PutAll(acc, names, values), n) == Find(acc, n)
    decreases names
  {
    if names != [] {
      FindPut(acc, names[0], values[0], n);
      PutAllOther(Put(acc, names[0], values[0]), names[1..], values[1..], n);
    }
  }

  lemma {:induction false} PutAllLast(acc: Props<Item>, names: seq<Text>, values: seq<Item>, j: nat)
    requires |names| == |values| && j < |names| && names[j] !in names[j + 1..]
    ensures Find(PutAll(acc, names, values), names[j]) == Some(values[j])
    decreases names
  {
    var acc' := Put(acc, names[0], values[0]);
    if j == 0 {
      FindPut(acc, names[0], values[0], names[0]);
      PutAllOther(acc', names[1..], values[1..], names[0]);
    } else {
      assert names[1..][j..] == names[j + 1..];
      PutAllLast(acc', names[1..], values[1..], j - 1);
    }
  }

  lemma {:induction false} LastOf(names: seq<Text>, n: Text) returns (j: nat)
    requires n in names
    ensures j < |names| && names[j] == n && n !in names[j + 1..]
  {
    if n in names[1..] {
      j := LastOf(names[1..], n);
      assert names[1..][j + 1..] == names[j + 2..];
      j := j + 1;
    } else {
      j := 0;
    }
  }

  lemma PutAllLatest(names: seq<Text>, values: seq<Item>)
    requires |names| == |values|
    ensures Latest(PutAll(NO_PROPS, names, values), names, values)
  {
    var p := PutAll(NO_PROPS, names, values);
    forall n ensures Find(p, n).Some? <==> n in names {
      if n in names {
        var j := LastOf(names, n);
        PutAllLast(NO_PROPS, names, values, j);
      } else {
        PutAllOther(NO_PROPS, names, values, n);
      }
    }
    forall j | 0 <= j < |names| && names[j] !in names[j + 1..] ensures Find(p, names[j]) == Some(values[j]) {
      PutAllLast(NO_PROPS, names, values, j);
    }
  }

  lemma FoundIff(p: Props<Item>, n: Text)
    ensures Find(p, n).Some? <==> n in p.names
  {
    RankSplits(p.names, n);
  }

  /** Only one map holds that. */
  lemma LatestUnique(p: Props<Item>, q: Props<Item>, names: seq<Text>, values: seq<Item>)
    requires |names| == |values| && Latest(p, names, values) && Latest(q, names, values)
    ensures p == q
  {
    hide Find;
    forall n ensures n in p.names <==> n in q.names {
      FoundIff(p, n);
      FoundIff(q, n);
    }
    AscendingDetermined(p.names, q.names);
    forall i | 0 <= i < |p.names| ensures p.values[i] == q.values[i] {
      FindAt(p, i);
      FindAt(q, i);
      var j := LastOf(names, p.names[i]);
    }
  }

  // ----- Lists -----

  function Count(n: int): nat {
    if n < 0 then 0 else n
  }

  lemma {:induction false} NamesRead(n: int, s: seq<byte>, p: nat, c: Table, acc: seq<Text>) returns (names: seq<Text>)
    requires p <= |s| && DecodeNames(n, s, p, c, acc).Ok?
    ensures var d := DecodeNames(n, s, p, c, acc);
      d.value == acc + names && |names| == Count(n) && ReadTokens(NameList(names), s, p, c) == Here(d.next, d.ctx)
    decreases |s| - p
  {
    hide DecodeString, Settles;
    if n <= 0 {
      names := [];
    } else {
      var first := DecodeString(s, p, c);
      var rest := NamesRead(n - 1, s, first.next, first.ctx, acc + [first.value]);
      names := [first.value] + rest;
      NameListStep(names);
      assert names[1..] == rest && acc + [first.value] + rest == acc + names;
    }
  }

  lemma {:induction false} NamesAccepted(names: seq<Text>, n: int, s: seq<byte>, p: nat, c: Table, acc: seq<Text>)
    requires p <= |s| && |names| == Count(n) && ReadTokens(NameList(names), s, p, c).Here?
    ensures var r := ReadTokens(NameList(names), s, p, c);
      DecodeNames(n, s, p, c, acc) == Ok(acc + names, r.next, r.ctx)
    decreases names
  {
    hide DecodeString, Settles;
    if names == [] {
      assert acc + names == acc;
    } else {
      NameListStep(names);
      var first := DecodeString(s, p, c);
      NamesAccepted(names[1..], n - 1, s, first.next, first.ctx, acc + [names[0]]);
      assert acc + [names[0]] + names[1..] == acc + names;
    }
  }

  lemma {:induction false} SeqRead(n: int, s: seq<byte>, p: nat, c: Table, acc: seq<Item>) returns (xs: seq<Item>)
    requires p <= |s| && DecodeSeq(n, s, p, c, acc).Ok?
    ensures var d := DecodeSeq(n, s, p, c, acc);
      d.value == acc + xs && |xs| == Count(n) && ReadTokens(Values(xs), s, p, c) == Here(d.next, d.ctx)
    decreases |s| - p
  {
    hide Decode, Settles;
    if n <= 0 {
      xs := [];
    } else {
      var first := Decode(s, p, c);
      var rest := SeqRead(n - 1, s, first.next, first.ctx, acc + [first.value]);
      xs := [first.value] + rest;
      ValuesStep(xs);
      assert xs[1..] == rest && acc + [first.value] + rest == acc + xs;
    }
  }

  lemma {:induction false} SeqAccepted(xs: seq<Item>, n: int, s: seq<byte>, p: nat, c: Table, acc: seq<Item>)
    requires p <= |s| && |xs| == Count(n) && ReadTokens(Values(xs), s, p, c).Here?
    ensures var r := ReadTokens(Values(xs), s, p, c);
      DecodeSeq(n, s, p, c, acc) == Ok(acc + xs, r.next, r.ctx)
    decreases xs
  {
    hide Decode, Settles;
    if xs == [] {
      assert acc + xs == acc;
    } else {
      ValuesStep(xs);
      var first := Decode(s, p, c);
      SeqAccepted(xs[1..], n - 1, s, first.next, first.ctx, acc + [xs[0]]);
      assert acc + [xs[0]] + xs[1..] == acc + xs;
    }
  }

  lemma {:induction false} SealedRead(names: seq<Text>, s: seq<byte>, p: nat, c: Table, acc: Props<Item>)
    returns (vs: seq<Item>)
    requires p <= |s| && DecodeSealed(names, s, p, c, acc).Ok?
    ensures var d := DecodeSealed(names, s, p, c, acc);
      |vs| == |names| && d.value == PutAll(acc, names, vs) && ReadTokens(Values(vs), s, p, c) == Here(d.next, d.ctx)
    decreases |s| - p
  {
    hide Decode, Settles, Put;
    if names == [] {
      vs := [];
    } else {
      var first := Decode(s, p, c);
      var rest := SealedRead(names[1..], s, first.next, first.ctx, Put(acc, names[0], first.value));
      vs := [first.value] + rest;
      ValuesStep(vs);
      assert vs[1..] == rest;
    }
  }

  lemma {:induction false} SealedAccepted(names: seq<Text>, vs: seq<Item>, s: seq<byte>, p: nat, c: Table,
                                          acc: Props<Item>)
    requires p <= |s| && |vs| == |names| && ReadTokens(Values(vs), s, p, c).Here?
    ensures var r := ReadTokens(Values(vs), s, p, c);
      DecodeSealed(names, s, p, c, acc) == Ok(PutAll(acc, names, vs), r.next, r.ctx)
    decreases names
  {
    hide Decode, Settles, Put;
    if names != [] {
      ValuesStep(vs);
      var first := Decode(s, p, c);
      SealedAccepted(names[1..], vs[1..], s, first.next, first.ctx, Put(acc, names[0], vs[0]));
    }
  }

  /** Named members and the empty name that ends them. */
  function Closed(names: seq<Text>, values: seq<Item>): seq<Token>
    requires |names| == |values|
  {
    Members(names, values) + [Name([])]
  }

  lemma ClosedStep(names: seq<Text>, values: seq<Item>, s: seq<byte>, p: nat, c: Table)
    requires |names| == |values| && names != [] && p <= |s|
    ensures ReadTokens(Closed(names, values), s, p, c) ==
      var name := DecodeString(s, p, c);
      if name.Bad? || name.value != names[0] then Nowhere else
        var x := Decode(s, name.next, name.ctx);
        if x.Bad? || x.value != values[0] then Nowhere
        else ReadTokens(Closed(names[1..], values[1..]), s, x.next, x.ctx)
  {
    hide Decode, DecodeString, Settles;
    MembersStep(names, values);
    var rest := Closed(names[1..], values[1..]);
    assert Closed(names, values) == [Name(names[0]), Value(values[0])] + rest;
    assert Closed(names, values)[1..] == [Value(values[0])] + rest;
    assert Closed(names, values)[1..][1..] == rest;
  }

  lemma ClosedEmpty(s: seq<byte>, p: nat, c: Table)
    requires p <= |s|
    ensures ReadTokens(Closed([], []), s, p, c) ==
      var name := DecodeString(s, p, c); if name.Bad? || name.value != [] then Nowhere else Here(name.next, name.ctx)
  {
    hide DecodeString, Settles;
    assert Closed([], []) == [Name([])];
    ReadOneToken(Name([]), s, p, c);
  }

  lemma {:induction false} PropsRead(s: seq<byte>, p: nat, c: Table, acc: Props<Item>)
    returns (names: seq<Text>, values: seq<Item>)
    requires p <= |s| && DecodeProps(s, p, c, acc).Ok?
    ensures |names| == |values| && [] !in names
    ensures var d := DecodeProps(s, p, c, acc);
      d.value == PutAll(acc, names, values) && ReadTokens(Closed(names, values), s, p, c) == Here(d.next, d.ctx)
    decreases |s| - p
  {
    hide Decode, DecodeString, Settles, Put, Closed;
    var name := DecodeString(s, p, c);
    if name.value == [] {
      names, values := [], [];
      ClosedEmpty(s, p, c);
    } else {
      var x := Decode(s, name.next, name.ctx);
      var ns, vs := PropsRead(s, x.next, x.ctx, Put(acc, name.value, x.value));
      names, values := [name.value] + ns, [x.value] + vs;
      assert names[1..] == ns && values[1..] == vs;
      ClosedStep(names, values, s, p, c);
    }
  }

  lemma {:induction false} PropsAccepted(names: seq<Text>, values: seq<Item>, s: seq<byte>, p: nat, c: Table,
                                         acc: Props<Item>)
    requires p <= |s| && |names| == |values| && [] !in names && ReadTokens(Closed(names, values), s, p, c).Here?
    ensures var r := ReadTokens(Closed(names, values), s, p, c);
      DecodeProps(s, p, c, acc) == Ok(PutAll(acc, names, values), r.next, r.ctx)
    decreases names
  {
    hide Decode, DecodeString, Settles, Put, Closed;
    if names == [] {
      ClosedEmpty(s, p, c);
    } else {
      ClosedStep(names, values, s, p, c);
      var x := Decode(s, DecodeString(s, p, c).next, DecodeString(s, p, c).ctx);
      PropsAccepted(names[1..], values[1..], s, x.next, x.ctx, Put(acc, names[0], values[0]));
    }
  }

  // ----- Sentences -----

  /** Traits by reference, or in line: their names are taken as they come. */
  ghost predicate TraitsText(t: Traits, known: seq<Traits>, ts: seq<Token>) {
    !t.externalizable && ((exists i :: TraitsReference(t, known, i, ts)) || exists n :: TraitsInLine(t, n, ts))
  }

  predicate TraitsReference(t: Traits, known: seq<Traits>, i: nat, ts: seq<Token>) {
    i < |known| && known[i] == t && ts == [TraitsAt(i)]
  }

  predicate TraitsInLine(t: Traits, n: int, ts: seq<Token>) {
    |t.attributes| == Count(n)
    && ts == [Head(16 * n + (if t.dynamic then 11 else 3)), Name(t.className)] + NameList(t.attributes) + [Learn(t)]
  }

  predicate NumbersText(x: Item, b: byte, raw: seq<byte>, ts: seq<Token>) {
    && x.Numbers? && BigEndian(x.numbers, raw) && (x.fixed <==> b == 1)
    && ts == [Byte(if x.width.Ints? then 13 else 14), Length(|x.numbers|), Byte(b), Bytes(raw)]
  }

  ghost predicate ArrayText(x: Item, n: int, names: seq<Text>, values: seq<Item>, ts: seq<Token>) {
    && x.Array? && |names| == |values| && [] !in names && Latest(x.assoc, names, values) && |x.dense| == Count(n)
    && ts == [Byte(9), Length(n)] + (Members(names, values) + [Name([])]) + Values(x.dense)
  }

  /** The `j`-th value on the wire belongs to the `j`-th attribute; under a name given twice the last one stays. */
  ghost predicate ObjectText(x: Item, head: seq<Token>, known: seq<Traits>, vs: seq<Item>, names: seq<Text>,
                             us: seq<Item>, ts: seq<Token>) {
    && x.Object? && x.node == 0 && TraitsText(x.traits, known, head)
    && |vs| == |x.traits.attributes| && Latest(x.sealed, x.traits.attributes, vs)
    && |names| == |us| && [] !in names && Latest(x.dyn, names, us) && (!x.traits.dynamic ==> names == [])
    && ts == [Byte(10)] + head + Values(vs) + (if x.traits.dynamic then Members(names, us) + [Name([])] else [])
  }

  predicate VectorText(x: Item, b: byte, ts: seq<Token>) {
    && x.Vector? && (x.fixed <==> b == 1)
    && ts == [Byte(16), Length(|x.values|), Byte(b), Name(x.typeName)] + Values(x.values)
  }

  /** `ts` is a way to send `x` in full, traits entries `known`. */
  ghost predicate Sentence(x: Item, known: seq<Traits>, ts: seq<Token>) {
    match x
    case Undefined => ts == [Byte(0)]
    case Null => ts == [Byte(1)]
    case Bool(on) => ts == [Byte(if on then 3 else 2)]
    case Integer(v) => ts == [Byte(4), Head(v)]
    case Double(m, _) => ts == [Byte(5), Bytes([m[7], m[6], m[5], m[4], m[3], m[2], m[1], m[0]])]
    case Str(t) => ts == [Byte(6), Name(t)]
    case Data(k, b) =>
      ts == [Byte(match k case XmlDocument => 7 case Xml => 11 case ByteArray => 12), Length(|b|), Bytes(b)]
    case Numbers(_, _, _) => exists b, raw :: NumbersText(x, b, raw, ts)
    case Array(_, _) => exists n, names, values :: ArrayText(x, n, names, values, ts)
    case Object(_, _, _, _) => exists head, vs, names, us :: ObjectText(x, head, known, vs, names, us, ts)
    case Vector(_, _, _) => exists b :: VectorText(x, b, ts)
    case Loop(_) => false
  }

  /** Containers enter the table before anything in them is read. */
  function Entering(c: Table, x: Item): Table {
    match x
    case Array(_, _) => c.(objects := c.objects + [Open(9)])
    case Object(_, _, _, _) => c.(objects := c.objects + [Open(10)])
    case Vector(_, _, _) => c.(objects := c.objects + [Open(16)])
    case _ => c
  }

  /** Afterwards the entry `i` is finished; byte arrays, XML and integer vectors only get theirs now. */
  function Leaving(c: Table, i: nat, x: Item): Table {
    if (x.Array? || x.Object? || x.Vector?) && i < |c.objects| then c.(objects := c.objects[i := Done(x)])
    else if x.Data? || x.Numbers? then c.(objects := c.objects + [Done(x)])
    else c
  }

  /** From `p` to `q`, `s` holds a sentence for `x`. */
  ghost predicate InFull(s: seq<byte>, p: nat, c: Table, x: Item, q: nat, d: Table)
    requires p <= |s|
  {
    exists ts :: Sentence(x, c.traits, ts) && SentenceAt(ts, s, p, c, x, q, d)
  }

  predicate SentenceAt(ts: seq<Token>, s: seq<byte>, p: nat, c: Table, x: Item, q: nat, d: Table)
    requires p <= |s|
  {
    var r := ReadTokens(ts, s, p, Entering(c, x));
    r.Here? && r.next == q && d == Leaving(r.ctx, |c.objects|, x)
    && (x.Double? ==> x.node == p)
  }

  /** From `p` to `q`, `s` holds a reference to `x`, finished or still open, and the marker of its class. */
  predicate AsReference(s: seq<byte>, p: nat, c: Table, x: Item, q: nat) {
    p < |s| && s[p] in {7, 9, 10, 11, 12, 13, 14, 16}
    && exists i :: 0 <= i < |c.objects| && U29.Read(s, p + 1) == U29.Got(2 * i, q)
                   && ((c.objects[i] == Done(x) && !x.Loop? && Letter(x) == s[p])
                       || (c.objects[i] == Open(s[p]) && x == Loop(i)))
  }

  // ----- Reading the first tokens -----

  lemma ByteStep(b: byte, ts: seq<Token>, s: seq<byte>, p: nat, c: Table)
    requires p <= |s|
    ensures ReadTokens([Byte(b)] + ts, s, p, c) ==
      if p < |s| && s[p] == b then ReadTokens(ts, s, p + 1, c) else Nowhere
  {
    assert ([Byte(b)] + ts)[1..] == ts;
  }

  /** The integer of a header. */
  function HeadValue(t: Token): int
    requires t.Head? || t.Length? || t.TraitsAt?
  {
    match t case Head(v) => v case Length(n) => 2 * n + 1 case TraitsAt(i) => 4 * i + 1
  }

  lemma HeadStep(t: Token, ts: seq<Token>, s: seq<byte>, p: nat, c: Table)
    requires p <= |s| && (t.Head? || t.Length? || t.TraitsAt?)
    ensures ReadTokens([t] + ts, s, p, c) ==
      var h := U29.Read(s, p);
      if h.Got? && h.value == HeadValue(t) then ReadTokens(ts, s, h.next, c) else Nowhere
  {
    hide U29.Read;
    assert ([t] + ts)[1..] == ts;
  }

  lemma TokenStep(t: Token, ts: seq<Token>, s: seq<byte>, p: nat, c: Table)
    requires p <= |s|
    ensures ReadTokens([t] + ts, s, p, c) ==
      var r := ReadToken(t, s, p, c);
      if r.Nowhere? then Nowhere else ReadTokens(ts, s, r.next, r.ctx)
  {
    hide ReadToken;
    assert ([t] + ts)[1..] == ts;
  }

  // ----- Simple items -----

  /** The only sentence for a simple item. */
  function SimpleText(x: Item): seq<Token>
    requires !Tabled(x) && !x.Loop?
  {
    match x
    case Undefined => [Byte(0)]
    case Null => [Byte(1)]
    case Bool(on) => [Byte(if on then 3 else 2)]
    case Integer(v) => [Byte(4), Head(v)]
    case Double(m, _) => [Byte(5), Bytes([m[7], m[6], m[5], m[4], m[3], m[2], m[1], m[0]])]
    case Str(t) => [Byte(6), Name(t)]
  }

  lemma OctetsAt(s: seq<byte>, p: nat, m: Octets)
    requires p + 8 <= |s|
    ensures At(s, p, [m[7], m[6], m[5], m[4], m[3], m[2], m[1], m[0]]) <==> Reverse(s[p..p + 8]) == m
  {
    var w, r := s[p..p + 8], [m[7], m[6], m[5], m[4], m[3], m[2], m[1], m[0]];
    if Reverse(w) == m {
      assert m[0] == w[7] && m[1] == w[6] && m[2] == w[5] && m[3] == w[4];
      assert m[4] == w[3] && m[5] == w[2] && m[6] == w[1] && m[7] == w[0];
      assert w == r;
    }
  }

  lemma SimpleAccepted(s: seq<byte>, p: nat, c: Table, x: Item, q: nat, d: Table)
    requires p <= |s| && !Tabled(x) && !x.Loop? && SentenceAt(SimpleText(x), s, p, c, x, q, d)
    ensures Decode(s, p, c) == Ok(x, q, d)
  {
    hide U29.Read, DecodeString, DecodeBody, Settles, Reverse;
    var ts := SimpleText(x);
    ByteStep(ts[0].b, ts[1..], s, p, c);
    assert [Byte(ts[0].b)] + ts[1..] == ts;
    if |ts| == 2 { ReadOneToken(ts[1], s, p + 1, c); }
    if x.Double? && p + 9 <= |s| { OctetsAt(s, p + 1, x.memory); }
  }

  lemma SimpleRead(s: seq<byte>, p: nat, c: Table)
    requires p < |s| && s[p] !in {7, 9, 10, 11, 12, 13, 14, 16} && Decode(s, p, c).Ok?
    ensures var d := Decode(s, p, c);
      !Tabled(d.value) && !d.value.Loop? && SentenceAt(SimpleText(d.value), s, p, c, d.value, d.next, d.ctx)
  {
    hide U29.Read, DecodeString, DecodeBody, Reverse;
    var d := Decode(s, p, c);
    var ts := SimpleText(d.value);
    ByteStep(ts[0].b, ts[1..], s, p, c);
    assert [Byte(ts[0].b)] + ts[1..] == ts;
    if |ts| == 2 { ReadOneToken(ts[1], s, p + 1, c); }
    if d.value.Double? && p + 9 <= |s| { OctetsAt(s, p + 1, d.value.memory); }
  }

  // ----- Items with an entry -----

  /** A sentence with a marker of the object table, a header that is no reference, and the rest. */
  lemma BodyAt(b: byte, t: Token, ts: seq<Token>, s: seq<byte>, p: nat, c: Table, e: Table)
    requires p <= |s| && b in {7, 9, 10, 11, 12, 13, 14, 16} && (t.Head? || t.Length? || t.TraitsAt?)
    requires ReadTokens([Byte(b), t] + ts, s, p, e).Here?
    ensures var h := U29.Read(s, p + 1);
      && p < |s| && s[p] == b && h.Got?
      && h.value == HeadValue(t)
      && ReadTokens([Byte(b), t] + ts, s, p, e) == ReadTokens(ts, s, h.next, e)
      && (h.value % 2 == 1 ==> Decode(s, p, c) == DecodeBody(b, h.value, s, h.next, c))
  {
    hide U29.Read, DecodeBody, Settles, ReadTokens;
    assert [Byte(b), t] + ts == [Byte(b)] + ([t] + ts);
    ByteStep(b, [t] + ts, s, p, e);
    HeadStep(t, ts, s, p + 1, e);
  }

  /** The other way round. */
  lemma BodyRead(b: byte, t: Token, ts: seq<Token>, s: seq<byte>, p: nat, e: Table)
    requires p < |s| && s[p] == b && (t.Head? || t.Length? || t.TraitsAt?)
    requires var h := U29.Read(s, p + 1);
      h.Got? && h.value == HeadValue(t)
    ensures ReadTokens([Byte(b), t] + ts, s, p, e) == ReadTokens(ts, s, U29.Read(s, p + 1).next, e)
  {
    hide U29.Read, ReadTokens;
    assert [Byte(b), t] + ts == [Byte(b)] + ([t] + ts);
    ByteStep(b, [t] + ts, s, p, e);
    HeadStep(t, ts, s, p + 1, e);
  }

  function DataText(x: Item): seq<Token>
    requires x.Data?
  {
    [Byte(match x.kind case XmlDocument => 7 case Xml => 11 case ByteArray => 12), Length(|x.bytes|), Bytes(x.bytes)]
  }

  lemma DataAccepted(s: seq<byte>, p: nat, c: Table, x: Item, q: nat, d: Table)
    requires p <= |s| && x.Data? && SentenceAt(DataText(x), s, p, c, x, q, d)
    ensures Decode(s, p, c) == Ok(x, q, d)
  {
    hide U29.Read, Decode, ReadTokens;
    var ts := DataText(x);
    assert ts == [ts[0], ts[1]] + [ts[2]];
    BodyAt(ts[0].b, ts[1], [ts[2]], s, p, c, c);
    ReadOneToken(ts[2], s, U29.Read(s, p + 1).next, c);
  }

  lemma DataRead(s: seq<byte>, p: nat, c: Table)
    requires p < |s| && s[p] in {7, 11, 12} && Decode(s, p, c).Ok?
    requires U29.Read(s, p + 1).Got? && U29.Read(s, p + 1).value % 2 == 1
    ensures var d := Decode(s, p, c);
      d.value.Data? && SentenceAt(DataText(d.value), s, p, c, d.value, d.next, d.ctx)
  {
    hide U29.Read, ReadTokens, Settles;
    var d := Decode(s, p, c);
    var ts := DataText(d.value);
    assert ts == [ts[0], ts[1]] + [ts[2]];
    BodyRead(ts[0].b, ts[1], [ts[2]], s, p, c);
    ReadOneToken(ts[2], s, U29.Read(s, p + 1).next, c);
  }

  lemma {:induction false} ReadWordsAt(s: seq<byte>, p: nat, n: nat, i: nat)
    requires p + 4 * n <= |s| && i < n
    ensures ReadWords(s, p, n)[i] == s[p + 4 * i] as int * 0x100_0000 + s[p + 4 * i + 1] as int * 0x1_0000
                                     + s[p + 4 * i + 2] as int * 0x100 + s[p + 4 * i + 3] as int
    decreases n
  {
    if i > 0 { ReadWordsAt(s, p + 4, n - 1, i - 1); }
  }

  lemma ReadWordsBigEndian(s: seq<byte>, p: nat, n: nat)
    requires p + 4 * n <= |s|
    ensures BigEndian(ReadWords(s, p, n), s[p..p + 4 * n])
  {
    hide ReadWords;
    var b, ws := s[p..p + 4 * n], ReadWords(s, p, n);
    forall i | 0 <= i < n
      ensures ws[i] == b[4 * i] as int * 0x100_0000 + b[4 * i + 1] as int * 0x1_0000 + b[4 * i + 2] as int * 0x100
                       + b[4 * i + 3] as int
    {
      ReadWordsAt(s, p, n, i);
      assert b[4 * i] == s[p + 4 * i] && b[4 * i + 1] == s[p + 4 * i + 1];
      assert b[4 * i + 2] == s[p + 4 * i + 2] && b[4 * i + 3] == s[p + 4 * i + 3];
    }
  }

  lemma BigEndianWords(ws: seq<Word>, vs: seq<Word>, b: seq<byte>)
    requires BigEndian(ws, b) && BigEndian(vs, b)
    ensures ws == vs
  {
  }

  lemma NumbersAccepted(s: seq<byte>, p: nat, c: Table, x: Item, b: byte, raw: seq<byte>, ts: seq<Token>, q: nat,
                        d: Table)
    requires p <= |s| && NumbersText(x, b, raw, ts) && SentenceAt(ts, s, p, c, x, q, d)
    ensures Decode(s, p, c) == Ok(x, q, d)
  {
    hide U29.Read, Decode, ReadTokens, ReadWords, BigEndian;
    assert ts == [ts[0], ts[1]] + ([ts[2]] + [ts[3]]);
    BodyAt(ts[0].b, ts[1], [ts[2]] + [ts[3]], s, p, c, c);
    var h := U29.Read(s, p + 1);
    ByteStep(b, [ts[3]], s, h.next, c);
    ReadOneToken(ts[3], s, h.next + 1, c);
    BigEndianSize(x.numbers, raw);
    ReadWordsBigEndian(s, h.next + 1, |x.numbers|);
    BigEndianWords(x.numbers, ReadWords(s, h.next + 1, |x.numbers|), raw);
  }

  lemma BigEndianSize(ws: seq<Word>, b: seq<byte>)
    requires BigEndian(ws, b)
    ensures |b| == 4 * |ws|
  {
  }

  lemma NumbersRead(s: seq<byte>, p: nat, c: Table)
    requires p < |s| && s[p] in {13, 14} && Decode(s, p, c).Ok?
    requires U29.Read(s, p + 1).Got? && U29.Read(s, p + 1).value % 2 == 1
    ensures var d := Decode(s, p, c);
      d.value.Numbers? && InFull(s, p, c, d.value, d.next, d.ctx)
  {
    hide U29.Read, ReadTokens, Settles, ReadWords, BigEndian;
    var d := Decode(s, p, c);
    var h := U29.Read(s, p + 1);
    var n := h.value / 2;
    var b, raw := s[h.next], s[h.next + 1..h.next + 1 + 4 * n];
    ReadWordsBigEndian(s, h.next + 1, n);
    var ts := [Byte(s[p]), Length(n), Byte(b), Bytes(raw)];
    assert NumbersText(d.value, b, raw, ts);
    assert ts == [ts[0], ts[1]] + ([ts[2]] + [ts[3]]);
    BodyRead(s[p], Length(n), [ts[2]] + [ts[3]], s, p, c);
    ByteStep(b, [ts[3]], s, h.next, c);
    ReadOneToken(ts[3], s, h.next + 1, c);
    assert SentenceAt(ts, s, p, c, d.value, d.next, d.ctx);
  }

  // ----- Containers -----

  lemma ArrayAccepted(s: seq<byte>, p: nat, c: Table, x: Item, n: int, names: seq<Text>, values: seq<Item>,
                      ts: seq<Token>, q: nat, d: Table)
    requires p <= |s| && ArrayText(x, n, names, values, ts) && SentenceAt(ts, s, p, c, x, q, d)
    ensures Decode(s, p, c) == Ok(x, q, d)
  {
    hide U29.Read, Decode, ReadTokens, Latest, Members, Values, DecodeProps, DecodeSeq, PutAll;
    var e := AddObject(c, Open(ARRAY));
    var rest := Closed(names, values) + Values(x.dense);
    assert ts == [Byte(9), Length(n)] + rest;
    BodyAt(9, Length(n), rest, s, p, c, e);
    var h := U29.Read(s, p + 1);
    ReadAppend(Closed(names, values), Values(x.dense), s, h.next, e);
    PropsAccepted(names, values, s, h.next, e, NO_PROPS);
    PutAllLatest(names, values);
    LatestUnique(x.assoc, PutAll(NO_PROPS, names, values), names, values);
    var r := ReadTokens(Closed(names, values), s, h.next, e);
    SeqAccepted(x.dense, n, s, r.next, r.ctx, []);
    assert [] + x.dense == x.dense;
  }

  lemma ArrayRead(s: seq<byte>, p: nat, c: Table)
    requires p < |s| && s[p] == 9 && Decode(s, p, c).Ok?
    requires U29.Read(s, p + 1).Got? && U29.Read(s, p + 1).value % 2 == 1
    ensures var d := Decode(s, p, c);
      d.value.Array? && InFull(s, p, c, d.value, d.next, d.ctx)
  {
    hide U29.Read, ReadTokens, Latest, Members, Values, DecodeProps, DecodeSeq, PutAll;
    var x := Decode(s, p, c).value;
    var h, e := U29.Read(s, p + 1), AddObject(c, Open(ARRAY));
    var n := h.value / 2;
    assert Decode(s, p, c) == DecodeBody(ARRAY, h.value, s, h.next, c) == DecodeArray(n, s, h.next, c);
    var named := DecodeProps(s, h.next, e, NO_PROPS);
    var names, values := PropsRead(s, h.next, e, NO_PROPS);
    PutAllLatest(names, values);
    var dense := SeqRead(n, s, named.next, named.ctx, []);
    assert [] + dense == dense;
    var rest := Closed(names, values) + Values(dense);
    var ts := [Byte(9), Length(n)] + (Members(names, values) + [Name([])]) + Values(x.dense);
    assert ts == [Byte(9), Length(n)] + rest;
    BodyRead(9, Length(n), rest, s, p, e);
    ReadAppend(Closed(names, values), Values(dense), s, h.next, e);
    assert ArrayText(x, n, names, values, ts) && SentenceAt(ts, s, p, c, x, Decode(s, p, c).next, Decode(s, p, c).ctx);
  }

  /** Strings are read alike whatever objects are known. */
  lemma StringElsewhere(s: seq<byte>, p: nat, c: Table, e: Table)
    requires c.strings == e.strings && c.traits == e.traits
    ensures var x, y := DecodeString(s, p, c), DecodeString(s, p, e);
      x.Ok? == y.Ok? && (x.Ok? ==> y == Ok(x.value, x.next, x.ctx.(objects := e.objects)) && x.ctx.objects == c.objects)
  {
    hide U29.Read;
  }

  lemma VectorAccepted(s: seq<byte>, p: nat, c: Table, x: Item, b: byte, ts: seq<Token>, q: nat, d: Table)
    requires p <= |s| && VectorText(x, b, ts) && SentenceAt(ts, s, p, c, x, q, d)
    ensures Decode(s, p, c) == Ok(x, q, d)
  {
    hide U29.Read, Decode, ReadTokens, Values, DecodeString, DecodeSeq;
    var e, n := AddObject(c, Open(VECTOR_OBJECT)), |x.values|;
    var rest := [Byte(b)] + ([Name(x.typeName)] + Values(x.values));
    assert ts == [Byte(16), Length(n)] + rest;
    BodyAt(16, Length(n), rest, s, p, c, e);
    var h := U29.Read(s, p + 1);
    ByteStep(b, [Name(x.typeName)] + Values(x.values), s, h.next, e);
    TokenStep(Name(x.typeName), Values(x.values), s, h.next + 1, e);
    StringElsewhere(s, h.next + 1, c, e);
    var name := DecodeString(s, h.next + 1, e);
    SeqAccepted(x.values, n, s, name.next, name.ctx, []);
    assert [] + x.values == x.values;
  }

  lemma VectorRead(s: seq<byte>, p: nat, c: Table)
    requires p < |s| && s[p] == 16 && Decode(s, p, c).Ok?
    requires U29.Read(s, p + 1).Got? && U29.Read(s, p + 1).value % 2 == 1
    ensures var d := Decode(s, p, c);
      d.value.Vector? && InFull(s, p, c, d.value, d.next, d.ctx)
  {
    hide U29.Read, ReadTokens, Values, DecodeString, DecodeSeq;
    var x := Decode(s, p, c).value;
    var h, e := U29.Read(s, p + 1), AddObject(c, Open(VECTOR_OBJECT));
    var n := h.value / 2;
    assert Decode(s, p, c) == DecodeBody(VECTOR_OBJECT, h.value, s, h.next, c) == DecodeVector(n, s, h.next, c);
    var b := s[h.next];
    StringElsewhere(s, h.next + 1, c, e);
    var name := DecodeString(s, h.next + 1, e);
    var values := SeqRead(n, s, name.next, name.ctx, []);
    assert [] + values == values;
    var rest := [Byte(b)] + ([Name(x.typeName)] + Values(values));
    var ts := [Byte(16), Length(n), Byte(b), Name(x.typeName)] + Values(values);
    assert ts == [Byte(16), Length(n)] + rest;
    BodyRead(16, Length(n), rest, s, p, e);
    ByteStep(b, [Name(x.typeName)] + Values(values), s, h.next, e);
    TokenStep(Name(x.typeName), Values(values), s, h.next + 1, e);
    assert VectorText(x, b, ts) && SentenceAt(ts, s, p, c, x, Decode(s, p, c).next, Decode(s, p, c).ctx);
  }

  // ----- Objects -----

  lemma TraitsInLineAccepted(t: Traits, n: int, head: seq<Token>, s: seq<byte>, p: nat, e: Table)
    requires p <= |s| && !t.externalizable && TraitsInLine(t, n, head) && ReadTokens(head, s, p, e).Here?
    ensures var h, r := U29.Read(s, p), ReadTokens(head, s, p, e);
      h.Got? && h.value % 2 == 1 && DecodeTraits(h.value, s, h.next, e) == Ok(t, r.next, r.ctx)
  {
    hide U29.Read, DecodeString, DecodeNames, ReadTokens, NameList;
    var v := 16 * n + (if t.dynamic then 11 else 3);
    var names := NameList(t.attributes);
    assert head == [Head(v)] + ([Name(t.className)] + (names + [Learn(t)]));
    HeadStep(Head(v), [Name(t.className)] + (names + [Learn(t)]), s, p, e);
    var h := U29.Read(s, p);
    TokenStep(Name(t.className), names + [Learn(t)], s, h.next, e);
    var name := DecodeString(s, h.next, e);
    ReadAppend(names, [Learn(t)], s, name.next, name.ctx);
    NamesAccepted(t.attributes, n, s, name.next, name.ctx, []);
    var r := ReadTokens(names, s, name.next, name.ctx);
    ReadOneToken(Learn(t), s, r.next, r.ctx);
    assert [] + t.attributes == t.attributes;
    HeaderMeans(v, n, t.dynamic);
  }

  lemma HeaderMeans(v: int, n: int, dynamic: bool)
    requires v == 16 * n + (if dynamic then 11 else 3)
    ensures v / 16 == n && v % 2 == 1 && v % 4 == 3 && v % 8 == 3 && (v / 8 % 2 == 1 <==> dynamic)
  {
    Divide16(v, n, if dynamic then 11 else 3);
    Divide8(v, 2 * n + (if dynamic then 1 else 0), 3);
    Divide4(v, 4 * n + (if dynamic then 2 else 0), 3);
    Divide2(v, 8 * n + (if dynamic then 5 else 1), 1);
    Divide2(2 * n + (if dynamic then 1 else 0), n, if dynamic then 1 else 0);
  }

  lemma Divide16(v: int, a: int, r: int)
    requires v == 16 * a + r && 0 <= r < 16
    ensures v / 16 == a && v % 16 == r
  {
  }

  lemma Divide2(v: int, a: int, r: int)
    requires v == 2 * a + r && 0 <= r < 2
    ensures v / 2 == a && v % 2 == r
  {
  }

  lemma Divide8(v: int, a: int, r: int)
    requires v == 8 * a + r && 0 <= r < 8
    ensures v / 8 == a && v % 8 == r
  {
  }

  lemma Divide4(v: int, a: int, r: int)
    requires v == 4 * a + r && 0 <= r < 4
    ensures v / 4 == a && v % 4 == r
  {
  }

  lemma TraitsReferenceAccepted(t: Traits, i: nat, head: seq<Token>, s: seq<byte>, p: nat, e: Table)
    requires p <= |s| && !t.externalizable && TraitsReference(t, e.traits, i, head) && ReadTokens(head, s, p, e).Here?
    ensures var h, r := U29.Read(s, p), ReadTokens(head, s, p, e);
      h.Got? && h.value % 2 == 1 && DecodeTraits(h.value, s, h.next, e) == Ok(t, r.next, r.ctx)
  {
    hide U29.Read, DecodeString, DecodeNames, ReadTokens;
    ReadOneToken(TraitsAt(i), s, p, e);
    Divide4(4 * i + 1, i, 1);
    Divide2(4 * i + 1, 2 * i, 1);
  }

  lemma TraitsAccepted(t: Traits, head: seq<Token>, s: seq<byte>, p: nat, e: Table)
    requires p <= |s| && TraitsText(t, e.traits, head) && ReadTokens(head, s, p, e).Here?
    ensures var h, r := U29.Read(s, p), ReadTokens(head, s, p, e);
      h.Got? && h.value % 2 == 1 && DecodeTraits(h.value, s, h.next, e) == Ok(t, r.next, r.ctx)
  {
    hide U29.Read, DecodeTraits, ReadTokens, TraitsInLine, TraitsReference;
    if i :| TraitsReference(t, e.traits, i, head) {
      TraitsReferenceAccepted(t, i, head, s, p, e);
    } else {
      var n :| TraitsInLine(t, n, head);
      TraitsInLineAccepted(t, n, head, s, p, e);
    }
  }

  lemma TraitsRead(s: seq<byte>, p: nat, e: Table) returns (head: seq<Token>)
    requires p <= |s| && U29.Read(s, p).Got? && U29.Read(s, p).value % 2 == 1
    requires DecodeTraits(U29.Read(s, p).value, s, U29.Read(s, p).next, e).Ok?
    ensures var h := U29.Read(s, p);
      var t := DecodeTraits(h.value, s, h.next, e);
      !t.value.externalizable && TraitsText(t.value, e.traits, head) && ReadTokens(head, s, p, e) == Here(t.next, t.ctx)
  {
    hide U29.Read, DecodeString, DecodeNames, ReadTokens, NameList;
    var h := U29.Read(s, p);
    var t := DecodeTraits(h.value, s, h.next, e);
    if h.value % 4 == 1 {
      var i := h.value / 4;
      head := [TraitsAt(i)];
      assert TraitsReference(t.value, e.traits, i, head);
      assert 4 * i + 1 == h.value;
      ReadOneToken(TraitsAt(i), s, p, e);
    } else {
      var n := h.value / 16;
      var name := DecodeString(s, h.next, e);
      var names := NamesRead(n, s, name.next, name.ctx, []);
      assert [] + names == names == t.value.attributes;
      var v := 16 * n + (if t.value.dynamic then 11 else 3);
      assert v == h.value by { HeaderBits(h.value); }
      var list := NameList(names);
      head := [Head(v), Name(t.value.className)] + list + [Learn(t.value)];
      assert TraitsInLine(t.value, n, head);
      assert head == [Head(v)] + ([Name(t.value.className)] + (list + [Learn(t.value)]));
      HeadStep(Head(v), [Name(t.value.className)] + (list + [Learn(t.value)]), s, p, e);
      TokenStep(Name(t.value.className), list + [Learn(t.value)], s, h.next, e);
      ReadAppend(list, [Learn(t.value)], s, name.next, name.ctx);
      var r := ReadTokens(list, s, name.next, name.ctx);
      ReadOneToken(Learn(t.value), s, r.next, r.ctx);
    }
  }

  lemma HeaderBits(h: int)
    requires h % 2 == 1 && h % 4 != 1 && h % 8 != 7
    ensures h == 16 * (h / 16) + (if h / 8 % 2 == 1 then 11 else 3)
  {
  }

  /** Dynamic members, if there are any to have. */
  function DynText(x: Item, names: seq<Text>, us: seq<Item>): seq<Token>
    requires x.Object? && |names| == |us|
  {
    if x.traits.dynamic then Members(names, us) + [Name([])] else []
  }

  lemma NothingLatest(p: Props<Item>)
    ensures Latest(p, [], []) <==> p == NO_PROPS
  {
    PutAllLatest([], []);
    if Latest(p, [], []) { LatestUnique(p, NO_PROPS, [], []); }
  }

  lemma ObjectAccepted(s: seq<byte>, p: nat, c: Table, x: Item, head: seq<Token>, vs: seq<Item>, names: seq<Text>,
                       us: seq<Item>, ts: seq<Token>, q: nat, d: Table)
    requires p <= |s| && ObjectText(x, head, c.traits, vs, names, us, ts) && SentenceAt(ts, s, p, c, x, q, d)
    ensures Decode(s, p, c) == Ok(x, q, d)
  {
    hide U29.Read, ReadTokens, Latest, Values, DecodeTraits, DecodeProps, DecodeSealed, PutAll, TraitsText;
    var e := AddObject(c, Open(OBJECT));
    var dyn := DynText(x, names, us);
    assert ts == [Byte(10)] + (head + (Values(vs) + dyn));
    ByteStep(10, head + (Values(vs) + dyn), s, p, e);
    ReadAppend(head, Values(vs) + dyn, s, p + 1, e);
    var r := ReadTokens(head, s, p + 1, e);
    TraitsAccepted(x.traits, head, s, p + 1, e);
    var h := U29.Read(s, p + 1);
    Delimiting.TraitsElsewhere(h.value, s, h.next, e, c);
    assert Decode(s, p, c) == DecodeBody(OBJECT, h.value, s, h.next, c) == DecodeObject(h.value, s, h.next, c);
    ReadAppend(Values(vs), dyn, s, r.next, r.ctx);
    SealedAccepted(x.traits.attributes, vs, s, r.next, r.ctx, NO_PROPS);
    PutAllLatest(x.traits.attributes, vs);
    LatestUnique(x.sealed, PutAll(NO_PROPS, x.traits.attributes, vs), x.traits.attributes, vs);
    var f := ReadTokens(Values(vs), s, r.next, r.ctx);
    if x.traits.dynamic {
      PropsAccepted(names, us, s, f.next, f.ctx, NO_PROPS);
      PutAllLatest(names, us);
      LatestUnique(x.dyn, PutAll(NO_PROPS, names, us), names, us);
    } else {
      NothingLatest(x.dyn);
      assert ReadTokens([], s, f.next, f.ctx) == f by { NothingRead(s, f.next, f.ctx); }
    }
  }

  lemma NothingRead(s: seq<byte>, p: nat, c: Table)
    requires p <= |s|
    ensures ReadTokens([], s, p, c) == Here(p, c)
  {
  }

  lemma ObjectRead(s: seq<byte>, p: nat, c: Table)
    requires p < |s| && s[p] == 10 && Decode(s, p, c).Ok?
    requires U29.Read(s, p + 1).Got? && U29.Read(s, p + 1).value % 2 == 1
    ensures var d := Decode(s, p, c);
      d.value.Object? && InFull(s, p, c, d.value, d.next, d.ctx)
  {
    hide U29.Read, ReadTokens, Latest, Values, DecodeTraits, DecodeProps, DecodeSealed, PutAll, TraitsText;
    var d := Decode(s, p, c);
    var h, e := U29.Read(s, p + 1), AddObject(c, Open(OBJECT));
    assert d == DecodeBody(OBJECT, h.value, s, h.next, c) == DecodeObject(h.value, s, h.next, c);
    Delimiting.TraitsElsewhere(h.value, s, h.next, e, c);
    var t := DecodeTraits(h.value, s, h.next, e);
    var head := TraitsRead(s, p + 1, e);
    var vs := SealedRead(t.value.attributes, s, t.next, t.ctx, NO_PROPS);
    PutAllLatest(t.value.attributes, vs);
    var f := ReadTokens(Values(vs), s, t.next, t.ctx);
    var x, names, us := d.value, [], [];
    if t.value.dynamic {
      names, us := PropsRead(s, f.next, f.ctx, NO_PROPS);
      PutAllLatest(names, us);
    } else {
      NothingLatest(NO_PROPS);
      NothingRead(s, f.next, f.ctx);
    }
    var dyn := DynText(x, names, us);
    var ts := [Byte(10)] + head + Values(vs) + dyn;
    assert ts == [Byte(10)] + (head + (Values(vs) + dyn));
    ByteStep(10, head + (Values(vs) + dyn), s, p, e);
    ReadAppend(head, Values(vs) + dyn, s, p + 1, e);
    ReadAppend(Values(vs), dyn, s, t.next, t.ctx);
    assert ObjectText(x, head, c.traits, vs, names, us, ts) && SentenceAt(ts, s, p, c, x, d.next, d.ctx);
  }

  // ----- The language -----

  lemma ResolveIff(c: Table, i: int, m: byte, x: Item)
    requires m in {7, 9, 10, 11, 12, 13, 14, 16}
    ensures Resolve(c, i, m) == Some(x) <==>
      0 <= i < |c.objects|
      && ((c.objects[i] == Done(x) && !x.Loop? && Letter(x) == m) || (c.objects[i] == Open(m) && x == Loop(i)))
  {
  }

  lemma ReferenceIff(s: seq<byte>, p: nat, c: Table, x: Item, q: nat)
    requires p < |s| && s[p] in {7, 9, 10, 11, 12, 13, 14, 16}
    ensures AsReference(s, p, c, x, q) <==>
      U29.Read(s, p + 1).Got? && U29.Read(s, p + 1).value % 2 == 0 && Decode(s, p, c) == Ok(x, q, c)
  {
    hide U29.Read, DecodeBody, DecodeSimple, Letter, Resolve, Settles;
    var h := U29.Read(s, p + 1);
    if h.Got? && h.value % 2 == 0 {
      var i := h.value / 2;
      assert h.value == 2 * i;
      ResolveIff(c, i, s[p], x);
    }
  }

  lemma InFullAccepted(s: seq<byte>, p: nat, c: Table, x: Item, q: nat, d: Table)
    requires p <= |s| && InFull(s, p, c, x, q, d)
    ensures Decode(s, p, c) == Ok(x, q, d)
  {
    hide Decode, ReadTokens, NumbersText, ArrayText, ObjectText, VectorText, Entering, Leaving;
    var ts :| Sentence(x, c.traits, ts) && SentenceAt(ts, s, p, c, x, q, d);
    match x
    case Data(_, _) => DataAccepted(s, p, c, x, q, d);
    case Numbers(_, _, _) =>
      var b, raw :| NumbersText(x, b, raw, ts);
      NumbersAccepted(s, p, c, x, b, raw, ts, q, d);
    case Array(_, _) =>
      var n, names, values :| ArrayText(x, n, names, values, ts);
      ArrayAccepted(s, p, c, x, n, names, values, ts, q, d);
    case Object(_, _, _, _) =>
      var head, vs, names, us :| ObjectText(x, head, c.traits, vs, names, us, ts);
      ObjectAccepted(s, p, c, x, head, vs, names, us, ts, q, d);
    case Vector(_, _, _) =>
      var b :| VectorText(x, b, ts);
      VectorAccepted(s, p, c, x, b, ts, q, d);
    case _ => SimpleAccepted(s, p, c, x, q, d);
  }

  lemma InFullRead(s: seq<byte>, p: nat, c: Table)
    requires p <= |s| && Decode(s, p, c).Ok?
    ensures var d := Decode(s, p, c);
      InFull(s, p, c, d.value, d.next, d.ctx) || (AsReference(s, p, c, d.value, d.next) && d.ctx == c)
  {
    hide U29.Read, DecodeBody, DecodeSimple, ReadTokens, Sentence, AsReference, Entering, Leaving, InFull;
    var d := Decode(s, p, c);
    if s[p] !in {7, 9, 10, 11, 12, 13, 14, 16} {
      SimpleRead(s, p, c);
      SimpleSentence(s, p, c, d.value, d.next, d.ctx);
    } else if U29.Read(s, p + 1).value % 2 == 0 {
      ReferenceIff(s, p, c, d.value, d.next);
    } else if s[p] in {7, 11, 12} {
      DataRead(s, p, c);
      DataSentence(s, p, c, d.value, d.next, d.ctx);
    } else if s[p] in {13, 14} {
      NumbersRead(s, p, c);
    } else if s[p] == 9 {
      ArrayRead(s, p, c);
    } else if s[p] == 10 {
      ObjectRead(s, p, c);
    } else {
      VectorRead(s, p, c);
    }
  }

  lemma SimpleSentence(s: seq<byte>, p: nat, c: Table, x: Item, q: nat, d: Table)
    requires p <= |s| && !Tabled(x) && !x.Loop? && SentenceAt(SimpleText(x), s, p, c, x, q, d)
    ensures InFull(s, p, c, x, q, d)
  {
    hide ReadTokens;
    assert Sentence(x, c.traits, SimpleText(x));
  }

  lemma DataSentence(s: seq<byte>, p: nat, c: Table, x: Item, q: nat, d: Table)
    requires p <= |s| && x.Data? && SentenceAt(DataText(x), s, p, c, x, q, d)
    ensures InFull(s, p, c, x, q, d)
  {
    hide ReadTokens;
    assert Sentence(x, c.traits, DataText(x));
  }

  /** The decoder accepts an item exactly if the input holds a sentence for it, or a reference to it. */
  lemma AcceptedIff(s: seq<byte>, p: nat, c: Table, x: Item, q: nat, d: Table)
    requires p <= |s|
    ensures Decode(s, p, c) == Ok(x, q, d) <==>
      InFull(s, p, c, x, q, d) || (AsReference(s, p, c, x, q) && d == c)
  {
    hide U29.Read, Decode, InFull, AsReference;
    if Decode(s, p, c) == Ok(x, q, d) { InFullRead(s, p, c); }
    if InFull(s, p, c, x, q, d) { InFullAccepted(s, p, c, x, q, d); }
    if AsReference(s, p, c, x, q) {
      assert p < |s| && s[p] in {7, 9, 10, 11, 12, 13, 14, 16} by { ReferenceMarked(s, p, c, x, q); }
      ReferenceIff(s, p, c, x, q);
    }
  }

  lemma ReferenceMarked(s: seq<byte>, p: nat, c: Table, x: Item, q: nat)
    requires AsReference(s, p, c, x, q)
    ensures p < |s| && s[p] in {7, 9, 10, 11, 12, 13, 14, 16}
  {
  }

  // ----- What follows -----

  /** A string is its reference, or length and bytes; one of its own enters the table unless empty. */
  lemma StringAcceptedIff(s: seq<byte>, p: nat, c: Table, t: Text, q: nat, d: Table)
    ensures DecodeString(s, p, c) == Ok(t, q, d) <==>
      || (d == c && exists i :: 0 <= i < |c.strings| && c.strings[i] == t && U29.Read(s, p) == U29.Got(2 * i, q))
      || (&& |t| <= q <= |s| && U29.Read(s, p) == U29.Got(2 * |t| + 1, q - |t|) && s[q - |t|..q] == t
          && d == if t == [] then c else c.(strings := c.strings + [t]))
  {
    hide U29.Read;
    var h := U29.Read(s, p);
    if h.Got? { assert h.value == 2 * (h.value / 2) + h.value % 2; }
  }

  /** The first byte tells the class of what is accepted; a pointer to an open container has that of the container. */
  lemma FirstByteTells(s: seq<byte>, p: nat, c: Table)
    requires p <= |s| && Decode(s, p, c).Ok?
    ensures p < |s|
    ensures var x := Decode(s, p, c).value;
      || (x.Loop? && x.index < |c.objects| && c.objects[x.index] == Open(s[p]))
      || match s[p]
         case 0 => x == Undefined
         case 1 => x == Null
         case 2 => x == Bool(false)
         case 3 => x == Bool(true)
         case 4 => x.Integer?
         case 5 => x.Double?
         case 6 => x.Str?
         case 7 => x.Data? && x.kind == XmlDocument
         case 9 => x.Array?
         case 10 => x.Object?
         case 11 => x.Data? && x.kind == Xml
         case 12 => x.Data? && x.kind == ByteArray
         case 13 => x.Numbers? && x.width == Ints
         case 14 => x.Numbers? && x.width == Uints
         case 16 => x.Vector?
         case _ => false
  {
    hide Decode, U29.Read, InFull, Letter, AsReference;
    var d := Decode(s, p, c);
    AcceptedIff(s, p, c, d.value, d.next, d.ctx);
    if InFull(s, p, c, d.value, d.next, d.ctx) {
      SentenceMarked(s, p, c, d.value, d.next, d.ctx);
      ClassOfLetter(d.value);
    } else {
      ReferenceClass(s, p, c, d.value, d.next);
      if !d.value.Loop? { ClassOfLetter(d.value); }
    }
  }

  lemma SentenceMarked(s: seq<byte>, p: nat, c: Table, x: Item, q: nat, d: Table)
    requires p <= |s| && InFull(s, p, c, x, q, d)
    ensures !x.Loop? && p < |s| && s[p] == Letter(x)
  {
    hide Sentence, Letter, ReadTokens, Entering, Leaving;
    var ts :| Sentence(x, c.traits, ts) && SentenceAt(ts, s, p, c, x, q, d);
    SentenceStarts(x, c.traits, ts);
    ByteStep(Letter(x), ts[1..], s, p, Entering(c, x));
    assert [Byte(Letter(x))] + ts[1..] == ts;
  }

  lemma SentenceStarts(x: Item, known: seq<Traits>, ts: seq<Token>)
    requires Sentence(x, known, ts)
    ensures !x.Loop? && ts != [] && ts[0] == Byte(Letter(x))
  {
    hide Latest, TraitsText, BigEndian, Members, Values;
  }

  lemma ReferenceClass(s: seq<byte>, p: nat, c: Table, x: Item, q: nat)
    requires AsReference(s, p, c, x, q)
    ensures p < |s| && s[p] in {7, 9, 10, 11, 12, 13, 14, 16}
    ensures x.Loop? ==> x.index < |c.objects| && c.objects[x.index] == Open(s[p])
    ensures !x.Loop? ==> s[p] == Letter(x)
  {
  }

  lemma ClassOfLetter(x: Item)
    requires !x.Loop?
    ensures match Letter(x)
            case 0 => x == Undefined
            case 1 => x == Null
            case 2 => x == Bool(false)
            case 3 => x == Bool(true)
            case 4 => x.Integer?
            case 5 => x.Double?
            case 6 => x.Str?
            case 7 => x.Data? && x.kind == XmlDocument
            case 9 => x.Array?
            case 10 => x.Object?
            case 11 => x.Data? && x.kind == Xml
            case 12 => x.Data? && x.kind == ByteArray
            case 13 => x.Numbers? && x.width == Ints
            case 14 => x.Numbers? && x.width == Uints
            case 16 => x.Vector?
            case _ => false
  {
  }
}
