/** What the encoder writes, token by token. */
module Written {
  import opened Words
  import opened Names
  import opened Items
  import opened Encoder
  import opened Equality
  import opened Grammar
  import Lockstep
  import U29

  // ----- Lists -----

  lemma {:induction false} NamesWritten(names: seq<Text>, c: Context, m: Policy)
    ensures EncodeNames(names, c, m) == WriteTokens(NameList(names), c, m)
  {
    hide EncodeString;
    if names == [] {
      assert NameList(names) == [];
    } else {
      NameListStep(names);
      var first := EncodeString(names[0], c, m);
      assert WriteToken(Name(names[0]), c, m) == first;
      if first.Wrote? { NamesWritten(names[1..], first.ctx, m); }
    }
  }

  lemma {:induction false} ValuesWritten(xs: seq<Item>, c: Context, m: Policy)
    ensures EncodeSeq(xs, c, m) == WriteTokens(Values(xs), c, m)
  {
    hide Encode;
    if xs == [] {
      assert Values(xs) == [];
    } else {
      ValuesStep(xs);
      var first := Encode(xs[0], c, m);
      assert WriteToken(Value(xs[0]), c, m) == first;
      if first.Wrote? { ValuesWritten(xs[1..], first.ctx, m); }
    }
  }

  /** The entries of a map go out in the order of their names, name before value. */
  lemma {:induction false} MembersWritten(names: seq<Text>, values: seq<Item>, c: Context, m: Policy)
    requires |names| == |values|
    ensures EncodeProps(names, values, c, m) == WriteTokens(Members(names, values), c, m)
  {
    hide Encode, EncodeString;
    if names == [] {
      assert Members(names, values) == [];
    } else {
      MembersStep(names, values);
      var ts := Members(names[1..], values[1..]);
      var name := EncodeString(names[0], c, m);
      WriteOne(Name(names[0]), c, m);
      PairWritten(names[0], values[0], ts, c, m);
      if name.Wrote? {
        var value := Encode(values[0], name.ctx, m);
        if value.Wrote? {
          MembersWritten(names[1..], values[1..], value.ctx, m);
          JoinAssociates(name, value, WriteTokens(ts, value.ctx, m));
        }
      }
    }
  }

  lemma PairWritten(n: Text, x: Item, ts: seq<Token>, c: Context, m: Policy)
    ensures WriteTokens([Name(n), Value(x)] + ts, c, m) ==
      var name := EncodeString(n, c, m);
      if name.Throws? then Throws else
        var value := Encode(x, name.ctx, m);
        if value.Throws? then Throws else Join(name, Join(value, WriteTokens(ts, value.ctx, m)))
  {
    hide Encode, EncodeString;
    assert ([Name(n), Value(x)] + ts)[1..] == [Value(x)] + ts;
    assert ([Value(x)] + ts)[1..] == ts;
  }

  /** `vs` are the values `p` holds under `names`. */
  predicate Under(names: seq<Text>, p: Props<Item>, vs: seq<Item>) {
    |vs| == |names|
    && forall i :: 0 <= i < |names| ==> exists j :: 0 <= j < |p.names| && p.names[j] == names[i] && p.values[j] == vs[i]
  }

  lemma {:induction false} PickWritten(names: seq<Text>, p: Props<Item>, vs: seq<Item>, c: Context, m: Policy)
    requires Under(names, p, vs)
    ensures EncodePick(names, p, c, m) == WriteTokens(Values(vs), c, m)
    decreases names
  {
    hide Encode;
    if names == [] {
      assert Values(vs) == [];
    } else {
      ValuesStep(vs);
      var j :| 0 <= j < |p.names| && p.names[j] == names[0] && p.values[j] == vs[0];
      RankOfMember(p.names, j);
      var first := Encode(vs[0], c, m);
      assert WriteToken(Value(vs[0]), c, m) == first;
      if first.Wrote? { PickWritten(names[1..], p, vs[1..], first.ctx, m); }
    }
  }

  // ----- Strings and traits -----

  /** One byte for the empty string and for one sent before; else length and bytes, and an entry. */
  lemma StringWritten(t: Text, c: Context)
    ensures var r := EncodeString(t, c, Compress);
      && (t == [] ==> r == Wrote([1], c, true))
      && (forall i :: t != [] && 0 <= i < |c.strings| && c.strings[i] == t && t !in c.strings[..i] ==>
            r == Wrote([2 * i % 256], c, i < 64))
      && (t != [] && t !in c.strings ==>
            r == if |t| >= 0x800_0000 then Throws
                 else Wrote(U29.Write(2 * |t| + 1) + t, c.(strings := c.strings + [t]), true))
  {
    hide U29.Write;
    forall i | 0 <= i < |c.strings| && c.strings[i] == t && t !in c.strings[..i]
      ensures FirstIndex(c.strings, t) == i
    {
      FirstIs(c.strings, i);
    }
  }

  lemma FirstIs<T>(xs: seq<T>, i: nat)
    requires i < |xs| && xs[i] !in xs[..i]
    ensures FirstIndex(xs, xs[i]) == i
  {
    forall j | 0 <= j < i ensures xs[j] != xs[i] { assert xs[..i][j] == xs[j]; }
  }

  /** Traits sent before are a reference, and their class name is serialized in vain. */
  lemma KnownTraitsWritten(t: Traits, c: Context, i: nat)
    requires !t.externalizable && i < |c.traits| && c.traits[i] == t && t !in c.traits[..i]
    ensures EncodeTraits(t, c, Compress) == WriteTokens([Dropped(t.className), TraitsAt(i)], c, Compress)
  {
    hide EncodeString, EncodeTraits, U8, WriteTokens;
    TraitsReference(t, c, i);
    PairOfTokens(Dropped(t.className), TraitsAt(i), c, Compress);
    var name := EncodeString(t.className, c, Compress);
    if name.Wrote? { JoinNothing(Wrote([U8(4 * i + 1)], name.ctx, i < 32), name.ctx); }
    assert U8(4 * i + 1) == (4 * i + 1) % 256 by { U8Is(4 * i + 1); }
  }

  lemma U8Is(x: int)
    ensures U8(x) == x % 256
  {
  }

  lemma TraitsReference(t: Traits, c: Context, i: nat)
    requires !t.externalizable && i < |c.traits| && c.traits[i] == t && t !in c.traits[..i]
    ensures EncodeTraits(t, c, Compress) ==
      var name := EncodeString(t.className, c, Compress);
      if name.Throws? then Throws else Wrote([U8(4 * i + 1)], name.ctx, i < 32)
  {
    hide EncodeString, EncodeNames, Unique, FirstIndex, U8, TraitsHeader;
    StringTables(t.className, c, Compress);
    FirstIs(c.traits, i);
  }

  lemma StringTables(s: Text, c: Context, m: Policy)
    ensures var r := EncodeString(s, c, m); r.Wrote? ==> r.ctx.traits == c.traits && r.ctx.objects == c.objects
  {
  }

  /** Sixteen times the number of attributes, the dynamic bit and 3; the class name; the attributes. */
  function NewTraits(t: Traits): seq<Token> {
    [Head(16 * |Unique(t.attributes)| + (if t.dynamic then 11 else 3)), Name(t.className), Learn(t)]
    + NameList(Unique(t.attributes))
  }

  lemma NewTraitsWritten(t: Traits, c: Context, m: Policy)
    requires !t.externalizable && (m.Compress? ==> t !in c.traits)
    ensures EncodeTraits(t, c, m) == WriteTokens(NewTraits(t), c, m)
  {
    hide EncodeString, EncodeNames, Unique, IntegerBytes, Small, Extends, FirstIndex, WriteTokens, NameList;
    var names := Unique(t.attributes);
    var name := EncodeString(t.className, c, m);
    StringTables(t.className, c, m);
    var h := Head(16 * |names| + (if t.dynamic then 11 else 3));
    var ts := [h, Name(t.className), Learn(t)];
    WriteAppend(ts, NameList(names), c, m);
    HeadWritten(h, t, c, m);
    if name.Wrote? { NamesWritten(names, AddTraits(name.ctx, t), m); }
  }

  lemma HeadWritten(h: Token, t: Traits, c: Context, m: Policy)
    requires h.Head?
    ensures WriteTokens([h, Name(t.className), Learn(t)], c, m) ==
      var name := EncodeString(t.className, c, m);
      if name.Throws? then Throws
      else Wrote(IntegerBytes(Int32(h.v))[1..] + name.bytes, AddTraits(name.ctx, t), name.exact)
  {
    hide EncodeString, IntegerBytes;
    var name := EncodeString(t.className, c, m);
    var ts := [h, Name(t.className), Learn(t)];
    assert ts[1..] == [Name(t.className), Learn(t)] && ts[1..][1..] == [Learn(t)];
    if name.Wrote? {
      WriteOne(Learn(t), name.ctx, m);
      assert name.bytes + [] == name.bytes;
    }
  }

  /** The traits of an object, by reference or in full. */
  predicate TraitsTokens(t: Traits, c: Context, ts: seq<Token>) {
    if t in c.traits then
      exists i :: 0 <= i < |c.traits| && c.traits[i] == t && t !in c.traits[..i]
                  && ts == [Dropped(t.className), TraitsAt(i)]
    else ts == NewTraits(t)
  }

  lemma TraitsWritten(t: Traits, c: Context, ts: seq<Token>)
    requires !t.externalizable && TraitsTokens(t, c, ts)
    ensures EncodeTraits(t, c, Compress) == WriteTokens(ts, c, Compress)
  {
    hide EncodeTraits, WriteTokens, NewTraits;
    if t in c.traits {
      var i :| 0 <= i < |c.traits| && c.traits[i] == t && t !in c.traits[..i]
               && ts == [Dropped(t.className), TraitsAt(i)];
      KnownTraitsWritten(t, c, i);
    } else {
      NewTraitsWritten(t, c, Compress);
    }
  }

  // ----- Items -----

  /** Items without an entry in the object table; a double goes out as its bytes lie in memory. */
  lemma SimpleWritten(x: Item, c: Context, m: Policy)
    requires !Tabled(x) && !x.Loop?
    ensures Encode(x, c, m) == WriteTokens(match x
                                           case Undefined => [Byte(0)]
                                           case Null => [Byte(1)]
                                           case Bool(false) => [Byte(2)]
                                           case Bool(true) => [Byte(3)]
                                           case Integer(v) =>
                                             if -0x1000_0000 <= Int32(v) < 0x1000_0000 then [Byte(4), Head(v)]
                                             else [Byte(5), Head(v)]
                                           case Double(memory, _) => [Byte(5), Bytes(memory)]
                                           case Str(t) => [Byte(6), Name(t)]
                                           case _ => [], c, m)
  {
    hide EncodeString, U29.Write, DoubleMemory;
    match x
    case Integer(v) => PairOfTokens(Byte(if -0x1000_0000 <= Int32(v) < 0x1000_0000 then 4 else 5), Head(v), c, m);
    case Double(memory, _) => PairOfTokens(Byte(5), Bytes(memory), c, m);
    case Str(t) => PairOfTokens(Byte(6), Name(t), c, m);
    case Undefined => WriteOne(Byte(0), c, m);
    case Null => WriteOne(Byte(1), c, m);
    case Bool(on) => WriteOne(Byte(if on then 3 else 2), c, m);
  }

  lemma PairOfTokens(a: Token, b: Token, c: Context, m: Policy)
    ensures WriteTokens([a, b], c, m) ==
      var r := WriteToken(a, c, m); if r.Throws? then Throws else Join(r, WriteToken(b, r.ctx, m))
  {
    hide WriteToken;
    assert [a, b][1..] == [b];
    var r := WriteToken(a, c, m);
    if r.Wrote? { WriteOne(b, r.ctx, m); }
  }

  // ----- Items with an entry -----

  /** Marker first, and an entry for the item before anything inside it is written. */
  lemma NewWritten(x: Item, c: Context, m: Policy)
    requires Tabled(x) && New(x, c, m)
    ensures Encode(x, c, m) == Join(Put1([Letter(x)], AddObject(c, x)), EncodeBody(x, AddObject(c, x), m))
  {
    hide EncodeBody;
  }

  /** The marker and the tokens after it are what is written. */
  lemma AfterMarker(x: Item, ts: seq<Token>, c: Context, m: Policy)
    requires Tabled(x) && New(x, c, m) && EncodeBody(x, AddObject(c, x), m) == WriteTokens(ts, AddObject(c, x), m)
    ensures Encode(x, c, m) == WriteTokens([Byte(Letter(x))] + ts, AddObject(c, x), m)
  {
    hide EncodeBody, New, Letter;
    NewWritten(x, c, m);
    assert ([Byte(Letter(x))] + ts)[1..] == ts;
  }

  /** Byte arrays and XML: length and bytes. */
  lemma DataWritten(x: Item, c: Context, m: Policy)
    requires x.Data? && New(x, c, m)
    ensures Encode(x, c, m) ==
      WriteTokens([Byte(match x.kind case XmlDocument => 7 case Xml => 11 case ByteArray => 12), Length(|x.bytes|),
                   Bytes(x.bytes)], AddObject(c, x), m)
  {
    hide New, U29.Write;
    var ts := [Length(|x.bytes|), Bytes(x.bytes)];
    PairOfTokens(ts[0], ts[1], AddObject(c, x), m);
    AfterMarker(x, ts, c, m);
    assert [Byte(Letter(x))] + ts == [Byte(Letter(x)), ts[0], ts[1]];
  }

  lemma {:induction false} WordBytesAt(ws: seq<Word>, i: nat)
    requires i < |ws|
    ensures var b, k := WordBytes(ws), 4 * i;
      ws[i] == b[k] as int * 0x100_0000 + b[k + 1] as int * 0x1_0000 + b[k + 2] as int * 0x100 + b[k + 3] as int
    decreases i
  {
    if i == 0 {
      Lockstep.WordDigits(ws[0]);
    } else {
      WordBytesAt(ws[1..], i - 1);
      var b, rest, k := WordBytes(ws), WordBytes(ws[1..]), 4 * i;
      assert rest[k - 4] == b[k] && rest[k - 3] == b[k + 1] && rest[k - 2] == b[k + 2] && rest[k - 1] == b[k + 3];
    }
  }

  lemma WordBytesBigEndian(ws: seq<Word>)
    ensures BigEndian(ws, WordBytes(ws))
  {
    hide WordBytes;
    forall i | 0 <= i < |ws|
      ensures var b, k := WordBytes(ws), 4 * i;
        ws[i] == b[k] as int * 0x100_0000 + b[k + 1] as int * 0x1_0000 + b[k + 2] as int * 0x100 + b[k + 3] as int
    {
      WordBytesAt(ws, i);
    }
  }

  /** Integer vectors: length, fixed flag, four bytes to an element. */
  lemma NumbersWritten(x: Item, b: seq<byte>, c: Context, m: Policy)
    requires x.Numbers? && New(x, c, m) && BigEndian(x.numbers, b)
    ensures Encode(x, c, m) == WriteTokens([Byte(if x.width.Ints? then 13 else 14), Length(|x.numbers|),
                                            Byte(if x.fixed then 1 else 0), Bytes(b)], AddObject(c, x), m)
  {
    hide New, U29.Write, WordBytes, BigEndian;
    WordBytesBigEndian(x.numbers);
    BigEndianUnique(x.numbers, b, WordBytes(x.numbers));
    var ts := [Length(|x.numbers|), Byte(if x.fixed then 1 else 0), Bytes(b)];
    assert ts[1..] == [ts[1], ts[2]];
    PairOfTokens(ts[1], ts[2], AddObject(c, x), m);
    if |x.numbers| < 0x800_0000 {
      assert LengthHeader(|x.numbers|) + Flag(x.fixed) + b == LengthHeader(|x.numbers|) + (Flag(x.fixed) + b);
    }
    AfterMarker(x, ts, c, m);
    assert [Byte(Letter(x))] + ts == [Byte(Letter(x)), ts[0], ts[1], ts[2]];
  }

  lemma BigEndianUnique(ws: seq<Word>, a: seq<byte>, b: seq<byte>)
    requires BigEndian(ws, a) && BigEndian(ws, b)
    ensures a == b
  {
    forall k | 0 <= k < |a| ensures a[k] == b[k] {
      var i := k / 4;
      var j := 4 * i;
      DigitsUnique(a[j], a[j + 1], a[j + 2], a[j + 3], b[j], b[j + 1], b[j + 2], b[j + 3]);
      assert k == j || k == j + 1 || k == j + 2 || k == j + 3;
    }
  }

  lemma DigitsUnique(a: byte, b: byte, c: byte, d: byte, e: byte, f: byte, g: byte, h: byte)
    requires a as int * 0x100_0000 + b as int * 0x1_0000 + c as int * 0x100 + d as int
          == e as int * 0x100_0000 + f as int * 0x1_0000 + g as int * 0x100 + h as int
    ensures a == e && b == f && c == g && d == h
  {
  }

  /** Names in ascending order, byte by byte and unsigned. */
  predicate InOrder(names: seq<Text>) {
    forall i, j :: 0 <= i < j < |names| ==> Before(names[i], names[j])
  }

  lemma AscendingInOrder(names: seq<Text>)
    requires Ascending(names)
    ensures InOrder(names)
  {
    hide Less, Before;
    forall i, j | 0 <= i < j < |names| ensures Before(names[i], names[j]) { LessIff(names[i], names[j]); }
  }

  /** Arrays: dense length, named entries in the order of their names, the empty name, dense items. */
  lemma ArrayWritten(x: Item, c: Context, m: Policy)
    requires x.Array? && New(x, c, m)
    ensures InOrder(x.assoc.names)
    ensures Encode(x, c, m) ==
      WriteTokens([Byte(9), Length(|x.dense|)] + Members(x.assoc.names, x.assoc.values) + [Byte(1)] + Values(x.dense),
                  AddObject(c, x), m)
  {
    hide Encode, New, U29.Write, EncodeProps, EncodeSeq, WriteTokens, Members, Values, InOrder, Ascending;
    AscendingInOrder(x.assoc.names);
    var named, dense := Members(x.assoc.names, x.assoc.values), Values(x.dense);
    var c1 := AddObject(c, x);
    MembersWritten(x.assoc.names, x.assoc.values, c1, m);
    var r := EncodeProps(x.assoc.names, x.assoc.values, c1, m);
    WriteOne(Length(|x.dense|), c1, m);
    WriteAppend([Length(|x.dense|)], named + ([Byte(1)] + dense), c1, m);
    WriteAppend(named, [Byte(1)] + dense, c1, m);
    if r.Wrote? {
      WriteOne(Byte(1), r.ctx, m);
      WriteAppend([Byte(1)], dense, r.ctx, m);
      ValuesWritten(x.dense, r.ctx, m);
      if |x.dense| < 0x800_0000 {
        JoinAssociates(Put1(LengthHeader(|x.dense|), c1), r, Join(Put1([1], r.ctx), EncodeSeq(x.dense, r.ctx, m)));
      }
    }
    var ts := [Length(|x.dense|)] + (named + ([Byte(1)] + dense));
    AfterMarker(x, ts, c, m);
    assert [Byte(9)] + ts == [Byte(9), Length(|x.dense|)] + named + [Byte(1)] + dense;
  }

  /** Object vectors: length, fixed flag, type name, items. */
  lemma VectorWritten(x: Item, c: Context, m: Policy)
    requires x.Vector? && New(x, c, m)
    ensures Encode(x, c, m) ==
      WriteTokens([Byte(16), Length(|x.values|), Byte(if x.fixed then 1 else 0), Name(x.typeName)] + Values(x.values),
                  AddObject(c, x), m)
  {
    hide Encode, New, U29.Write, EncodeString, EncodeSeq, Values;
    var c1 := AddObject(c, x);
    var flag := Byte(if x.fixed then 1 else 0);
    var ts := [Length(|x.values|), flag, Name(x.typeName)];
    assert ts[1..] == [flag, Name(x.typeName)];
    PairOfTokens(flag, Name(x.typeName), c1, m);
    WriteAppend(ts, Values(x.values), c1, m);
    var name := EncodeString(x.typeName, c1, m);
    if name.Wrote? {
      ValuesWritten(x.values, name.ctx, m);
      if |x.values| < 0x800_0000 {
        var length := LengthHeader(|x.values|);
        assert length + (Flag(x.fixed) + name.bytes) == length + Flag(x.fixed) + name.bytes;
      }
    }
    AfterMarker(x, ts + Values(x.values), c, m);
    assert [Byte(16)] + (ts + Values(x.values)) == [Byte(16), ts[0], ts[1], ts[2]] + Values(x.values);
  }

  /**
    Objects: traits, the value of every attribute in ascending order of their names, and for
    dynamic ones the dynamic members and the empty name.
   */
  lemma ObjectWritten(x: Item, c: Context, head: seq<Token>, vs: seq<Item>)
    requires x.Object? && New(x, c, Compress) && TraitsTokens(x.traits, c, head)
    requires Under(Unique(x.traits.attributes), x.sealed, vs)
    ensures InOrder(Unique(x.traits.attributes)) && InOrder(x.dyn.names)
    ensures Encode(x, c, Compress) ==
      WriteTokens([Byte(10)] + head + Values(vs)
                  + (if x.traits.dynamic then Members(x.dyn.names, x.dyn.values) + [Byte(1)] else []),
                  AddObject(c, x), Compress)
  {
    hide Encode, Unique, EncodeTraits, EncodePick, EncodeProps, WriteTokens, Members, Values, Under, NewTraits,
         Raises, FirstEqual, LookupRaises, DynOut, InOrder, Ascending;
    AscendingInOrder(Unique(x.traits.attributes));
    AscendingInOrder(x.dyn.names);
    var c1 := AddObject(c, x);
    TraitsWritten(x.traits, c1, head);
    var t := EncodeTraits(x.traits, c1, Compress);
    var dyn := if x.traits.dynamic then Members(x.dyn.names, x.dyn.values) + [Byte(1)] else [];
    WriteAppend(head, Values(vs) + dyn, c1, Compress);
    if t.Wrote? {
      WriteAppend(Values(vs), dyn, t.ctx, Compress);
      PickWritten(Unique(x.traits.attributes), x.sealed, vs, t.ctx, Compress);
      var sealed := EncodePick(Unique(x.traits.attributes), x.sealed, t.ctx, Compress);
      if sealed.Wrote? { DynWritten(x, sealed.ctx); }
      ObjectJoins(x, c1);
    }
    AfterMarker(x, head + (Values(vs) + dyn), c, Compress);
    assert [Byte(10)] + (head + (Values(vs) + dyn)) == [Byte(10)] + head + Values(vs) + dyn;
  }

  function DynOut(x: Item, c: Context): Out
    requires x.Object?
  {
    if !x.traits.dynamic then Put1([], c) else
      var r := EncodeProps(x.dyn.names, x.dyn.values, c, Compress);
      if r.Throws? then Throws else Join(r, Put1([1], r.ctx))
  }

  lemma DynWritten(x: Item, c: Context)
    requires x.Object?
    ensures WriteTokens(if x.traits.dynamic then Members(x.dyn.names, x.dyn.values) + [Byte(1)] else [], c, Compress)
         == DynOut(x, c)
  {
    hide EncodeProps, Members;
    if x.traits.dynamic {
      MembersWritten(x.dyn.names, x.dyn.values, c, Compress);
      WriteAppend(Members(x.dyn.names, x.dyn.values), [Byte(1)], c, Compress);
      var r := EncodeProps(x.dyn.names, x.dyn.values, c, Compress);
      if r.Wrote? { WriteOne(Byte(1), r.ctx, Compress); }
    }
  }

  lemma ObjectJoins(x: Item, c: Context)
    requires x.Object? && EncodeTraits(x.traits, c, Compress).Wrote?
    ensures EncodeObject(x, c, Compress) ==
      var t := EncodeTraits(x.traits, c, Compress);
      var sealed := EncodePick(Unique(x.traits.attributes), x.sealed, t.ctx, Compress);
      if sealed.Throws? then Throws else Join(t, Join(sealed, DynOut(x, sealed.ctx)))
  {
    hide EncodeTraits, EncodePick, EncodeProps, Unique;
    var t := EncodeTraits(x.traits, c, Compress);
    var sealed := EncodePick(Unique(x.traits.attributes), x.sealed, t.ctx, Compress);
    if sealed.Wrote? {
      JoinAssociates(t, sealed, DynOut(x, sealed.ctx));
      JoinNothing(sealed, c);
    }
  }

  // ----- Lookups -----

  /**
    The object table is searched from the front, and the first entry that throws in comparison
    or is equal ends the search: an exception, or marker and reference. An item that
    passes them all is new.
   */
  lemma LookupWritten(x: Item, c: Context)
    requires Tabled(x) && !External(x)
    ensures forall i :: 0 <= i < |c.objects| && Passed(c, x, i) && Eq(c.objects[i], x) ==>
      Encode(x, c, Compress) == Wrote([Letter(x), 2 * i % 256], c, i < 64)
    ensures forall i :: 0 <= i < |c.objects| && Passed(c, x, i) && Raises(c.objects[i], x) ==>
      Encode(x, c, Compress).Throws?
    ensures New(x, c, Compress) <==> Passed(c, x, |c.objects|)
  {
    hide Eq, Raises, Letter, EncodeBody, FirstEqual;
    forall i | 0 <= i < |c.objects| && Passed(c, x, i) && Eq(c.objects[i], x)
      ensures FirstEqual(c.objects, x) == i
    {
    }
    forall i | 0 <= i < |c.objects| && Passed(c, x, i) && Raises(c.objects[i], x)
      ensures LookupRaises(c, x, Compress)
    {
      RaisesNotEq(c.objects[i], x);
    }
  }

  /** The first `n` entries neither throw in comparison nor are equal. */
  predicate Passed(c: Context, x: Item, n: nat)
    requires n <= |c.objects|
  {
    forall i :: 0 <= i < n ==> !Eq(c.objects[i], x) && !Raises(c.objects[i], x)
  }

  /** The first byte of anything written tells its class, and that of a boolean its value. */
  lemma FirstByteWritten(x: Item, c: Context, m: Policy)
    requires Encode(x, c, m).Wrote?
    ensures var b := Encode(x, c, m).bytes;
      b != [] && !x.Loop?
      && match x
         case Undefined => b[0] == 0
         case Null => b[0] == 1
         case Bool(on) => b[0] == if on then 3 else 2
         case Integer(v) => b[0] == if -0x1000_0000 <= Int32(v) < 0x1000_0000 then 4 else 5
         case Double(_, _) => b[0] == 5
         case Str(_) => b[0] == 6
         case Data(XmlDocument, _) => b[0] == 7
         case Array(_, _) => b[0] == 9
         case Object(_, _, _, _) => b[0] == 10
         case Data(Xml, _) => b[0] == 11
         case Data(ByteArray, _) => b[0] == 12
         case Numbers(Ints, _, _) => b[0] == 13
         case Numbers(Uints, _, _) => b[0] == 14
         case Vector(_, _, _) => b[0] == 16
         case Loop(_) => false
  {
    hide EncodeBody, EncodeString, U29.Write, LookupRaises, FirstEqual, U8;
  }
}
