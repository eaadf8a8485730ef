/**
  The format as a language: what an item looks like on the wire, as a list of tokens, given
  in the numbers and the order of the AMF 3 specification and without reference to how the
  encoder and the decoder go about it.
 */
module Grammar {
  import opened Words
  import opened Names
  import opened Items
  import opened Encoder
  import opened Decoder
  import U29

  datatype Token =
    | Byte(b: byte)
    | Bytes(bytes: seq<byte>)
    /** An integer without its marker, and one that says a count and that this is no reference. */
    | Head(v: int)
    | Length(n: int)
    /** A string without its marker, and one that is serialized and dropped. */
    | Name(text: Text)
    | Dropped(text: Text)
    | Value(item: Item)
    /** A reference to traits, and traits that enter their table. */
    | TraitsAt(index: nat)
    | Learn(traits: Traits)

  // ----- Lists -----

  function Values(xs: seq<Item>): (r: seq<Token>)
    ensures |r| == |xs|
  {
    seq(|xs|, i requires 0 <= i < |xs| => Value(xs[i]))
  }

  function NameList(names: seq<Text>): (r: seq<Token>)
    ensures |r| == |names|
  {
    seq(|names|, i requires 0 <= i < |names| => Name(names[i]))
  }

  /** Name and value in turn. */
  function Members(names: seq<Text>, values: seq<Item>): (r: seq<Token>)
    requires |names| == |values|
    ensures |r| == 2 * |names|
  {
    seq(2 * |names|, i requires 0 <= i < 2 * |names| => if i % 2 == 0 then Name(names[i / 2]) else Value(values[i / 2]))
  }

  lemma ValuesStep(xs: seq<Item>)
    requires xs != []
    ensures Values(xs) == [Value(xs[0])] + Values(xs[1..])
  {
  }

  lemma NameListStep(names: seq<Text>)
    requires names != []
    ensures NameList(names) == [Name(names[0])] + NameList(names[1..])
  {
  }

  lemma MembersStep(names: seq<Text>, values: seq<Item>)
    requires |names| == |values| && names != []
    ensures Members(names, values) == [Name(names[0]), Value(values[0])] + Members(names[1..], values[1..])
  {
    var r, t := Members(names, values), Members(names[1..], values[1..]);
    forall i | 2 <= i < |r| ensures r[i] == t[i - 2] {
      assert (i - 2) / 2 == i / 2 - 1 && (i - 2) % 2 == i % 2;
    }
  }

  // ----- Writing -----

  function WriteToken(t: Token, c: Context, m: Policy): Out {
    match t
    case Byte(b) => Put1([b], c)
    case Bytes(b) => Put1(b, c)
    case Head(v) => Put1(IntegerBytes(Int32(v))[1..], c)
    case Length(n) => if 0 <= n < 0x800_0000 then Put1(U29.Write(2 * n + 1), c) else Throws
    case Name(s) => EncodeString(s, c, m)
    case Dropped(s) =>
      var r := EncodeString(s, c, m);
      if r.Throws? then Throws else Wrote([], r.ctx, true)
    case Value(x) => Encode(x, c, m)
    case TraitsAt(i) => Wrote([(4 * i + 1) % 256], c, i < 32)
    case Learn(t) => Put1([], AddTraits(c, t))
  }

  function WriteTokens(ts: seq<Token>, c: Context, m: Policy): Out {
    if ts == [] then Put1([], c) else
      var first := WriteToken(ts[0], c, m);
      if first.Throws? then Throws else Join(first, WriteTokens(ts[1..], first.ctx, m))
  }

  lemma {:induction false} WriteAppend(a: seq<Token>, b: seq<Token>, c: Context, m: Policy)
    ensures WriteTokens(a + b, c, m) ==
      var r := WriteTokens(a, c, m); if r.Throws? then Throws else Join(r, WriteTokens(b, r.ctx, m))
  {
    hide WriteToken;
    if a == [] {
      assert a + b == b;
      JoinNothing(WriteTokens(b, c, m), c);
    } else {
      var first := WriteToken(a[0], c, m);
      assert (a + b)[1..] == a[1..] + b;
      if first.Wrote? {
        WriteAppend(a[1..], b, first.ctx, m);
        var rest := WriteTokens(a[1..], first.ctx, m);
        if rest.Wrote? { JoinAssociates(first, rest, WriteTokens(b, rest.ctx, m)); }
      }
    }
  }

  lemma JoinNothing(a: Out, c: Context)
    ensures Join(Put1([], c), a) == a
    ensures a.Wrote? ==> Join(a, Put1([], a.ctx)) == a
  {
    if a.Wrote? { assert [] + a.bytes == a.bytes && a.bytes + [] == a.bytes; }
  }

  lemma JoinAssociates(a: Out, b: Out, e: Out)
    ensures Join(Join(a, b), e) == Join(a, Join(b, e))
  {
    if a.Wrote? && b.Wrote? && e.Wrote? { assert a.bytes + b.bytes + e.bytes == a.bytes + (b.bytes + e.bytes); }
  }

  lemma WriteOne(t: Token, c: Context, m: Policy)
    ensures WriteTokens([t], c, m) == WriteToken(t, c, m)
  {
    hide WriteToken;
    var r := WriteToken(t, c, m);
    if r.Wrote? { JoinNothing(r, c); }
  }

  // ----- Reading -----

  /** Where reading has got to, or that it has failed. */
  datatype Place = Nowhere | Here(next: nat, ctx: Table)

  /** The token is what `s` holds at `p`. */
  function ReadToken(t: Token, s: seq<byte>, p: nat, c: Table): (r: Place)
    requires p <= |s|
    ensures r.Here? ==> p <= r.next <= |s|
  {
    match t
    case Byte(b) => if p < |s| && s[p] == b then Here(p + 1, c) else Nowhere
    case Bytes(b) => if At(s, p, b) then Here(p + |b|, c) else Nowhere
    case Head(v) => ReadHead(v, s, p, c)
    case Length(n) => ReadHead(2 * n + 1, s, p, c)
    case Name(n) =>
      var d := DecodeString(s, p, c);
      if d.Ok? && d.value == n then Here(d.next, d.ctx) else Nowhere
    case Value(x) =>
      var d := Decode(s, p, c);
      if d.Ok? && d.value == x then Here(d.next, d.ctx) else Nowhere
    case TraitsAt(i) => ReadHead(4 * i + 1, s, p, c)
    case Learn(t) => Here(p, AddTraits(c, t))
    case Dropped(_) => Here(p, c)
  }

  function ReadHead(v: int, s: seq<byte>, p: nat, c: Table): (r: Place)
    ensures r.Here? ==> p < r.next <= |s|
  {
    var h := U29.Read(s, p);
    if h.Got? && h.value == v then Here(h.next, c) else Nowhere
  }

  function ReadTokens(ts: seq<Token>, s: seq<byte>, p: nat, c: Table): (r: Place)
    requires p <= |s|
    ensures r.Here? ==> p <= r.next <= |s|
  {
    if ts == [] then Here(p, c) else
      var first := ReadToken(ts[0], s, p, c);
      if first.Nowhere? then Nowhere else ReadTokens(ts[1..], s, first.next, first.ctx)
  }

  lemma {:induction false} ReadAppend(a: seq<Token>, b: seq<Token>, s: seq<byte>, p: nat, c: Table)
    requires p <= |s|
    ensures ReadTokens(a + b, s, p, c) ==
      var r := ReadTokens(a, s, p, c); if r.Nowhere? then Nowhere else ReadTokens(b, s, r.next, r.ctx)
  {
    hide ReadToken;
    if a == [] {
      assert a + b == b;
    } else {
      var first := ReadToken(a[0], s, p, c);
      assert (a + b)[1..] == a[1..] + b;
      if first.Here? { ReadAppend(a[1..], b, s, first.next, first.ctx); }
    }
  }

  lemma ReadOneToken(t: Token, s: seq<byte>, p: nat, c: Table)
    requires p <= |s|
    ensures ReadTokens([t], s, p, c) == ReadToken(t, s, p, c)
  {
    hide ReadToken;
  }

  // ----- Classes -----

  /** The first byte of every item, by its class. */
  function Letter(x: Item): (r: byte)
    requires !x.Loop?
    ensures r == Marker(x)
  {
    match x
    case Undefined => 0
    case Null => 1
    case Bool(on) => if on then 3 else 2
    case Integer(_) => 4
    case Double(_, _) => 5
    case Str(_) => 6
    case Data(XmlDocument, _) => 7
    case Array(_, _) => 9
    case Object(_, _, _, _) => 10
    case Data(Xml, _) => 11
    case Data(ByteArray, _) => 12
    case Numbers(Ints, _, _) => 13
    case Numbers(Uints, _, _) => 14
    case Vector(_, _, _) => 16
  }

  /** `p` holds under every name what came last under it. */
  ghost predicate Latest(p: Props<Item>, names: seq<Text>, values: seq<Item>)
    requires |names| == |values|
  {
    && (forall n :: Find(p, n).Some? <==> n in names)
    && forall j :: 0 <= j < |names| && names[j] !in names[j + 1..] ==> Find(p, names[j]) == Some(values[j])
  }

  /** The bytes of 32-bit words, most significant first. */
  predicate BigEndian(ws: seq<Word>, b: seq<byte>) {
    |b| == 4 * |ws|
    && forall i :: 0 <= i < |ws| ==>
      ws[i] == b[4 * i] as int * 0x100_0000 + b[4 * i + 1] as int * 0x1_0000 + b[4 * i + 2] as int * 0x100
               + b[4 * i + 3] as int
  }
}
