/** What `serialize` writes and how it leaves the reference tables. */
module Encoder {
  import opened Words
  import opened Names
  import opened Items
  import U29

  /** The three tables of a `SerializationContext`. */
  datatype Tables<T> = Tables(strings: seq<Text>, traits: seq<Traits>, objects: seq<T>)

  type Context = Tables<Item>

  const EMPTY: Context := Tables([], [], [])

  /** Whether table lookups are made, or every one of them misses. */
  datatype Policy = Compress | Verbatim

  /**
    What a `serialize` call does: it throws, or it writes bytes and leaves a context.
    `exact` records that every reference written has an index its single byte can carry:
    below 64 for strings and objects, below 32 for traits.
   */
  datatype Out = Throws | Wrote(bytes: seq<byte>, ctx: Context, exact: bool)

  /** The bytes of two consecutive writes, with the context of the second. */
  function Join(a: Out, b: Out): Out {
    if a.Throws? || b.Throws? then Throws
    else Wrote(a.bytes + b.bytes, b.ctx, a.exact && b.exact)
  }

  function Put1(bytes: seq<byte>, c: Context): Out {
    Wrote(bytes, c, true)
  }

  // ----- Tables -----

  /** `SerializationContext::addString`: the empty string is never stored. */
  function AddString<T>(c: Tables<T>, s: Text): Tables<T> {
    if s == [] then c else c.(strings := c.strings + [s])
  }

  function AddTraits<T>(c: Tables<T>, t: Traits): Tables<T> {
    c.(traits := c.traits + [t])
  }

  function AddObject<T>(c: Tables<T>, x: T): Tables<T> {
    c.(objects := c.objects + [x])
  }

  /** `std::find` over strings or traits: the first match, or the length. */
  function FirstIndex<T(==)>(xs: seq<T>, x: T): (r: nat)
    ensures r <= |xs|
    ensures r < |xs| ==> xs[r] == x
    ensures forall i :: 0 <= i < r ==> xs[i] != x
  {
    if xs == [] || xs[0] == x then 0 else 1 + FirstIndex(xs[1..], x)
  }

  /** The templated `getIndex`: the first object of the same class that compares equal, or the length. */
  function FirstEqual(xs: seq<Item>, x: Item): (r: nat)
    ensures r <= |xs|
    ensures r < |xs| ==> Eq(xs[r], x)
    ensures forall i :: 0 <= i < r ==> !Eq(xs[i], x)
  {
    if xs == [] || Eq(xs[0], x) then 0 else 1 + FirstEqual(xs[1..], x)
  }

  function StringIndex(c: Context, s: Text, m: Policy): (r: nat)
    ensures r <= |c.strings|
  {
    if m.Compress? then FirstIndex(c.strings, s) else |c.strings|
  }

  function TraitsIndex(c: Context, t: Traits, m: Policy): (r: nat)
    ensures r <= |c.traits|
  {
    if m.Compress? then FirstIndex(c.traits, t) else |c.traits|
  }

  function ObjectIndex(c: Context, x: Item, m: Policy): (r: nat)
    ensures r <= |c.objects|
  {
    if m.Compress? then FirstEqual(c.objects, x) else |c.objects|
  }

  /** The lookup comes to a comparison that throws before it finds an equal object. */
  predicate LookupRaises(c: Context, x: Item, m: Policy) {
    m.Compress? && exists i :: 0 <= i < FirstEqual(c.objects, x) && Raises(c.objects[i], x)
  }

  /** The item gets an entry of its own in the object table. */
  predicate New(x: Item, c: Context, m: Policy) {
    !External(x) && !LookupRaises(c, x, m) && ObjectIndex(c, x, m) == |c.objects|
  }

  /** Nothing is dropped or reordered: `d` has the entries of `c` and possibly more. */
  predicate Extends<T(==)>(c: Tables<T>, d: Tables<T>) {
    c.strings <= d.strings && c.traits <= d.traits && c.objects <= d.objects
  }

  /** Tables within the limits of one-byte references. */
  predicate Small<T>(c: Tables<T>) {
    |c.strings| <= 64 && |c.objects| <= 64 && |c.traits| <= 32
  }

  // ----- Integers and strings -----

  predicate Wide(v: int) {
    -0x8000_0000 <= v < U29.MIN || U29.MAX < v < 0x8000_0000
  }

  /** The binary exponent of an integer of 29 to 32 significant bits. */
  function Exponent(v: int): (r: int)
    requires Wide(v)
    ensures 28 <= r <= 31
  {
    var a := if v < 0 then -v else v;
    if a < 0x2000_0000 then 28 else if a < 0x4000_0000 then 29 else if a < 0x8000_0000 then 30 else 31
  }

  function Scale(exponent: int): int {
    if exponent == 28 then 0x100_0000
    else if exponent == 29 then 0x80_0000
    else if exponent == 30 then 0x40_0000
    else 0x20_0000
  }

  /** The 52 fraction bits of the double that equals `v`. */
  function Fraction(v: int): (r: int)
    requires Wide(v)
    ensures 0 <= r < 0x10_0000_0000_0000
  {
    (if v < 0 then -v else v) * Scale(Exponent(v)) - 0x10_0000_0000_0000
  }

  function HighWord(v: int): Word
    requires Wide(v)
  {
    (if v < 0 then 0x8000_0000 else 0) + (1023 + Exponent(v)) * 0x10_0000 + Fraction(v) / 0x1_0000_0000
  }

  function LowWord(v: int): Word
    requires Wide(v)
  {
    Fraction(v) % 0x1_0000_0000
  }

  function LittleEndian(w: Word): (r: seq<byte>)
    ensures |r| == 4
  {
    [U8(w), U8(w / 0x100), U8(w / 0x1_0000), U8(w / 0x100_0000)]
  }

  /** The bytes in memory of the double an integer outside the 29-bit range is converted to; the conversion is exact. */
  function DoubleMemory(v: int): Octets
    requires Wide(v)
  {
    LittleEndian(LowWord(v)) + LittleEndian(HighWord(v))
  }

  /**
    `AmfInteger::serialize`, marker included. Out of the 29-bit range it writes a double, whose
    bytes `network_bytes` takes from the value before it was swapped.
   */
  function IntegerBytes(v: int): (r: seq<byte>)
    requires -0x8000_0000 <= v < 0x8000_0000
    ensures |r| >= 2
  {
    if U29.MIN <= v <= U29.MAX then [INTEGER] + U29.Write(v) else [DOUBLE] + DoubleMemory(v)
  }

  /** The bytes of `AmfInteger::asLength` after the marker. */
  function LengthHeader(n: nat): (r: seq<byte>)
    requires n < U29.LENGTH_LIMIT
    ensures 1 <= |r|
  {
    U29.Write(2 * n + 1)
  }

  /** `AmfString::serializeValue`. */
  function EncodeString(s: Text, c: Context, m: Policy): (r: Out)
    ensures r.Wrote? ==> Extends(c, r.ctx) && (m.Verbatim? || Small(r.ctx) ==> r.exact)
  {
    var i := StringIndex(c, s, m);
    if s == [] then Put1([1], c)
    else if i < |c.strings| then Wrote([U8(2 * i)], c, i < 64)
    else if |s| >= U29.LENGTH_LIMIT then Throws
    else Put1(LengthHeader(|s|) + s, AddString(c, s))
  }

  function EncodeNames(names: seq<Text>, c: Context, m: Policy): (r: Out)
    ensures r.Wrote? ==> Extends(c, r.ctx) && (m.Verbatim? || Small(r.ctx) ==> r.exact)
  {
    if names == [] then Put1([], c) else
      var first := EncodeString(names[0], c, m);
      if first.Throws? then Throws else Join(first, EncodeNames(names[1..], first.ctx, m))
  }

  /** Four bytes per element, most significant first. */
  function WordBytes(ws: seq<Word>): (r: seq<byte>)
    ensures |r| == 4 * |ws|
  {
    if ws == [] then [] else
      [U8(ws[0] / 0x100_0000), U8(ws[0] / 0x1_0000), U8(ws[0] / 0x100), U8(ws[0])] + WordBytes(ws[1..])
  }

  function Flag(b: bool): seq<byte> {
    [if b then 1 else 0]
  }

  // ----- Objects -----

  function TraitsHeader(t: Traits): (r: seq<byte>)
    ensures 1 <= |r|
  {
    IntegerBytes(Int32(|Unique(t.attributes)| * 16 + 3 + (if t.dynamic then 8 else 0)))[1..]
  }

  /**
    Class name and traits. The name is serialized first and its bytes are dropped when the
    traits turn out to be known. Externalizable objects end in caller code; with none
    installed that throws.
   */
  function EncodeTraits(t: Traits, c: Context, m: Policy): (r: Out)
    ensures r.Wrote? ==> Extends(c, r.ctx) && (m.Verbatim? || Small(r.ctx) ==> r.exact)
  {
    var name := EncodeString(t.className, c, m);
    if name.Throws? || t.externalizable then Throws else
      var i := TraitsIndex(name.ctx, t, m);
      if i < |name.ctx.traits| then Wrote([U8(4 * i + 1)], name.ctx, i < 32)
      else
        var attributes := EncodeNames(Unique(t.attributes), AddTraits(name.ctx, t), m);
        Join(Wrote(TraitsHeader(t) + name.bytes, name.ctx, name.exact), attributes)
  }

  // ----- Items -----

  /**
    `serialize` of any item. An externalizable object ends in caller code; with none installed
    that throws, if the lookup did not. A `Loop` stands for what is still being decoded.
   */
  function Encode(x: Item, c: Context, m: Policy): (r: Out)
    ensures r.Wrote? ==> Extends(c, r.ctx) && (m.Verbatim? || Small(r.ctx) ==> r.exact)
    decreases x, 2
  {
    match x
    case Undefined => Put1([UNDEFINED], c)
    case Null => Put1([NULL], c)
    case Bool(on) => Put1([if on then TRUE else FALSE], c)
    case Integer(v) => Put1(IntegerBytes(Int32(v)), c)
    case Double(memory, _) => Put1([DOUBLE] + memory, c)
    case Str(t) => Join(Put1([STRING], c), EncodeString(t, c, m))
    case Loop(_) => Throws
    case _ =>
      var i := ObjectIndex(c, x, m);
      if External(x) || LookupRaises(c, x, m) then Throws
      else if i < |c.objects| then Wrote([Marker(x), U8(2 * i)], c, i < 64)
      else Join(Put1([Marker(x)], c), EncodeBody(x, AddObject(c, x), m))
  }

  /** What follows the marker of an item that is not in the object table yet. */
  function EncodeBody(x: Item, c: Context, m: Policy): (r: Out)
    requires Tabled(x)
    ensures r.Wrote? ==> Extends(c, r.ctx) && (m.Verbatim? || Small(r.ctx) ==> r.exact)
    decreases x, 1
  {
    match x
    case Data(_, bytes) =>
      if |bytes| >= U29.LENGTH_LIMIT then Throws else Put1(LengthHeader(|bytes|) + bytes, c)
    case Numbers(_, numbers, fixed) =>
      if |numbers| >= U29.LENGTH_LIMIT then Throws
      else Put1(LengthHeader(|numbers|) + Flag(fixed) + WordBytes(numbers), c)
    case Array(_, _) => EncodeArray(x, c, m)
    case Object(_, _, _, _) => EncodeObject(x, c, m)
    case Vector(_, _, _) => EncodeVector(x, c, m)
  }

  /** `AmfArray::serialize`: dense length, named entries, the empty name, dense items. */
  function EncodeArray(x: Item, c: Context, m: Policy): (r: Out)
    requires x.Array?
    ensures r.Wrote? ==> Extends(c, r.ctx) && (m.Verbatim? || Small(r.ctx) ==> r.exact)
    decreases x, 0
  {
    if |x.dense| >= U29.LENGTH_LIMIT then Throws else
      var named := EncodeProps(x.assoc.names, x.assoc.values, c, m);
      if named.Throws? then Throws else
        Join(Join(Put1(LengthHeader(|x.dense|), c), named),
             Join(Put1([1], named.ctx), EncodeSeq(x.dense, named.ctx, m)))
  }

  /** `AmfObject::serialize`: traits, sealed values by sorted attribute, dynamic members if there are any to have. */
  function EncodeObject(x: Item, c: Context, m: Policy): (r: Out)
    requires x.Object?
    ensures r.Wrote? ==> Extends(c, r.ctx) && (m.Verbatim? || Small(r.ctx) ==> r.exact)
    decreases x, 0
  {
    var head := EncodeTraits(x.traits, c, m);
    if head.Throws? then Throws else
      var sealed := EncodePick(Unique(x.traits.attributes), x.sealed, head.ctx, m);
      if sealed.Throws? then Throws
      else if !x.traits.dynamic then Join(head, sealed)
      else
        var dyn := EncodeProps(x.dyn.names, x.dyn.values, sealed.ctx, m);
        if dyn.Throws? then Throws else Join(Join(head, sealed), Join(dyn, Put1([1], dyn.ctx)))
  }

  /** `AmfVector<AmfItem>::serialize`: length, fixed flag, type name, items. */
  function EncodeVector(x: Item, c: Context, m: Policy): (r: Out)
    requires x.Vector?
    ensures r.Wrote? ==> Extends(c, r.ctx) && (m.Verbatim? || Small(r.ctx) ==> r.exact)
    decreases x, 0
  {
    if |x.values| >= U29.LENGTH_LIMIT then Throws else
      var name := EncodeString(x.typeName, c, m);
      if name.Throws? then Throws else
        Join(Join(Put1(LengthHeader(|x.values|) + Flag(x.fixed), c), name), EncodeSeq(x.values, name.ctx, m))
  }

  function EncodeSeq(xs: seq<Item>, c: Context, m: Policy): (r: Out)
    ensures r.Wrote? ==> Extends(c, r.ctx) && (m.Verbatim? || Small(r.ctx) ==> r.exact)
    decreases xs
  {
    if xs == [] then Put1([], c) else
      var first := Encode(xs[0], c, m);
      if first.Throws? then Throws else Join(first, EncodeSeq(xs[1..], first.ctx, m))
  }

  /** Name and value of every entry of a map. */
  function EncodeProps(names: seq<Text>, values: seq<Item>, c: Context, m: Policy): (r: Out)
    requires |names| == |values|
    ensures r.Wrote? ==> Extends(c, r.ctx) && (m.Verbatim? || Small(r.ctx) ==> r.exact)
    decreases values
  {
    if names == [] then Put1([], c) else
      var name := EncodeString(names[0], c, m);
      if name.Throws? then Throws else
        var value := Encode(values[0], name.ctx, m);
        if value.Throws? then Throws else
          Join(Join(name, value), EncodeProps(names[1..], values[1..], value.ctx, m))
  }

  /** The values `p` holds under `names`; `std::map::at` throws on a missing one. */
  function EncodePick(names: seq<Text>, p: Props<Item>, c: Context, m: Policy): (r: Out)
    ensures r.Wrote? ==> Extends(c, r.ctx) && (m.Verbatim? || Small(r.ctx) ==> r.exact)
    decreases p, |names|
  {
    if names == [] then Put1([], c)
    else if !Holds(p.names, names[0]) then Throws
    else
      var first := Encode(p.values[Rank(p.names, names[0])], c, m);
      if first.Throws? then Throws else Join(first, EncodePick(names[1..], p, first.ctx, m))
  }

  /** A fresh `Serializer` fed the items one by one with `<<`. */
  function EncodeStream(xs: seq<Item>): Out {
    EncodeSeq(xs, EMPTY, Compress)
  }
}
