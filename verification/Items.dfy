/**
  AMF items as values: the tree an `AmfItem` holds, the deep equality the encoder
  deduplicates with, the canonical form a trip over the wire produces.
 */
module Items {
  import opened Words
  import opened Names
  import U29

  const UNDEFINED: byte := 0
  const NULL: byte := 1
  const FALSE: byte := 2
  const TRUE: byte := 3
  const INTEGER: byte := 4
  const DOUBLE: byte := 5
  const STRING: byte := 6
  const XMLDOC: byte := 7
  const ARRAY: byte := 9
  const OBJECT: byte := 10
  const XML: byte := 11
  const BYTEARRAY: byte := 12
  const VECTOR_INT: byte := 13
  const VECTOR_UINT: byte := 14
  const VECTOR_OBJECT: byte := 16

  /** `AmfObjectTraits`, with the attribute names in the order they were added. */
  datatype Traits = Traits(className: Text, dynamic: bool, externalizable: bool, attributes: seq<Text>)

  datatype DataKind = XmlDocument | Xml | ByteArray
  datatype NumberKind = Ints | Uints

  /** The eight bytes a `double` occupies in memory on a little-endian build. */
  type Octets = s: seq<byte> | |s| == 8 witness [0, 0, 0, 0, 0, 0, 0, 0]

  /** The 32 bits of an `int` or `unsigned int` vector element. */
  type Word = w: int | 0 <= w < 0x1_0000_0000

  /**
    `Data` stands for AmfXmlDocument, AmfXml and AmfByteArray, `Numbers` for AmfVector<int>
    and AmfVector<unsigned int>, `Vector` for AmfVector<AmfItem>. `node` tells one AmfDouble
    or AmfObject from another: those that agree in all fields are a single object, reached
    through pointers that share it. It matters only to comparing a NaN or an externalizable
    object with itself, and is 0 on decoded objects. `Loop(i)` only comes from decoding: a
    pointer to object table entry `i` while that container was still being read.
   */
  datatype Item =
    | Undefined
    | Null
    | Bool(on: bool)
    | Integer(value: int)
    | Double(memory: Octets, node: nat)
    | Str(text: Text)
    | Data(kind: DataKind, bytes: Text)
    | Numbers(width: NumberKind, numbers: seq<Word>, fixed: bool)
    | Array(assoc: Props<Item>, dense: seq<Item>)
    | Object(traits: Traits, sealed: Props<Item>, dyn: Props<Item>, node: nat)
    | Vector(typeName: Text, fixed: bool, values: seq<Item>)
    | Loop(index: nat)

  function DataMarker(k: DataKind): byte {
    match k case XmlDocument => XMLDOC case Xml => XML case ByteArray => BYTEARRAY
  }

  function NumberMarker(k: NumberKind): byte {
    match k case Ints => VECTOR_INT case Uints => VECTOR_UINT
  }

  /** The type marker: also what tells one C++ item class from another. */
  function Marker(x: Item): byte {
    match x
    case Undefined => UNDEFINED
    case Null => NULL
    case Bool(on) => if on then TRUE else FALSE
    case Integer(_) => INTEGER
    case Double(_, _) => DOUBLE
    case Str(_) => STRING
    case Data(k, _) => DataMarker(k)
    case Numbers(k, _, _) => NumberMarker(k)
    case Array(_, _) => ARRAY
    case Object(_, _, _, _) => OBJECT
    case Vector(_, _, _) => VECTOR_OBJECT
    case Loop(_) => 255
  }

  /** The items that go through the object table. */
  predicate Tabled(x: Item) {
    x.Data? || x.Numbers? || x.Array? || x.Object? || x.Vector?
  }

  // ----- Equality -----

  predicate IsNaN(m: Octets) {
    m[7] % 128 == 127 && m[6] >= 240 && !(m[6] == 240 && m[..6] == [0, 0, 0, 0, 0, 0])
  }

  predicate IsZero(m: Octets) {
    m[7] % 128 == 0 && m[..7] == [0, 0, 0, 0, 0, 0, 0]
  }

  /** IEEE 754 equality of two doubles. */
  predicate SameDouble(m: Octets, n: Octets) {
    !IsNaN(m) && !IsNaN(n) && (m == n || (IsZero(m) && IsZero(n)))
  }

  /**
    `operator==` of two item pointers: they are the same pointer, or what they point to
    compares equal after the dynamic cast. The first case only ever matters for a NaN that
    both sides share, or for an externalizable object, whose comparison with a different one
    is false or throws; for anything else it follows from the second.
   */
  predicate Eq(a: Item, b: Item)
    decreases a
  {
    match (a, b)
    case (Undefined, Undefined) => true
    case (Null, Null) => true
    case (Bool(x), Bool(y)) => x == y
    case (Integer(x), Integer(y)) => x == y
    case (Double(x, i), Double(y, j)) => (x == y && i == j) || SameDouble(x, y)
    case (Str(x), Str(y)) => x == y
    case (Data(k, x), Data(l, y)) => k == l && x == y
    case (Numbers(k, x, f), Numbers(l, y, g)) => k == l && f == g && x == y
    case (Array(p, d), Array(q, e)) => EqSeq(d, e) && EqProps(p, q)
    case (Object(t, s, d, _), Object(u, r, e, _)) =>
      a == b ||
      (!t.externalizable && t == u && (t.dynamic ==> EqProps(d, e)) && EqProps(s, r))
    case (Vector(t, f, x), Vector(u, g, y)) => f == g && t == u && EqSeq(x, y)
    case (Loop(i), Loop(j)) => i == j
    case _ => false
  }

  /** `std::vector::operator==` over item pointers. */
  predicate EqSeq(xs: seq<Item>, ys: seq<Item>)
    decreases xs
  {
    |xs| == |ys| && forall i :: 0 <= i < |xs| ==> Eq(xs[i], ys[i])
  }

  /** `std::map::operator==`. */
  predicate EqProps(p: Props<Item>, q: Props<Item>)
    decreases p
  {
    p.names == q.names && EqSeq(p.values, q.values)
  }

  // ----- Exceptions from equality -----

  predicate External(x: Item) {
    x.Object? && x.traits.externalizable
  }

  /**
    `operator==` of two item pointers throws. With no externalizer installed the call on
    two externalizable objects that are equal up to there does, whatever they are inside
    of, unless the comparison ends before it gets that far.
   */
  predicate Raises(a: Item, b: Item)
    decreases a
  {
    match (a, b)
    case (Array(p, d), Array(q, e)) => RaisesSeq(d, e) || (EqSeq(d, e) && RaisesProps(p, q))
    case (Object(t, s, d, _), Object(u, r, e, _)) =>
      a != b && t == u
      && ((t.dynamic && RaisesProps(d, e))
          || ((t.dynamic ==> EqProps(d, e)) && (RaisesProps(s, r) || (EqProps(s, r) && t.externalizable))))
    case (Vector(t, f, x), Vector(u, g, y)) => f == g && t == u && RaisesSeq(x, y)
    case _ => false
  }

  /** The first two that are not equal throw. */
  predicate RaisesSeq(xs: seq<Item>, ys: seq<Item>)
    decreases xs
  {
    |xs| == |ys| && xs != [] && (Raises(xs[0], ys[0]) || (Eq(xs[0], ys[0]) && RaisesSeq(xs[1..], ys[1..])))
  }

  predicate RaisesProps(p: Props<Item>, q: Props<Item>)
    decreases p
  {
    |p.names| == |q.names| && RaisesEntries(p.names, p.values, q.names, q.values)
  }

  /** Entries are compared one after the other, name first. */
  predicate RaisesEntries(m: seq<Text>, xs: seq<Item>, n: seq<Text>, ys: seq<Item>)
    requires |m| == |xs| == |n| == |ys|
    decreases xs
  {
    m != [] && m[0] == n[0]
    && (Raises(xs[0], ys[0]) || (Eq(xs[0], ys[0]) && RaisesEntries(m[1..], xs[1..], n[1..], ys[1..])))
  }

  // ----- Depth -----

  function Max(a: nat, b: nat): nat {
    if a < b then b else a
  }

  /** Nesting depth of what equality compares. */
  function Depth(x: Item): nat
    decreases x
  {
    match x
    case Array(p, d) => 1 + Max(DepthSeq(p.values), DepthSeq(d))
    case Object(t, s, d, _) => 1 + Max(DepthSeq(s.values), if t.dynamic then DepthSeq(d.values) else 0)
    case Vector(_, _, v) => 1 + DepthSeq(v)
    case _ => 0
  }

  function DepthSeq(xs: seq<Item>): (r: nat)
    ensures forall i :: 0 <= i < |xs| ==> Depth(xs[i]) <= r
    decreases xs
  {
    if xs == [] then 0 else Max(Depth(xs[0]), DepthSeq(xs[1..]))
  }

  // ----- Canonical form -----

  function CanonTraits(t: Traits): Traits {
    t.(attributes := Unique(t.attributes))
  }

  predicate Holds(names: seq<Text>, k: Text) {
    var i := Rank(names, k);
    i < |names| && names[i] == k
  }

  const NO_PROPS: Props<Item> := Props([], [])

  /**
    What is left of an item after a trip over the wire: attributes as a sorted set, the
    sealed properties they name, and no dynamic properties on a non-dynamic object.
   */
  function Canon(x: Item): Item
    decreases x
  {
    match x
    case Array(p, d) => Array(CanonProps(p), CanonSeq(d))
    case Object(t, s, d, _) =>
      Object(CanonTraits(t), Props(Unique(t.attributes), CanonPick(Unique(t.attributes), s)),
             if t.dynamic then CanonProps(d) else NO_PROPS, 0)
    case Vector(t, f, v) => Vector(t, f, CanonSeq(v))
    case _ => x
  }

  function CanonSeq(xs: seq<Item>): (r: seq<Item>)
    ensures |r| == |xs|
    decreases xs
  {
    seq(|xs|, i requires 0 <= i < |xs| => Canon(xs[i]))
  }

  function CanonProps(p: Props<Item>): (r: Props<Item>)
    decreases p
  {
    Props(p.names, CanonSeq(p.values))
  }

  /** The canonical values `p` holds under `names`; a missing one cannot be serialized at all. */
  function CanonPick(names: seq<Text>, p: Props<Item>): (r: seq<Item>)
    ensures |r| == |names|
    decreases p
  {
    seq(|names|, i requires 0 <= i < |names| =>
      if Holds(p.names, names[i]) then Canon(p.values[Rank(p.names, names[i])]) else Undefined)
  }

  // ----- Items that survive a trip over the wire -----

  predicate Fits(t: Text) {
    |t| < U29.LENGTH_LIMIT
  }

  predicate TraitsFit(t: Traits) {
    && !t.externalizable
    && Fits(t.className)
    && |Unique(t.attributes)| < 0x100_0000
    && forall i :: 0 <= i < |t.attributes| ==> Fits(t.attributes[i])
  }

  /** An empty name would end the list, see section 3.11 and 3.12 of the AMF 3 specification. */
  predicate NamesFit(names: seq<Text>) {
    forall i :: 0 <= i < |names| ==> names[i] != [] && Fits(names[i])
  }

  predicate WellFormed(x: Item)
    decreases x
  {
    match x
    case Integer(v) => U29.MIN <= v <= U29.MAX
    case Double(_, _) => false
    case Loop(_) => false
    case Str(t) => Fits(t)
    case Data(_, b) => Fits(b)
    case Numbers(_, n, _) => |n| < U29.LENGTH_LIMIT
    case Array(p, d) => |d| < U29.LENGTH_LIMIT && NamesFit(p.names) && WellFormedSeq(p.values) && WellFormedSeq(d)
    case Object(t, s, d, _) =>
      && TraitsFit(t)
      && (forall i :: 0 <= i < |t.attributes| ==> Holds(s.names, t.attributes[i]))
      && (forall i :: 0 <= i < |s.names| && s.names[i] in t.attributes ==> WellFormed(s.values[i]))
      && (t.dynamic ==> NamesFit(d.names) && WellFormedSeq(d.values))
    case Vector(t, _, v) => Fits(t) && |v| < U29.LENGTH_LIMIT && WellFormedSeq(v)
    case _ => true
  }

  predicate WellFormedSeq(xs: seq<Item>)
    decreases xs
  {
    forall i :: 0 <= i < |xs| ==> WellFormed(xs[i])
  }
}
