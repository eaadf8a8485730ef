/** What `deserialize` makes of a byte string, and how it leaves the reference tables. */
module Decoder {
  import opened Words
  import opened Names
  import opened Items
  import opened Encoder
  import U29

  /** An object table entry: a container still being read, or a finished item. */
  datatype Slot = Open(marker: byte) | Done(item: Item)

  type Table = Tables<Slot>

  const FRESH: Table := Tables([], [], [])

  /** `Bad` stands for every exception the decoder throws. */
  datatype Decoded<+T> = Bad | Ok(value: T, next: nat, ctx: Table)

  /** `getPointer<T>(i)`: bounds-checked by `at`, then checked for the class asked for. */
  function Resolve(c: Table, i: int, marker: byte): (r: Option<Item>) {
    if !(0 <= i < |c.objects|) then None
    else match c.objects[i]
      case Open(m) => if m == marker then Some(Loop(i)) else None
      case Done(x) => if Marker(x) == marker then Some(x) else None
  }

  /** Nothing is dropped or reordered, and every container registered on the way is finished. */
  predicate Settles(c: Table, d: Table) {
    Extends(c, d) && forall i :: |c.objects| <= i < |d.objects| ==> d.objects[i].Done?
  }

  function Close(c: Table, i: nat, x: Item): Table
    requires i < |c.objects|
  {
    c.(objects := c.objects[i := Done(x)])
  }

  // ----- Strings -----

  /** `AmfString::deserializeValue`. */
  function DecodeString(s: seq<byte>, p: nat, c: Table): (r: Decoded<Text>)
    ensures r.Ok? ==> p < r.next <= |s| && Settles(c, r.ctx)
  {
    var h := U29.Read(s, p);
    if h.Short? then Bad
    else if h.value % 2 == 0 then
      if 0 <= h.value / 2 < |c.strings| then Ok(c.strings[h.value / 2], h.next, c) else Bad
    else
      var n := h.value / 2;
      if n < 0 || |s| - h.next < n then Bad
      else Ok(s[h.next..h.next + n], h.next + n, AddString(c, s[h.next..h.next + n]))
  }

  /** `n` names, as the loop over `numSealed` reads them. */
  function DecodeNames(n: int, s: seq<byte>, p: nat, c: Table, acc: seq<Text>): (r: Decoded<seq<Text>>)
    requires p <= |s|
    ensures r.Ok? ==> p <= r.next <= |s| && Settles(c, r.ctx)
    decreases |s| - p
  {
    if n <= 0 then Ok(acc, p, c) else
      var name := DecodeString(s, p, c);
      if name.Bad? then Bad else DecodeNames(n - 1, s, name.next, name.ctx, acc + [name.value])
  }

  // ----- Leaves -----

  function Reverse(m: Octets): Octets {
    [m[7], m[6], m[5], m[4], m[3], m[2], m[1], m[0]]
  }

  /**
    The items without an entry in the object table. The markers of dates, double vectors and
    dictionaries are not modelled. A double is the node made at its position in the input.
   */
  function DecodeSimple(s: seq<byte>, p: nat, c: Table): (r: Decoded<Item>)
    requires p < |s|
    ensures r.Ok? ==> p < r.next <= |s| && Settles(c, r.ctx)
  {
    var m := s[p];
    if m == UNDEFINED then Ok(Undefined, p + 1, c)
    else if m == NULL then Ok(Null, p + 1, c)
    else if m == FALSE || m == TRUE then Ok(Bool(m == TRUE), p + 1, c)
    else if m == INTEGER then
      var v := U29.Read(s, p + 1);
      if v.Short? then Bad else Ok(Integer(v.value), v.next, c)
    else if m == DOUBLE then
      if |s| - (p + 1) < 8 then Bad else Ok(Double(Reverse(s[p + 1..p + 9]), p), p + 9, c)
    else if m == STRING then
      var t := DecodeString(s, p + 1, c);
      if t.Bad? then Bad else Ok(Str(t.value), t.next, t.ctx)
    else Bad
  }

  function MarkerData(m: byte): DataKind {
    if m == XMLDOC then XmlDocument else if m == XML then Xml else ByteArray
  }

  /** `AmfByteArray`, `AmfXml` and `AmfXmlDocument` after a non-reference header. */
  function DecodeData(m: byte, n: int, s: seq<byte>, p: nat, c: Table): (r: Decoded<Item>)
    requires p <= |s|
    ensures r.Ok? ==> p <= r.next <= |s| && Settles(c, r.ctx)
  {
    if n < 0 || |s| - p < n then Bad else
      var x := Data(MarkerData(m), s[p..p + n]);
      Ok(x, p + n, AddObject(c, Done(x)))
  }

  function ReadWords(s: seq<byte>, p: nat, n: nat): (r: seq<Word>)
    requires p + 4 * n <= |s|
    ensures |r| == n
    decreases n
  {
    if n == 0 then [] else
      [s[p] as int * 0x100_0000 + s[p + 1] as int * 0x1_0000 + s[p + 2] as int * 0x100 + s[p + 3] as int]
      + ReadWords(s, p + 4, n - 1)
  }

  /** `AmfVector<int>` and `AmfVector<unsigned int>` after a non-reference header. */
  function DecodeNumbers(m: byte, n: int, s: seq<byte>, p: nat, c: Table): (r: Decoded<Item>)
    requires p <= |s|
    ensures r.Ok? ==> p <= r.next <= |s| && Settles(c, r.ctx)
  {
    if p == |s| || n < 0 || |s| - (p + 1) < 4 * n then Bad else
      var x := Numbers(if m == VECTOR_INT then Ints else Uints, ReadWords(s, p + 1, n), s[p] == 1);
      Ok(x, p + 1 + 4 * n, AddObject(c, Done(x)))
  }

  // ----- Traits -----

  /** Traits by reference or in line. No external deserializer is installed, so externalizable traits fail. */
  function DecodeTraits(h: int, s: seq<byte>, p: nat, c: Table): (r: Decoded<Traits>)
    requires p <= |s|
    ensures r.Ok? ==> p <= r.next <= |s| && Settles(c, r.ctx) && c.objects == r.ctx.objects
  {
    if h % 4 == 1 then
      if 0 <= h / 4 < |c.traits| && !c.traits[h / 4].externalizable then Ok(c.traits[h / 4], p, c) else Bad
    else if h % 8 == 7 then Bad
    else
      var name := DecodeString(s, p, c);
      if name.Bad? then Bad else
        var names := DecodeNames(h / 16, s, name.next, name.ctx, []);
        if names.Bad? then Bad else
          NamesKeepObjects(h / 16, s, name.next, name.ctx, []);
          var t := Traits(name.value, h / 8 % 2 == 1, false, names.value);
          Ok(t, names.next, AddTraits(names.ctx, t))
  }

  lemma NamesKeepObjects(n: int, s: seq<byte>, p: nat, c: Table, acc: seq<Text>)
    requires p <= |s|
    ensures var r := DecodeNames(n, s, p, c, acc); r.Ok? ==> r.ctx.objects == c.objects
    decreases |s| - p
  {
  }

  // ----- Items -----

  /** `Deserializer::deserialize`. */
  function Decode(s: seq<byte>, p: nat, c: Table): (r: Decoded<Item>)
    requires p <= |s|
    ensures r.Ok? ==> p < r.next <= |s| && Settles(c, r.ctx)
    decreases |s| - p, 0
  {
    if p == |s| then Bad else
      var m := s[p];
      if m in {XMLDOC, XML, BYTEARRAY, VECTOR_INT, VECTOR_UINT, ARRAY, OBJECT, VECTOR_OBJECT} then
        var h := U29.Read(s, p + 1);
        if h.Short? then Bad
        else if h.value % 2 == 0 then
          var x := Resolve(c, h.value / 2, m);
          if x.None? then Bad else Ok(x.value, h.next, c)
        else DecodeBody(m, h.value, s, h.next, c)
      else DecodeSimple(s, p, c)
  }

  /** The item with marker `m` and non-reference header `h`. */
  function DecodeBody(m: byte, h: int, s: seq<byte>, p: nat, c: Table): (r: Decoded<Item>)
    requires p <= |s|
    ensures r.Ok? ==> p <= r.next <= |s| && Settles(c, r.ctx)
    decreases |s| - p, 3
  {
    if m == ARRAY then DecodeArray(h / 2, s, p, c)
    else if m == OBJECT then DecodeObject(h, s, p, c)
    else if m == VECTOR_OBJECT then DecodeVector(h / 2, s, p, c)
    else if m == VECTOR_INT || m == VECTOR_UINT then DecodeNumbers(m, h / 2, s, p, c)
    else DecodeData(m, h / 2, s, p, c)
  }

  /** `AmfArray::deserializePtr`: registered first, then the associative part, then `n` dense items. */
  function DecodeArray(n: int, s: seq<byte>, p: nat, c: Table): (r: Decoded<Item>)
    requires p <= |s|
    ensures r.Ok? ==> p <= r.next <= |s| && Settles(c, r.ctx)
    decreases |s| - p, 2
  {
    var named := DecodeProps(s, p, AddObject(c, Open(ARRAY)), NO_PROPS);
    if named.Bad? then Bad else
      var dense := DecodeSeq(n, s, named.next, named.ctx, []);
      if dense.Bad? then Bad else
        var x := Array(named.value, dense.value);
        Ok(x, dense.next, Close(dense.ctx, |c.objects|, x))
  }

  /** `AmfObject::deserializePtr`: traits, registration, sealed values, dynamic members. */
  function DecodeObject(h: int, s: seq<byte>, p: nat, c: Table): (r: Decoded<Item>)
    requires p <= |s|
    ensures r.Ok? ==> p <= r.next <= |s| && Settles(c, r.ctx)
    decreases |s| - p, 2
  {
    var t := DecodeTraits(h, s, p, c);
    if t.Bad? then Bad else
      var sealed := DecodeSealed(t.value.attributes, s, t.next, AddObject(t.ctx, Open(OBJECT)), NO_PROPS);
      if sealed.Bad? then Bad
      else if !t.value.dynamic then
        var x := Object(t.value, sealed.value, NO_PROPS, 0);
        Ok(x, sealed.next, Close(sealed.ctx, |c.objects|, x))
      else
        var dyn := DecodeProps(s, sealed.next, sealed.ctx, NO_PROPS);
        if dyn.Bad? then Bad else
          var x := Object(t.value, sealed.value, dyn.value, 0);
          Ok(x, dyn.next, Close(dyn.ctx, |c.objects|, x))
  }

  /** `AmfVector<AmfItem>::deserializePtr`; a negative count makes `reserve` throw. */
  function DecodeVector(n: int, s: seq<byte>, p: nat, c: Table): (r: Decoded<Item>)
    requires p <= |s|
    ensures r.Ok? ==> p <= r.next <= |s| && Settles(c, r.ctx)
    decreases |s| - p, 2
  {
    if p == |s| then Bad else
      var name := DecodeString(s, p + 1, c);
      if name.Bad? || n < 0 then Bad else
        var values := DecodeSeq(n, s, name.next, AddObject(name.ctx, Open(VECTOR_OBJECT)), []);
        if values.Bad? then Bad else
          var x := Vector(name.value, s[p] == 1, values.value);
          Ok(x, values.next, Close(values.ctx, |name.ctx.objects|, x))
  }

  /** `n` items; none if `n` is negative. */
  function DecodeSeq(n: int, s: seq<byte>, p: nat, c: Table, acc: seq<Item>): (r: Decoded<seq<Item>>)
    requires p <= |s|
    ensures r.Ok? ==> p <= r.next <= |s| && Settles(c, r.ctx)
    decreases |s| - p, 1
  {
    if n <= 0 then Ok(acc, p, c) else
      var x := Decode(s, p, c);
      if x.Bad? then Bad else DecodeSeq(n - 1, s, x.next, x.ctx, acc + [x.value])
  }

  /** Named values up to the empty name; a repeated name overwrites. */
  function DecodeProps(s: seq<byte>, p: nat, c: Table, acc: Props<Item>): (r: Decoded<Props<Item>>)
    requires p <= |s|
    ensures r.Ok? ==> p < r.next <= |s| && Settles(c, r.ctx)
    decreases |s| - p, 1
  {
    var name := DecodeString(s, p, c);
    if name.Bad? then Bad
    else if name.value == [] then Ok(acc, name.next, name.ctx)
    else
      var x := Decode(s, name.next, name.ctx);
      if x.Bad? then Bad else DecodeProps(s, x.next, x.ctx, Put(acc, name.value, x.value))
  }

  /** One value for every attribute name, in order; a repeated name overwrites. */
  function DecodeSealed(names: seq<Text>, s: seq<byte>, p: nat, c: Table, acc: Props<Item>): (r: Decoded<Props<Item>>)
    requires p <= |s|
    ensures r.Ok? ==> p <= r.next <= |s| && Settles(c, r.ctx)
    decreases |s| - p, 1
  {
    if names == [] then Ok(acc, p, c) else
      var x := Decode(s, p, c);
      if x.Bad? then Bad else DecodeSealed(names[1..], s, x.next, x.ctx, Put(acc, names[0], x.value))
  }
}
