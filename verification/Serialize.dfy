/** The `serialize` methods: buffers that grow in loops over a context that is updated in place. */
module Serialize {
  import opened Words
  import opened Names
  import opened Items
  import opened Encoder
  import opened SerializationContexts
  import Doubles
  import U29

  type Ctx = SerializationContext<Item>

  /** The bytes of a buffer, or an exception. */
  type Result = Option<seq<byte>>

  /** The method did what `spec` says: it threw, or it returned those bytes and left those tables. */
  predicate Did(r: Result, spec: Out, after: Context) {
    r.None? == spec.Throws? && (r.Some? ==> r.value == spec.bytes && after == spec.ctx)
  }

  /** A loop has written `buf` and reached `now`; `rest` is still to come. */
  predicate Underway(spec: Out, buf: seq<byte>, now: Context, rest: Out) {
    exists exact: bool :: spec == Join(Wrote(buf, now, exact), rest)
  }

  lemma StartUnderway(spec: Out, now: Context)
    ensures Underway(spec, [], now, spec)
  {
    assert spec == Join(Wrote([], now, true), spec) by { assert spec.Wrote? ==> [] + spec.bytes == spec.bytes; }
  }

  lemma StepUnderway(spec: Out, buf: seq<byte>, now: Context, first: Out, rest: Out)
    requires first.Wrote? && Underway(spec, buf, now, Join(first, rest))
    ensures Underway(spec, buf + first.bytes, first.ctx, rest)
  {
    var exact :| spec == Join(Wrote(buf, now, exact), Join(first, rest));
    assert spec == Join(Wrote(buf + first.bytes, first.ctx, exact && first.exact), rest) by {
      if rest.Wrote? { assert buf + (first.bytes + rest.bytes) == buf + first.bytes + rest.bytes; }
    }
  }

  lemma IntegerSpelt(value: int)
    requires -0x8000_0000 <= value < 0x8000_0000
    ensures var buf := IntegerBytes(value);
      if -0x1000_0000 <= value < 0x1000_0000 then buf[0] == 4 && U29.Spells(buf[1..], value)
      else buf[0] == 5 && Doubles.IsDoubleOf(buf[1..], value)
  {
    Doubles.IntegerWritten(value, EMPTY, Compress);
  }

  method SerializeInteger(value: int) returns (buf: seq<byte>)
    requires -0x8000_0000 <= value < 0x8000_0000
    ensures buf == IntegerBytes(value)
    ensures if -0x1000_0000 <= value < 0x1000_0000 then buf[0] == 4 && U29.Spells(buf[1..], value)
            else buf[0] == 5 && Doubles.IsDoubleOf(buf[1..], value)
  {
    hide U29.Spells, Doubles.IsDoubleOf;
    IntegerSpelt(value);
    if value < -0x1000_0000 || value >= 0x1000_0000 {
      return [DOUBLE] + DoubleMemory(value);
    }
    if 0 <= value <= 0x7F {
      return [INTEGER, value];
    } else if 0x7F < value <= 0x3FFF {
      return [INTEGER, U29.More(value / 0x80), value % 0x80];
    } else if 0x3FFF < value <= 0x1F_FFFF {
      return [INTEGER, U29.More(value / 0x4000), U29.More(value / 0x80 % 0x80), value % 0x80];
    } else {
      return [INTEGER, U29.More(value / 0x40_0000), U29.More(value / 0x8000 % 0x80),
              U29.More(value / 0x100 % 0x80), value % 0x100];
    }
  }

  /** `AmfInteger::asLength`: serialize `value << 1 | 1`, then patch the marker in. */
  method AsLength(value: nat, marker: byte) returns (r: Result)
    ensures r.None? <==> value >= 0x800_0000
    ensures r.Some? ==> r.value == [marker] + LengthHeader(value)
    ensures r.Some? ==> U29.Spells(r.value[1..], 2 * value + 1)
  {
    if value >= 0x800_0000 {
      return None;
    }
    hide U29.Write;
    hide U29.Spells;
    U29.WriteShortest(value * 2 + 1, []);
    var buf := SerializeInteger(value * 2 + 1);
    buf := buf[0 := marker];
    return Some(buf);
  }

  method SerializeString(value: Text, ctx: Ctx) returns (r: Result)
    modifies ctx
    ensures Did(r, EncodeString(value, old(ctx.Value()), Compress), ctx.Value())
  {
    hide U29.Write;
    if value == [] {
      return Some([1]);
    }
    var index := ctx.IndexOfString(value);
    if index != -1 {
      return Some([U8(2 * index)]);
    }
    ctx.AddString(value);
    var length := AsLength(|value|, STRING);
    if length.None? {
      return None;
    }
    return Some(length.value[1..] + value);
  }

  method SerializeNames(names: seq<Text>, ctx: Ctx) returns (r: Result)
    modifies ctx
    ensures Did(r, EncodeNames(names, old(ctx.Value()), Compress), ctx.Value())
  {
    hide EncodeString;
    var buf := [];
    ghost var spec := EncodeNames(names, ctx.Value(), Compress);
    StartUnderway(spec, ctx.Value());
    for i := 0 to |names|
      invariant Underway(spec, buf, ctx.Value(), EncodeNames(names[i..], ctx.Value(), Compress))
    {
      ghost var now := ctx.Value();
      ghost var first := EncodeString(names[i], now, Compress);
      var attr := SerializeString(names[i], ctx);
      if attr.None? {
        return None;
      }
      StepUnderway(spec, buf, now, first, EncodeNames(names[i..][1..], first.ctx, Compress));
      assert names[i..][1..] == names[i + 1..];
      buf := buf + attr.value;
    }
    return Some(buf);
  }

  lemma {:induction false} WordBytesAppend(ws: seq<Word>, w: Word)
    ensures WordBytes(ws + [w]) == WordBytes(ws) + WordBytes([w])
  {
    if ws != [] {
      assert (ws + [w])[1..] == ws[1..] + [w];
      WordBytesAppend(ws[1..], w);
    } else {
      assert ws + [w] == [w];
    }
  }

  /** The loop over the elements of an integer vector: four bytes each, in network order. */
  method SerializeWords(values: seq<Word>) returns (buf: seq<byte>)
    ensures buf == WordBytes(values)
  {
    buf := [];
    for i := 0 to |values|
      invariant buf == WordBytes(values[..i])
    {
      assert values[..i + 1] == values[..i] + [values[i]];
      WordBytesAppend(values[..i], values[i]);
      buf := buf + [U8(values[i] / 0x100_0000), U8(values[i] / 0x1_0000), U8(values[i] / 0x100), U8(values[i])];
    }
    assert values[..|values|] == values;
  }

  /** Class name and traits, up to and including the attribute names. */
  method SerializeTraits(t: Traits, ctx: Ctx) returns (r: Result)
    modifies ctx
    ensures Did(r, EncodeTraits(t, old(ctx.Value()), Compress), ctx.Value())
  {
    hide EncodeString, EncodeNames, U29.Write, Unique, Small, Extends, FirstIndex;
    var name := SerializeString(t.className, ctx);
    if name.None? {
      return None;
    }
    var traitIndex := ctx.IndexOfTraits(t);
    if t.externalizable {
      return None;
    }
    if traitIndex != -1 {
      return Some([U8(4 * traitIndex + 1)]);
    }
    ctx.AddTraits(t);
    var attributes := Unique(t.attributes);
    var traitMarker := |attributes| * 16 + 3;
    if t.dynamic {
      traitMarker := traitMarker + 8;
    }
    var marker := SerializeInteger(Int32(traitMarker));
    var names := SerializeNames(attributes, ctx);
    if names.None? {
      return None;
    }
    return Some(marker[1..] + name.value + names.value);
  }

  // ----- Items -----

  /** `serialize` of any item. */
  method SerializeItem(x: Item, ctx: Ctx) returns (r: Result)
    modifies ctx
    ensures Did(r, Encode(x, old(ctx.Value()), Compress), ctx.Value())
    decreases x, 2
  {
    hide EncodeBody, EncodeString, IntegerBytes;
    match x
    case Undefined => return Some([UNDEFINED]);
    case Null => return Some([NULL]);
    case Bool(on) => return Some([if on then TRUE else FALSE]);
    case Integer(v) =>
      var buf := SerializeInteger(Int32(v));
      return Some(buf);
    case Double(memory, _) => return Some([DOUBLE] + memory);
    case Str(t) =>
      var value := SerializeString(t, ctx);
      if value.None? {
        return None;
      }
      return Some([STRING] + value.value);
    case Loop(_) => return None;
    case _ =>
      r := SerializeTabled(x, ctx);
  }

  /** The common start of every item in the object table: a reference if it is known, registration if not. */
  method SerializeTabled(x: Item, ctx: Ctx) returns (r: Result)
    requires Tabled(x)
    modifies ctx
    ensures Did(r, Encode(x, old(ctx.Value()), Compress), ctx.Value())
    decreases x, 1
  {
    hide EncodeArray, EncodeObject, EncodeVector, LengthHeader, WordBytes, FirstEqual;
    var index := IndexOfObject(ctx, x);
    if index.None? {
      return None;
    }
    if index.value != -1 {
      return Some([Marker(x), U8(2 * index.value)]);
    }
    ctx.AddObject(x);
    if External(x) { ExternalThrows(x, ctx.Value()); }
    match x
    case Array(_, _) => r := SerializeArray(x, ctx);
    case Object(_, _, _, _) => r := SerializeObject(x, ctx);
    case Vector(_, _, _) => r := SerializeVector(x, ctx);
    case Data(kind, bytes) =>
      r := AsLength(|bytes|, DataMarker(kind));
      if r.Some? {
        assert [Marker(x)] + (LengthHeader(|bytes|) + bytes) == r.value + bytes;
        r := Some(r.value + bytes);
      }
    case Numbers(width, numbers, fixed) =>
      r := AsLength(|numbers|, NumberMarker(width));
      if r.Some? {
        var elements := SerializeWords(numbers);
        assert [Marker(x)] + (LengthHeader(|numbers|) + Flag(fixed) + elements) == r.value + Flag(fixed) + elements;
        r := Some(r.value + Flag(fixed) + elements);
      }
  }

  /** An externalizable object ends in the missing externalizer. */
  lemma ExternalThrows(x: Item, c: Context)
    requires External(x)
    ensures EncodeBody(x, c, Compress).Throws?
  {
  }

  /** What an array, object or vector returns: its marker and everything `EncodeBody` says. */
  predicate DidBody(r: Result, marker: byte, spec: Out, after: Context) {
    Did(r, Join(Put1([marker], after), spec), after)
  }

  method SerializeArray(x: Item, ctx: Ctx) returns (r: Result)
    requires x.Array?
    modifies ctx
    ensures DidBody(r, ARRAY, EncodeArray(x, old(ctx.Value()), Compress), ctx.Value())
    decreases x, 0
  {
    hide EncodeProps, EncodeSeq, LengthHeader;
    var buf := AsLength(|x.dense|, ARRAY);
    if buf.None? {
      return None;
    }
    var named := SerializeProps(x.assoc, ctx);
    if named.None? {
      return None;
    }
    var dense := SerializeSeq(x.dense, ctx);
    if dense.None? {
      return None;
    }
    var head := LengthHeader(|x.dense|);
    assert [ARRAY] + (head + named.value + ([1] + dense.value)) == buf.value + named.value + [1] + dense.value;
    return Some(buf.value + named.value + [1] + dense.value);
  }

  method SerializeObject(x: Item, ctx: Ctx) returns (r: Result)
    requires x.Object?
    modifies ctx
    ensures DidBody(r, OBJECT, EncodeObject(x, old(ctx.Value()), Compress), ctx.Value())
    decreases x, 0
  {
    hide EncodeTraits, EncodeProps, EncodePick, Unique;
    var head := SerializeTraits(x.traits, ctx);
    if head.None? {
      return None;
    }
    var buf := [OBJECT] + head.value;
    var sealed := SerializeSealed(Unique(x.traits.attributes), x.sealed, ctx);
    if sealed.None? {
      return None;
    }
    assert [OBJECT] + (head.value + sealed.value) == buf + sealed.value;
    buf := buf + sealed.value;
    if x.traits.dynamic {
      var dyn := SerializeProps(x.dyn, ctx);
      if dyn.None? {
        return None;
      }
      assert [OBJECT] + (head.value + sealed.value + (dyn.value + [1])) == buf + dyn.value + [1];
      buf := buf + dyn.value + [1];
    }
    return Some(buf);
  }

  method SerializeVector(x: Item, ctx: Ctx) returns (r: Result)
    requires x.Vector?
    modifies ctx
    ensures DidBody(r, VECTOR_OBJECT, EncodeVector(x, old(ctx.Value()), Compress), ctx.Value())
    decreases x, 0
  {
    hide EncodeString, EncodeSeq, LengthHeader;
    var buf := AsLength(|x.values|, VECTOR_OBJECT);
    if buf.None? {
      return None;
    }
    var typeName := SerializeString(x.typeName, ctx);
    if typeName.None? {
      return None;
    }
    var values := SerializeSeq(x.values, ctx);
    if values.None? {
      return None;
    }
    var head := LengthHeader(|x.values|);
    assert [VECTOR_OBJECT] + (head + Flag(x.fixed) + typeName.value + values.value)
      == buf.value + Flag(x.fixed) + typeName.value + values.value;
    return Some(buf.value + Flag(x.fixed) + typeName.value + values.value);
  }

  /** The loop over dense items or vector elements. */
  method SerializeSeq(values: seq<Item>, ctx: Ctx) returns (r: Result)
    modifies ctx
    ensures Did(r, EncodeSeq(values, old(ctx.Value()), Compress), ctx.Value())
    decreases values
  {
    hide Encode;
    var buf := [];
    ghost var spec := EncodeSeq(values, ctx.Value(), Compress);
    StartUnderway(spec, ctx.Value());
    for i := 0 to |values|
      invariant Underway(spec, buf, ctx.Value(), EncodeSeq(values[i..], ctx.Value(), Compress))
    {
      ghost var first := Encode(values[i], ctx.Value(), Compress);
      ghost var was := ctx.Value();
      var s := SerializeItem(values[i], ctx);
      if s.None? {
        return None;
      }
      StepUnderway(spec, buf, was, first, EncodeSeq(values[i..][1..], first.ctx, Compress));
      assert values[i..][1..] == values[i + 1..];
      buf := buf + s.value;
    }
    return Some(buf);
  }

  /** The loop over the entries of a map: name, then value. */
  method SerializeProps(props: Props<Item>, ctx: Ctx) returns (r: Result)
    modifies ctx
    ensures Did(r, EncodeProps(props.names, props.values, old(ctx.Value()), Compress), ctx.Value())
    decreases props.values
  {
    hide Encode, EncodeString;
    var buf := [];
    ghost var spec := EncodeProps(props.names, props.values, ctx.Value(), Compress);
    StartUnderway(spec, ctx.Value());
    for i := 0 to |props.values|
      invariant Underway(spec, buf, ctx.Value(),
                         EncodeProps(props.names[i..], props.values[i..], ctx.Value(), Compress))
    {
      ghost var was := ctx.Value();
      ghost var first := EncodeString(props.names[i], was, Compress);
      var name := SerializeString(props.names[i], ctx);
      if name.None? {
        return None;
      }
      ghost var second := Encode(props.values[i], ctx.Value(), Compress);
      var value := SerializeItem(props.values[i], ctx);
      if value.None? {
        return None;
      }
      StepUnderway(spec, buf, was, Join(first, second),
                   EncodeProps(props.names[i..][1..], props.values[i..][1..], second.ctx, Compress));
      assert props.names[i..][1..] == props.names[i + 1..] && props.values[i..][1..] == props.values[i + 1..];
      buf := buf + (name.value + value.value);
    }
    return Some(buf);
  }

  /** The loop over the sorted attributes: `sealedProperties.at(attribute)`. */
  method SerializeSealed(attributes: seq<Text>, sealed: Props<Item>, ctx: Ctx) returns (r: Result)
    modifies ctx
    ensures Did(r, EncodePick(attributes, sealed, old(ctx.Value()), Compress), ctx.Value())
    decreases sealed
  {
    hide Encode;
    var buf := [];
    ghost var spec := EncodePick(attributes, sealed, ctx.Value(), Compress);
    StartUnderway(spec, ctx.Value());
    for i := 0 to |attributes|
      invariant Underway(spec, buf, ctx.Value(), EncodePick(attributes[i..], sealed, ctx.Value(), Compress))
    {
      ghost var was := ctx.Value();
      if !Holds(sealed.names, attributes[i]) {
        return None;
      }
      var value := sealed.values[Rank(sealed.names, attributes[i])];
      ghost var first := Encode(value, was, Compress);
      var s := SerializeItem(value, ctx);
      if s.None? {
        return None;
      }
      StepUnderway(spec, buf, was, first, EncodePick(attributes[i..][1..], sealed, first.ctx, Compress));
      assert attributes[i..][1..] == attributes[i + 1..];
      buf := buf + s.value;
    }
    return Some(buf);
  }
}
