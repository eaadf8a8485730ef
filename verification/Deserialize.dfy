/**
  The `deserialize` methods: a cursor that moves over the input, tables that are updated in
  place, and containers that are registered first and filled through their pointer.
 */
module Deserialize {
  import opened Words
  import opened Names
  import opened Items
  import opened Decoder
  import opened Heap
  import opened SerializationContexts
  import U29
  import Encoder

  const NO_PTRS: Props<Ptr> := Props([], [])

  /** The map a `while (true)` loop fills: associative part or dynamic properties. */
  function Named(n: Node): Props<Ptr>
    requires n.ArrayNode? || n.ObjectNode?
  {
    if n.ArrayNode? then n.assoc else n.dyn
  }

  function WithNamed(n: Node, ps: Props<Ptr>): Node
    requires n.ArrayNode? || n.ObjectNode?
  {
    if n.ArrayNode? then n.(assoc := ps) else n.(dyn := ps)
  }

  /** The vector a counting loop appends to: dense part or vector elements. */
  function Listed(n: Node): seq<Ptr>
    requires n.ArrayNode? || n.VectorNode?
  {
    if n.ArrayNode? then n.dense else n.values
  }

  function WithListed(n: Node, ps: seq<Ptr>): Node
    requires n.ArrayNode? || n.VectorNode?
  {
    if n.ArrayNode? then n.(dense := ps) else n.(values := ps)
  }

  /** The object table entry of the container at `p`: that of the reference it is, or else the next one. */
  function Entry(s: seq<byte>, p: nat, c: Table): Option<nat> {
    if p >= |s| || !ContainerMarker(s[p]) then None else
      var h := U29.Read(s, p + 1);
      if h.Got? && h.value % 2 == 0 && h.value >= 0 then Some(h.value / 2) else Some(|c.objects|)
  }

  class Deserializer {
    const data: seq<byte>
    const ctx: SerializationContext<Ptr>
    var it: nat
    var nodes: seq<Node>

    constructor (data: seq<byte>)
      ensures this.data == data && it == 0 && nodes == [] && fresh(ctx) && Linked(FRESH)
    {
      this.data, it, nodes := data, 0, [];
      ctx := new SerializationContext();
    }

    /** Cursor in range, a store as decoding builds it, and tables that stand for the value-level tables `c`. */
    predicate Linked(c: Table)
      reads this, ctx
    {
      it <= |data| && Built(nodes, ctx.objects, it) && ctx.strings == c.strings && ctx.traits == c.traits
      && |ctx.objects| == |c.objects| && TableRep(nodes, ctx.objects, c.objects)
    }

    /** Pointer `p` stands for `x` under the tables `c`. */
    predicate Stands(p: Ptr, x: Item, c: Table)
      requires Linked(c)
      reads this, ctx
    {
      Rep(nodes, ctx.objects, Busy(ctx.objects, c.objects), p, x)
    }

    predicate StandAll(ps: seq<Ptr>, xs: seq<Item>, c: Table)
      requires Linked(c)
      reads this, ctx
    {
      RepSeq(nodes, ctx.objects, Busy(ctx.objects, c.objects), ps, xs)
    }

    /**
      What a call that started at `start` with nodes `was` and pointers `tab` has come to, where `r` is the value
      decoder's result: they fail together; else the cursor, the tables and the pointer
      returned correspond, no earlier node or entry has changed, and no more nodes were made than bytes read.
     */
    predicate After(start: nat, was: seq<Node>, tab: seq<Ptr>, p: Option<Ptr>, r: Decoded<Item>)
      reads this, ctx
    {
      p.Some? == r.Ok? && (r.Ok? ==>
        it == r.next && Linked(r.ctx) && Stands(p.value, r.value, r.ctx)
        && was <= nodes && tab <= ctx.objects && |nodes| - |was| <= it - start)
    }

    // ----- Integers, strings, names -----

    method ReadHeader() returns (r: Option<int>)
      requires it <= |data|
      modifies this`it
      ensures var h := U29.Read(data, old(it));
        r.Some? == h.Got? && (h.Got? ==> r.value == h.value && it == h.next)
      ensures old(it) <= it <= |data| && (Built(nodes, ctx.objects, old(it)) ==> Built(nodes, ctx.objects, it))
    {
      hide U29.Read, Built;
      var h := U29.DeserializeValue(data, it);
      if h.Short? {
        return None;
      }
      if Built(nodes, ctx.objects, it) { BuiltFurther(nodes, ctx.objects, it, h.next); }
      it := h.next;
      return Some(h.value);
    }

    method DeserializeString(ghost c: Table) returns (r: Option<Text>)
      requires Linked(c)
      modifies this`it, ctx
      ensures var d := DecodeString(data, old(it), c);
        r.Some? == d.Ok?
        && (d.Ok? ==> r.value == d.value && it == d.next && Linked(d.ctx) && d.ctx.objects == c.objects)
      ensures ctx.objects == old(ctx.objects)
    {
      hide U29.Read, TableRep, Built;
      var header := ReadHeader();
      if header.None? {
        return None;
      }
      if header.value % 2 == 0 {
        r := ctx.GetString(header.value / 2);
        return;
      }
      var length := header.value / 2;
      if length < 0 || |data| - it < length {
        return None;
      }
      var val := data[it..it + length];
      BuiltFurther(nodes, ctx.objects, it, it + length);
      it := it + length;
      ctx.AddString(val);
      return Some(val);
    }

    method DeserializeNames(n: int, ghost c: Table) returns (r: Option<seq<Text>>)
      requires Linked(c)
      modifies this`it, ctx
      ensures var d := DecodeNames(n, data, old(it), c, []);
        r.Some? == d.Ok?
        && (d.Ok? ==> r.value == d.value && it == d.next && Linked(d.ctx) && d.ctx.objects == c.objects)
      ensures ctx.objects == old(ctx.objects)
    {
      hide DecodeString, TableRep, Built, Settles;
      var names := [];
      var i := 0;
      ghost var now := c;
      while i < n
        invariant Linked(now) && now.objects == c.objects && ctx.objects == old(ctx.objects) && 0 <= i
        invariant DecodeNames(n, data, old(it), c, []) == DecodeNames(n - i, data, it, now, names)
      {
        ghost var d := DecodeString(data, it, now);
        var name := DeserializeString(now);
        if name.None? {
          return None;
        }
        now := d.ctx;
        names := names + [name.value];
        i := i + 1;
      }
      return Some(names);
    }

    method DeserializeTraits(h: int, ghost c: Table) returns (r: Option<Traits>)
      requires Linked(c)
      modifies this`it, ctx
      ensures var d := DecodeTraits(h, data, old(it), c);
        r.Some? == d.Ok? && (d.Ok? ==> r.value == d.value && it == d.next && Linked(d.ctx))
      ensures ctx.objects == old(ctx.objects) && (r.Some? ==> !r.value.externalizable)
    {
      hide DecodeString, DecodeNames, TableRep, Built, Settles;
      if h % 4 == 1 {
        r := ctx.GetTraits(h / 4);
        if r.Some? && r.value.externalizable {
          r := None;
        }
        return;
      }
      if h % 8 == 7 {
        return None;
      }
      ghost var d := DecodeString(data, it, c);
      var className := DeserializeString(c);
      if className.None? {
        return None;
      }
      var names := DeserializeNames(h / 16, d.ctx);
      if names.None? {
        return None;
      }
      var traits := Traits(className.value, h / 8 % 2 == 1, false, names.value);
      ctx.AddTraits(traits);
      return Some(traits);
    }

    // ----- Nodes -----

    /** `new T(...)`: a node at the end of the store. */
    method Allocate(n: Node, ghost c: Table) returns (p: Ptr)
      requires Linked(c) && Built(nodes + [n], ctx.objects, it)
      modifies this`nodes
      ensures p == |old(nodes)| && nodes == old(nodes) + [n] && Linked(c)
    {
      p := |nodes|;
      BusyLive(nodes, ctx.objects, c.objects);
      TablePreserved(nodes, ctx.objects, c.objects, nodes + [n]);
      nodes := nodes + [n];
    }

    /** An item with no entry in the object table. */
    method MakeLeaf(x: Item, ghost start: nat, ghost c: Table) returns (p: Ptr)
      requires Linked(c) && !Container(x) && !x.Loop?
      requires Built(nodes, ctx.objects, start) && start <= it && (x.Double? ==> start <= x.node < it)
      modifies this`nodes
      ensures nodes == old(nodes) + [Leaf(x)] && Linked(c) && Stands(p, x, c)
    {
      BuiltNew(nodes, ctx.objects, start, Leaf(x), ctx.objects, it);
      p := Allocate(Leaf(x), c);
      BusyLive(old(nodes), ctx.objects, c.objects);
    }

    /** `ctx.addPointer(new T(...))`. */
    method Register(n: Node, slot: Slot, ghost c: Table) returns (p: Ptr)
      requires Linked(c)
      requires slot.Open? ==> !n.Leaf? && NodeMarker(n) == slot.marker
      requires slot.Done? ==> Tabled(slot.item) && !Container(slot.item) && n == Leaf(slot.item)
      requires !IsExternal(n)
      modifies this`nodes, ctx
      ensures p == |old(nodes)| && nodes == old(nodes) + [n] && ctx.objects == old(ctx.objects) + [p]
      ensures Linked(Encoder.AddObject(c, slot))
      ensures Busy(ctx.objects, c.objects + [slot])
           == Busy(old(ctx.objects), c.objects) + if slot.Open? then {p} else {}
    {
      TableExtended(nodes, ctx.objects, c.objects, n, slot);
      BuiltNew(nodes, ctx.objects, it, n, ctx.objects + [|nodes|], it);
      p := |nodes|;
      nodes := nodes + [n];
      ctx.AddObject(p);
    }

    /** `getPointer<T>(index)`. */
    method GetPointer(index: int, m: byte, ghost c: Table) returns (p: Option<Ptr>)
      requires Linked(c)
      ensures p.Some? == Resolve(c, index, m).Some?
      ensures p.Some? ==> 0 <= index < |ctx.objects| && p.value == ctx.objects[index]
                              && Stands(p.value, Resolve(c, index, m).value, c)
    {
      if !(0 <= index < |ctx.objects|) {
        return None;
      }
      assert SlotRep(nodes, ctx.objects, Busy(ctx.objects, c.objects), ctx.objects[index], c.objects[index]);
      ReferenceRep(nodes, ctx.objects, c, index, m);
      if NodeMarker(nodes[ctx.objects[index]]) != m {
        return None;
      }
      return Some(ctx.objects[index]);
    }

    // ----- Filling a container -----

    /** Node `q` is the container registered as entry `k`, and still open. */
    predicate Filling(q: Ptr, k: nat, c: Table)
      reads this, ctx
    {
      Linked(c) && k < |c.objects| && ctx.objects[k] == q && q < |nodes| && c.objects[k] == Open(NodeMarker(nodes[q]))
    }

    /** A loop that started at `start` with nodes `was` and pointers `tab` has filled node `q` and no other of them. */
    predicate Advanced(q: Ptr, k: nat, start: nat, was: seq<Node>, tab: seq<Ptr>, c: Table)
      reads this, ctx
    {
      Filling(q, k, c) && Only(was, nodes, q) && tab <= ctx.objects && start <= it && |nodes| - |was| <= it - start
    }

    /** Node `q` still is what `was` was, but for its map, which stands for `acc`. */
    predicate NamedAre(q: Ptr, was: Node, acc: Props<Item>, c: Table)
      requires Linked(c)
      reads this, ctx
    {
      q < |nodes| && (nodes[q].ArrayNode? || nodes[q].ObjectNode?) && (was.ArrayNode? || was.ObjectNode?)
      && nodes[q] == WithNamed(was, Named(nodes[q]))
      && Named(nodes[q]).names == acc.names && StandAll(Named(nodes[q]).values, acc.values, c)
    }

    predicate ListedAre(q: Ptr, was: Node, acc: seq<Item>, c: Table)
      requires Linked(c)
      reads this, ctx
    {
      q < |nodes| && (nodes[q].ArrayNode? || nodes[q].VectorNode?) && (was.ArrayNode? || was.VectorNode?)
      && nodes[q] == WithListed(was, Listed(nodes[q])) && StandAll(Listed(nodes[q]), acc, c)
    }

    predicate SealedAre(q: Ptr, was: Node, acc: Props<Item>, c: Table)
      requires Linked(c)
      reads this, ctx
    {
      q < |nodes| && nodes[q].ObjectNode? && was.ObjectNode? && nodes[q] == was.(sealed := nodes[q].sealed)
      && nodes[q].sealed.names == acc.names && StandAll(nodes[q].sealed.values, acc.values, c)
    }

    /** Named members up to the empty name go into the map of node `q`. */
    method ReadNamed(q: Ptr, ghost k: nat, ghost c: Table) returns (ok: bool)
      requires Filling(q, k, c) && (nodes[q].ArrayNode? || nodes[q].ObjectNode?) && Named(nodes[q]) == NO_PTRS
      modifies this, ctx
      ensures var d := DecodeProps(data, old(it), c, NO_PROPS);
        ok == d.Ok? && (d.Ok? ==> (it == d.next && Advanced(q, k, old(it), old(nodes), old(ctx.objects), d.ctx)
                                   && NamedAre(q, old(nodes)[q], d.value, d.ctx)))
      decreases |data| - it, 1
    {
      hide TableRep, Built, RepSeq, Rep, Decode, DecodeString, Put, Insert;
      ghost var now: Table, acc: Props<Item> := c, NO_PROPS;
      EmptyStands(nodes, ctx.objects, Busy(ctx.objects, c.objects));
      while true
        invariant Advanced(q, k, old(it), old(nodes), old(ctx.objects), now)
        invariant NamedAre(q, old(nodes)[q], acc, now)
        invariant DecodeProps(data, old(it), c, NO_PROPS) == DecodeProps(data, it, now, acc)
        decreases |data| - it
      {
        ghost var dn := DecodeString(data, it, now);
        var name := DeserializeString(now);
        if name.None? {
          return false;
        }
        if name.value == [] {
          return true;
        }
        ghost var dx := Decode(data, it, dn.ctx);
        ghost var nodes0, tab0 := nodes, ctx.objects;
        var val := Deserialize(dn.ctx);
        if val.None? {
          return false;
        }
        ghost var ps := Named(nodes[q]);
        ChildRead(nodes0, tab0, dn.ctx.objects, nodes, ctx.objects, dx.ctx.objects, ps.values, acc.values);
        PutRep(nodes, ctx.objects, Busy(ctx.objects, dx.ctx.objects), ps, acc, name.value, val.value, dx.value);
        acc := Put(acc, name.value, dx.value);
        now := dx.ctx;
        ps := Put(ps, name.value, val.value);
        Fill(q, k, WithNamed(nodes[q], Put(Named(nodes[q]), name.value, val.value)), now, ps.values, acc.values);
      }
    }

    /** `n` members are pushed to the vector of node `q`. */
    method ReadListed(n: int, q: Ptr, ghost k: nat, ghost c: Table) returns (ok: bool)
      requires Filling(q, k, c) && (nodes[q].ArrayNode? || nodes[q].VectorNode?) && Listed(nodes[q]) == []
      modifies this, ctx
      ensures var d := DecodeSeq(n, data, old(it), c, []);
        ok == d.Ok? && (d.Ok? ==> (it == d.next && Advanced(q, k, old(it), old(nodes), old(ctx.objects), d.ctx)
                                   && ListedAre(q, old(nodes)[q], d.value, d.ctx)))
      decreases |data| - it, 1
    {
      hide TableRep, Built, RepSeq, Rep, Decode;
      ghost var now: Table, acc: seq<Item> := c, [];
      EmptyStands(nodes, ctx.objects, Busy(ctx.objects, c.objects));
      var i := 0;
      while i < n
        invariant Advanced(q, k, old(it), old(nodes), old(ctx.objects), now) && 0 <= i
        invariant ListedAre(q, old(nodes)[q], acc, now)
        invariant DecodeSeq(n, data, old(it), c, []) == DecodeSeq(n - i, data, it, now, acc)
        decreases n - i
      {
        ghost var dx := Decode(data, it, now);
        ghost var nodes0, tab0 := nodes, ctx.objects;
        var val := Deserialize(now);
        if val.None? {
          return false;
        }
        ghost var ps := Listed(nodes[q]);
        ChildRead(nodes0, tab0, now.objects, nodes, ctx.objects, dx.ctx.objects, ps, acc);
        PushRep(nodes, ctx.objects, Busy(ctx.objects, dx.ctx.objects), ps, acc, val.value, dx.value);
        acc := acc + [dx.value];
        now := dx.ctx;
        Fill(q, k, WithListed(nodes[q], Listed(nodes[q]) + [val.value]), now, ps + [val.value], acc);
        i := i + 1;
      }
      return true;
    }

    /** One value for every attribute goes into `sealedProperties`. */
    method ReadSealed(names: seq<Text>, q: Ptr, ghost k: nat, ghost c: Table) returns (ok: bool)
      requires Filling(q, k, c) && nodes[q].ObjectNode? && nodes[q].sealed == NO_PTRS
      modifies this, ctx
      ensures var d := DecodeSealed(names, data, old(it), c, NO_PROPS);
        ok == d.Ok? && (d.Ok? ==> (it == d.next && Advanced(q, k, old(it), old(nodes), old(ctx.objects), d.ctx)
                                   && SealedAre(q, old(nodes)[q], d.value, d.ctx)))
      decreases |data| - it, 1
    {
      hide TableRep, Built, RepSeq, Rep, Decode, Put, Insert;
      ghost var now: Table, acc: Props<Item> := c, NO_PROPS;
      EmptyStands(nodes, ctx.objects, Busy(ctx.objects, c.objects));
      for i := 0 to |names|
        invariant Advanced(q, k, old(it), old(nodes), old(ctx.objects), now)
        invariant SealedAre(q, old(nodes)[q], acc, now)
        invariant DecodeSealed(names, data, old(it), c, NO_PROPS) == DecodeSealed(names[i..], data, it, now, acc)
      {
        assert names[i..][1..] == names[i + 1..];
        ghost var dx := Decode(data, it, now);
        ghost var nodes0, tab0 := nodes, ctx.objects;
        var val := Deserialize(now);
        if val.None? {
          return false;
        }
        ghost var ps := nodes[q].sealed;
        ChildRead(nodes0, tab0, now.objects, nodes, ctx.objects, dx.ctx.objects, ps.values, acc.values);
        PutRep(nodes, ctx.objects, Busy(ctx.objects, dx.ctx.objects), ps, acc, names[i], val.value, dx.value);
        acc := Put(acc, names[i], dx.value);
        now := dx.ctx;
        ps := Put(ps, names[i], val.value);
        Fill(q, k, nodes[q].(sealed := Put(nodes[q].sealed, names[i], val.value)), now, ps.values, acc.values);
      }
      return true;
    }

    /** Assign through the pointer to an open container; whatever stood for a value still does. */
    method Fill(q: Ptr, ghost k: nat, n: Node, ghost c: Table, ghost ps: seq<Ptr>, ghost xs: seq<Item>)
      requires Filling(q, k, c) && NodeMarker(n) == NodeMarker(nodes[q]) && StandAll(ps, xs, c)
      requires !nodes[q].Leaf? && !n.Leaf? && (IsExternal(n) ==> IsExternal(nodes[q]))
      modifies this`nodes
      ensures nodes == old(nodes)[q := n] && Filling(q, k, c) && StandAll(ps, xs, c)
    {
      hide TableRep, Built, RepSeq;
      InBusy(ctx.objects, c.objects, k);
      Filled(nodes, ctx.objects, c.objects, q, n);
      BuiltFilled(nodes, ctx.objects, it, q, n);
      ghost var tab, busy := ctx.objects, Busy(ctx.objects, c.objects);
      RepSeqPreserved(nodes, tab, busy, nodes[q := n], tab, busy, ps, xs);
      nodes := nodes[q := n];
    }

    // ----- Containers -----

    /** The container `q`, open as entry `k`, is complete. */
    lemma Complete(q: Ptr, k: nat, now: Table, x: Item)
      requires Filling(q, k, now) && Container(x)
      requires Content(nodes, ctx.objects, Busy(ctx.objects, now.objects), nodes[q], x)
      ensures Linked(Close(now, k, x)) && Stands(q, x, Close(now, k, x))
    {
      hide TableRep, Built, Content, Rep;
      Finish(nodes, ctx.objects, now.objects, k, x);
    }

    /** What is returned is the pointer registered as entry `k`. */
    predicate Entered(p: Option<Ptr>, k: nat)
      reads this, ctx
    {
      p.Some? ==> k < |ctx.objects| && p.value == ctx.objects[k]
    }

    /** `AmfArray::deserializePtr` after the header; `start` is where its marker was. */
    method DeserializeArray(n: int, ghost start: nat, ghost c: Table) returns (p: Option<Ptr>)
      requires Linked(c) && start + 2 <= it
      modifies this, ctx
      ensures After(start, old(nodes), old(ctx.objects), p, DecodeArray(n, data, old(it), c))
      ensures Entered(p, |c.objects|)
      decreases |data| - it, 2
    {
      hide TableRep, Built, RepSeq, Rep, DecodeProps, DecodeSeq, Busy;
      var q := Register(ArrayNode(NO_PTRS, []), Open(ARRAY), c);
      ghost var k, c1 := |c.objects|, Encoder.AddObject(c, Open(ARRAY));
      ghost var named := DecodeProps(data, it, c1, NO_PROPS);
      var ok := ReadNamed(q, k, c1);
      if !ok {
        return None;
      }
      ghost var nodes1, tab1, ps := nodes, ctx.objects, nodes[q].assoc.values;
      ghost var dense := DecodeSeq(n, data, it, named.ctx, []);
      ok := ReadListed(n, q, k, named.ctx);
      if !ok {
        return None;
      }
      InBusy(tab1, named.ctx.objects, k);
      MembersRead(nodes1, tab1, named.ctx.objects, nodes, ctx.objects, dense.ctx.objects, q, ps, named.value.values);
      Complete(q, k, dense.ctx, Array(named.value, dense.value));
      return Some(q);
    }

    /** `AmfObject::deserializePtr` after the header. */
    method DeserializeObject(h: int, ghost start: nat, ghost c: Table) returns (p: Option<Ptr>)
      requires Linked(c) && start + 2 <= it
      modifies this, ctx
      ensures After(start, old(nodes), old(ctx.objects), p, DecodeObject(h, data, old(it), c))
      ensures Entered(p, |c.objects|)
      decreases |data| - it, 2
    {
      hide TableRep, Built, RepSeq, Rep, DecodeTraits, DecodeProps, DecodeSealed, Busy;
      ghost var t := DecodeTraits(h, data, it, c);
      var traits := DeserializeTraits(h, c);
      if traits.None? {
        return None;
      }
      var q := Register(ObjectNode(traits.value, NO_PTRS, NO_PTRS, 0), Open(OBJECT), t.ctx);
      ghost var k, c1 := |c.objects|, Encoder.AddObject(t.ctx, Open(OBJECT));
      ghost var sealed := DecodeSealed(traits.value.attributes, data, it, c1, NO_PROPS);
      var ok := ReadSealed(traits.value.attributes, q, k, c1);
      if !ok {
        return None;
      }
      if !traits.value.dynamic {
        EmptyStands(nodes, ctx.objects, Busy(ctx.objects, sealed.ctx.objects));
        Complete(q, k, sealed.ctx, Object(traits.value, sealed.value, NO_PROPS, 0));
        return Some(q);
      }
      ghost var nodes1, tab1, ps := nodes, ctx.objects, nodes[q].sealed.values;
      ghost var dyn := DecodeProps(data, it, sealed.ctx, NO_PROPS);
      ok := ReadNamed(q, k, sealed.ctx);
      if !ok {
        return None;
      }
      InBusy(tab1, sealed.ctx.objects, k);
      MembersRead(nodes1, tab1, sealed.ctx.objects, nodes, ctx.objects, dyn.ctx.objects, q, ps, sealed.value.values);
      Complete(q, k, dyn.ctx, Object(traits.value, sealed.value, dyn.value, 0));
      return Some(q);
    }

    /** `AmfVector<AmfItem>::deserializePtr` after the header. */
    method DeserializeVector(n: int, ghost start: nat, ghost c: Table) returns (p: Option<Ptr>)
      requires Linked(c) && start + 2 <= it
      modifies this, ctx
      ensures After(start, old(nodes), old(ctx.objects), p, DecodeVector(n, data, old(it), c))
      ensures Entered(p, |c.objects|)
      decreases |data| - it, 2
    {
      hide TableRep, Built, RepSeq, Rep, DecodeString, DecodeSeq, Busy;
      if it == |data| {
        return None;
      }
      var fixed := data[it] == 1;
      BuiltFurther(nodes, ctx.objects, it, it + 1);
      it := it + 1;
      ghost var t := DecodeString(data, it, c);
      var name := DeserializeString(c);
      if name.None? || n < 0 {
        return None;
      }
      var q := Register(VectorNode(name.value, fixed, []), Open(VECTOR_OBJECT), t.ctx);
      ghost var c1 := Encoder.AddObject(t.ctx, Open(VECTOR_OBJECT));
      ghost var values := DecodeSeq(n, data, it, c1, []);
      var ok := ReadListed(n, q, |t.ctx.objects|, c1);
      if !ok {
        return None;
      }
      Complete(q, |c.objects|, values.ctx, Vector(name.value, fixed, values.value));
      return Some(q);
    }

    // ----- Leaves -----

    /** A leaf registered with the context and returned as a copy of its own. */
    method RegisterLeaf(x: Item, ghost c: Table) returns (p: Ptr)
      requires Linked(c) && Tabled(x) && !Container(x)
      modifies this`nodes, ctx
      ensures Linked(Encoder.AddObject(c, Done(x))) && Stands(p, x, Encoder.AddObject(c, Done(x)))
      ensures old(nodes) <= nodes && |nodes| == |old(nodes)| + 2 && old(ctx.objects) <= ctx.objects
    {
      hide TableRep, Built, Rep, Busy;
      var copy := Register(Leaf(x), Done(x), c);
      p := MakeLeaf(x, it, Encoder.AddObject(c, Done(x)));
    }

    /** `AmfByteArray`, `AmfXml` and `AmfXmlDocument` after the header. */
    method DeserializeData(m: byte, n: int, ghost start: nat, ghost c: Table) returns (p: Option<Ptr>)
      requires Linked(c) && start + 2 <= it
      modifies this, ctx
      ensures After(start, old(nodes), old(ctx.objects), p, DecodeData(m, n, data, old(it), c))
    {
      hide TableRep, Built, Rep, Busy;
      if n < 0 || |data| - it < n {
        return None;
      }
      var x := Data(MarkerData(m), data[it..it + n]);
      BuiltFurther(nodes, ctx.objects, it, it + n);
      it := it + n;
      var leaf := RegisterLeaf(x, c);
      return Some(leaf);
    }

    /** The loop over the elements of an integer vector. */
    method DeserializeWords(n: nat) returns (values: seq<Word>)
      requires it + 4 * n <= |data|
      modifies this`it
      ensures values == ReadWords(data, old(it), n) && it == old(it) + 4 * n
    {
      values := [];
      for i := 0 to n
        invariant it == old(it) + 4 * i
        invariant ReadWords(data, old(it), n) == values + ReadWords(data, it, n - i)
      {
        var val: Word := data[it] as int * 0x100_0000 + data[it + 1] as int * 0x1_0000
                         + data[it + 2] as int * 0x100 + data[it + 3] as int;
        assert ReadWords(data, it, n - i) == [val] + ReadWords(data, it + 4, n - i - 1);
        ghost var rest := ReadWords(data, it + 4, n - i - 1);
        assert values + ([val] + rest) == values + [val] + rest;
        it := it + 4;
        values := values + [val];
      }
    }

    /** `AmfVector<int>` and `AmfVector<unsigned int>` after the header. */
    method DeserializeNumbers(m: byte, n: int, ghost start: nat, ghost c: Table) returns (p: Option<Ptr>)
      requires Linked(c) && start + 2 <= it
      modifies this, ctx
      ensures After(start, old(nodes), old(ctx.objects), p, DecodeNumbers(m, n, data, old(it), c))
    {
      hide TableRep, Built, Rep, Busy, ReadWords;
      if it == |data| {
        return None;
      }
      var fixed := data[it] == 1;
      BuiltFurther(nodes, ctx.objects, it, it + 1);
      it := it + 1;
      if n < 0 || |data| - it < 4 * n {
        return None;
      }
      BuiltFurther(nodes, ctx.objects, it, it + 4 * n);
      var values := DeserializeWords(n);
      var leaf := RegisterLeaf(Numbers(if m == VECTOR_INT then Ints else Uints, values, fixed), c);
      return Some(leaf);
    }

    /** Undefined, null, booleans, integers, doubles and strings. */
    method DeserializeSimple(ghost c: Table) returns (p: Option<Ptr>)
      requires Linked(c) && it < |data|
      modifies this, ctx
      ensures After(old(it), old(nodes), old(ctx.objects), p, DecodeSimple(data, old(it), c))
    {
      hide TableRep, Built, Rep, Busy, DecodeString, U29.Read;
      var m := data[it];
      var x: Item;
      ghost var now := c;
      ghost var start := it;
      BuiltFurther(nodes, ctx.objects, it, it + 1);
      it := it + 1;
      if m == UNDEFINED {
        x := Undefined;
      } else if m == NULL {
        x := Null;
      } else if m == FALSE || m == TRUE {
        x := Bool(m == TRUE);
      } else if m == INTEGER {
        var value := ReadHeader();
        if value.None? {
          return None;
        }
        x := Integer(value.value);
      } else if m == DOUBLE {
        if |data| - it < 8 {
          return None;
        }
        x := Double(Reverse(data[it..it + 8]), it - 1);
        BuiltFurther(nodes, ctx.objects, it, it + 8);
        it := it + 8;
      } else if m == STRING {
        ghost var d := DecodeString(data, it, c);
        var text := DeserializeString(c);
        if text.None? {
          return None;
        }
        now := d.ctx;
        x := Str(text.value);
      } else {
        return None;
      }
      var leaf := MakeLeaf(x, start, now);
      return Some(leaf);
    }

    // ----- Items -----

    /**
      `Deserializer::deserialize`: it succeeds exactly when the value decoder does, moves the
      cursor as far, and returns a pointer that stands for the decoded value. A container is
      returned by the pointer it is registered with, be it now or when it was first read.
     */
    method Deserialize(ghost c: Table) returns (p: Option<Ptr>)
      requires Linked(c)
      modifies this, ctx
      ensures After(old(it), old(nodes), old(ctx.objects), p, Decode(data, old(it), c))
      ensures var k := Entry(data, old(it), c);
        k.Some? ==> Entered(p, k.value) && (p.Some? && k.value < |c.objects| ==> nodes == old(nodes))
      decreases |data| - it, 0
    {
      hide TableRep, Built, Rep, Busy, DecodeSimple, DecodeBody, U29.Read;
      if it == |data| {
        return None;
      }
      var m := data[it];
      if m !in {XMLDOC, XML, BYTEARRAY, VECTOR_INT, VECTOR_UINT, ARRAY, OBJECT, VECTOR_OBJECT} {
        p := DeserializeSimple(c);
        return;
      }
      ghost var start := it;
      BuiltFurther(nodes, ctx.objects, it, it + 1);
      it := it + 1;
      var header := ReadHeader();
      if header.None? {
        return None;
      }
      if header.value % 2 == 0 {
        p := DeserializeReference(m, header.value / 2, start, c);
      } else {
        p := DeserializeBody(m, header.value, start, c);
      }
    }

    /** A reference: the registered pointer of a container, a copy of anything else. */
    method DeserializeReference(m: byte, index: int, ghost start: nat, ghost c: Table) returns (p: Option<Ptr>)
      requires Linked(c) && start + 2 <= it
      requires m in {XMLDOC, XML, BYTEARRAY, VECTOR_INT, VECTOR_UINT, ARRAY, OBJECT, VECTOR_OBJECT}
      modifies this`nodes
      ensures var x := Resolve(c, index, m);
        After(start, old(nodes), ctx.objects, p, if x.None? then Bad else Ok(x.value, it, c))
      ensures ContainerMarker(m) && p.Some? ==> 0 <= index && Entered(p, index) && nodes == old(nodes)
    {
      hide TableRep, Built, Busy;
      p := GetPointer(index, m, c);
      if p.Some? && !ContainerMarker(m) {
        ghost var x := Resolve(c, index, m).value;
        LeafResolved(c, index, m);
        var copy := MakeLeaf(nodes[p.value].item, it, c);
        p := Some(copy);
      }
    }

    /** References to leaves resolve to finished leaves. */
    lemma LeafResolved(c: Table, index: int, m: byte)
      requires Linked(c) && Resolve(c, index, m).Some? && !ContainerMarker(m)
      ensures var x := Resolve(c, index, m).value;
        !x.Loop? && !Container(x) && 0 <= index < |ctx.objects|
        && ctx.objects[index] < |nodes| && nodes[ctx.objects[index]] == Leaf(x)
    {
      var busy, p := Busy(ctx.objects, c.objects), ctx.objects[index];
      assert SlotRep(nodes, ctx.objects, busy, p, c.objects[index]);
      var x := c.objects[index].item;
      assert x.Data? || x.Numbers?;
      assert Content(nodes, ctx.objects, busy, nodes[p], x);
    }

    method DeserializeBody(m: byte, h: int, ghost start: nat, ghost c: Table) returns (p: Option<Ptr>)
      requires Linked(c) && start + 2 <= it
      modifies this, ctx
      ensures After(start, old(nodes), old(ctx.objects), p, DecodeBody(m, h, data, old(it), c))
      ensures ContainerMarker(m) ==> Entered(p, |c.objects|)
      decreases |data| - it, 3
    {
      hide TableRep, Built, Rep, Busy, DecodeArray, DecodeObject, DecodeVector, DecodeNumbers, DecodeData;
      if m == ARRAY {
        p := DeserializeArray(h / 2, start, c);
      } else if m == OBJECT {
        p := DeserializeObject(h, start, c);
      } else if m == VECTOR_OBJECT {
        p := DeserializeVector(h / 2, start, c);
      } else if m == VECTOR_INT || m == VECTOR_UINT {
        p := DeserializeNumbers(m, h / 2, start, c);
      } else {
        p := DeserializeData(m, h / 2, start, c);
      }
    }
  }

  lemma EmptyStands(nodes: seq<Node>, tab: seq<Ptr>, busy: set<Ptr>)
    ensures RepSeq(nodes, tab, busy, [], [])
  {
  }

  lemma PushRep(nodes: seq<Node>, tab: seq<Ptr>, busy: set<Ptr>, ps: seq<Ptr>, xs: seq<Item>, p: Ptr, x: Item)
    requires RepSeq(nodes, tab, busy, ps, xs) && Rep(nodes, tab, busy, p, x)
    ensures RepSeq(nodes, tab, busy, ps + [p], xs + [x])
  {
  }
}
