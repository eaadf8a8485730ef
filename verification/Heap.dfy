/** Items as the decoder builds them: nodes that point to each other, some of them not finished yet. */
module Heap {
  import opened Words
  import opened Names
  import opened Items
  import opened Decoder

  /** An `AmfItemPtr`: the number of a node in the store. */
  type Ptr = nat

  datatype Node =
    | Leaf(item: Item)
    | ArrayNode(assoc: Props<Ptr>, dense: seq<Ptr>)
    | ObjectNode(traits: Traits, sealed: Props<Ptr>, dyn: Props<Ptr>, node: nat)
    | VectorNode(typeName: Text, fixed: bool, values: seq<Ptr>)

  /** The class of a node, as a type marker. */
  function NodeMarker(n: Node): byte {
    match n
    case Leaf(x) => Marker(x)
    case ArrayNode(_, _) => ARRAY
    case ObjectNode(_, _, _, _) => OBJECT
    case VectorNode(_, _, _) => VECTOR_OBJECT
  }

  predicate ContainerMarker(m: byte) {
    m == ARRAY || m == OBJECT || m == VECTOR_OBJECT
  }

  predicate Container(x: Item) {
    x.Array? || x.Object? || x.Vector?
  }

  // ----- What is marked -----

  /** No two doubles, and no two externalizable objects, are marked as one. */
  predicate Labelled(nodes: seq<Node>) {
    && (forall p, q :: 0 <= p < q < |nodes| && IsDouble(nodes[p]) && IsDouble(nodes[q]) ==>
                         nodes[p].item.node != nodes[q].item.node)
    && (forall p, q :: 0 <= p < q < |nodes| && IsExternal(nodes[p]) && IsExternal(nodes[q]) ==>
                         nodes[p].node != nodes[q].node)
  }

  predicate IsDouble(n: Node) {
    n.Leaf? && n.item.Double?
  }

  predicate IsExternal(n: Node) {
    n.ObjectNode? && n.traits.externalizable
  }

  /**
    So it is in a store made by decoding up to `it`: doubles are marked with their positions,
    every container is registered in `tab`, and leaves hold none.
   */
  predicate Built(nodes: seq<Node>, tab: seq<Ptr>, it: nat) {
    (forall p :: 0 <= p < |nodes| ==> BuiltNode(p, nodes[p], tab, it)) && Labelled(nodes)
  }

  predicate BuiltNode(p: Ptr, n: Node, tab: seq<Ptr>, it: nat) {
    match n
    case Leaf(x) => !Container(x) && !x.Loop? && (x.Double? ==> x.node < it)
    case _ => !IsExternal(n) && p in tab
  }

  lemma BuiltFurther(nodes: seq<Node>, tab: seq<Ptr>, it: nat, it': nat)
    requires Built(nodes, tab, it) && it <= it'
    ensures Built(nodes, tab, it')
  {
  }

  lemma BuiltNew(nodes: seq<Node>, tab: seq<Ptr>, it: nat, n: Node, tab': seq<Ptr>, it': nat)
    requires Built(nodes, tab, it) && it <= it' && tab <= tab' && BuiltNode(|nodes|, n, tab', it')
    requires IsDouble(n) ==> it <= n.item.node
    ensures Built(nodes + [n], tab', it')
  {
  }

  lemma BuiltFilled(nodes: seq<Node>, tab: seq<Ptr>, it: nat, q: Ptr, n: Node)
    requires Built(nodes, tab, it) && q < |nodes| && !nodes[q].Leaf? && !n.Leaf?
    requires IsExternal(n) ==> IsExternal(nodes[q])
    ensures Built(nodes[q := n], tab, it)
  {
  }

  // ----- What a pointer stands for -----

  /**
    Pointer `p` stands for item `x`: a live node of the class of `x` whose members stand for
    the members of `x`, none of the nodes on the way being one of the `busy` ones that are
    still filled. `Loop(i)` is the very pointer registered `i`-th in `tab`.
   */
  predicate Rep(nodes: seq<Node>, tab: seq<Ptr>, busy: set<Ptr>, p: Ptr, x: Item)
    decreases x, 1
  {
    p < |nodes| &&
    match x
    case Loop(i) => i < |tab| && tab[i] == p && ContainerMarker(NodeMarker(nodes[p]))
    case _ => p !in busy && Content(nodes, tab, busy, nodes[p], x)
  }

  predicate Content(nodes: seq<Node>, tab: seq<Ptr>, busy: set<Ptr>, n: Node, x: Item)
    decreases x, 0
  {
    match x
    case Array(a, d) =>
      n.ArrayNode? && n.assoc.names == a.names && RepSeq(nodes, tab, busy, n.assoc.values, a.values)
      && RepSeq(nodes, tab, busy, n.dense, d)
    case Object(t, s, d, k) =>
      n.ObjectNode? && n.traits == t && n.node == k
      && n.sealed.names == s.names && RepSeq(nodes, tab, busy, n.sealed.values, s.values)
      && n.dyn.names == d.names && RepSeq(nodes, tab, busy, n.dyn.values, d.values)
    case Vector(t, f, v) =>
      n.VectorNode? && n.typeName == t && n.fixed == f && RepSeq(nodes, tab, busy, n.values, v)
    case _ => n == Leaf(x)
  }

  predicate RepSeq(nodes: seq<Node>, tab: seq<Ptr>, busy: set<Ptr>, ps: seq<Ptr>, xs: seq<Item>)
    decreases xs
  {
    |ps| == |xs| && forall i :: 0 <= i < |xs| ==> Rep(nodes, tab, busy, ps[i], xs[i])
  }

  /** The nodes of the containers that are still open. */
  function Busy(tab: seq<Ptr>, slots: seq<Slot>): set<Ptr>
    requires |tab| == |slots|
  {
    set i | 0 <= i < |slots| && slots[i].Open? :: tab[i]
  }

  predicate SlotRep(nodes: seq<Node>, tab: seq<Ptr>, busy: set<Ptr>, p: Ptr, slot: Slot) {
    p < |nodes| &&
    match slot
    case Open(m) => NodeMarker(nodes[p]) == m && ContainerMarker(m)
    case Done(x) => Tabled(x) && Rep(nodes, tab, busy, p, x)
  }

  /** The pointer table stands for the table of values, entry by entry, and no pointer is in it twice. */
  predicate TableRep(nodes: seq<Node>, tab: seq<Ptr>, slots: seq<Slot>) {
    && |tab| == |slots| && (forall i :: 0 <= i < |slots| ==> SlotRep(nodes, tab, Busy(tab, slots), tab[i], slots[i]))
    && forall i, j :: 0 <= i < j < |tab| ==> tab[i] != tab[j]
  }

  // ----- Frames -----

  /** Finished nodes stay as they are and finished; busy ones keep their class. */
  predicate Preserves(nodes: seq<Node>, tab: seq<Ptr>, busy: set<Ptr>, nodes': seq<Node>, tab': seq<Ptr>,
                      busy': set<Ptr>) {
    && |nodes| <= |nodes'| && tab <= tab'
    && (forall q :: 0 <= q < |nodes| ==> NodeMarker(nodes'[q]) == NodeMarker(nodes[q]))
    && (forall q :: 0 <= q < |nodes| && q !in busy ==> nodes'[q] == nodes[q] && q !in busy')
  }

  lemma {:induction false} RepPreserved(nodes: seq<Node>, tab: seq<Ptr>, busy: set<Ptr>, nodes': seq<Node>,
                                        tab': seq<Ptr>, busy': set<Ptr>, p: Ptr, x: Item)
    requires Preserves(nodes, tab, busy, nodes', tab', busy') && Rep(nodes, tab, busy, p, x)
    ensures Rep(nodes', tab', busy', p, x)
    decreases x, 1
  {
    if !x.Loop? {
      ContentPreserved(nodes, tab, busy, nodes', tab', busy', nodes[p], x);
    }
  }

  lemma {:induction false} ContentPreserved(nodes: seq<Node>, tab: seq<Ptr>, busy: set<Ptr>, nodes': seq<Node>,
                                            tab': seq<Ptr>, busy': set<Ptr>, n: Node, x: Item)
    requires Preserves(nodes, tab, busy, nodes', tab', busy') && Content(nodes, tab, busy, n, x)
    ensures Content(nodes', tab', busy', n, x)
    decreases x, 0
  {
    hide Preserves, RepSeq;
    match x
    case Array(a, d) =>
      RepSeqPreserved(nodes, tab, busy, nodes', tab', busy', n.assoc.values, a.values);
      RepSeqPreserved(nodes, tab, busy, nodes', tab', busy', n.dense, d);
    case Object(_, s, d, _) =>
      RepSeqPreserved(nodes, tab, busy, nodes', tab', busy', n.sealed.values, s.values);
      RepSeqPreserved(nodes, tab, busy, nodes', tab', busy', n.dyn.values, d.values);
    case Vector(_, _, v) => RepSeqPreserved(nodes, tab, busy, nodes', tab', busy', n.values, v);
    case _ =>
  }

  lemma {:induction false} RepSeqPreserved(nodes: seq<Node>, tab: seq<Ptr>, busy: set<Ptr>, nodes': seq<Node>,
                                           tab': seq<Ptr>, busy': set<Ptr>, ps: seq<Ptr>, xs: seq<Item>)
    requires Preserves(nodes, tab, busy, nodes', tab', busy') && RepSeq(nodes, tab, busy, ps, xs)
    ensures RepSeq(nodes', tab', busy', ps, xs)
    decreases xs
  {
    hide Preserves;
    forall i | 0 <= i < |xs| ensures Rep(nodes', tab', busy', ps[i], xs[i]) {
      RepPreserved(nodes, tab, busy, nodes', tab', busy', ps[i], xs[i]);
    }
  }

  /** The table goes through an update that preserves, entry by entry. */
  lemma SlotPreserved(nodes: seq<Node>, tab: seq<Ptr>, busy: set<Ptr>, nodes': seq<Node>, tab': seq<Ptr>,
                      busy': set<Ptr>, p: Ptr, slot: Slot)
    requires Preserves(nodes, tab, busy, nodes', tab', busy') && SlotRep(nodes, tab, busy, p, slot)
    ensures SlotRep(nodes', tab', busy', p, slot)
  {
    hide Rep;
    if slot.Done? {
      RepPreserved(nodes, tab, busy, nodes', tab', busy', p, slot.item);
      RepLive(nodes', tab', busy', p, slot.item);
    }
  }

  lemma RepLive(nodes: seq<Node>, tab: seq<Ptr>, busy: set<Ptr>, p: Ptr, x: Item)
    requires Rep(nodes, tab, busy, p, x)
    ensures p < |nodes| && (!x.Loop? ==> NodeMarker(nodes[p]) == Marker(x))
  {
  }

  /** Nodes are added, and busy ones filled, under an unchanged table. */
  lemma TablePreserved(nodes: seq<Node>, tab: seq<Ptr>, slots: seq<Slot>, nodes': seq<Node>)
    requires TableRep(nodes, tab, slots)
    requires Preserves(nodes, tab, Busy(tab, slots), nodes', tab, Busy(tab, slots))
    ensures TableRep(nodes', tab, slots)
  {
    hide Preserves, SlotRep;
    forall i | 0 <= i < |slots| ensures SlotRep(nodes', tab, Busy(tab, slots), tab[i], slots[i]) {
      SlotPreserved(nodes, tab, Busy(tab, slots), nodes', tab, Busy(tab, slots), tab[i], slots[i]);
    }
  }

  /** A new entry at the end of the table, for a node of its own. */
  lemma TableExtended(nodes: seq<Node>, tab: seq<Ptr>, slots: seq<Slot>, n: Node, slot: Slot)
    requires TableRep(nodes, tab, slots)
    requires slot.Open? ==> NodeMarker(n) == slot.marker && ContainerMarker(slot.marker)
    requires slot.Done? ==> Tabled(slot.item) && !Container(slot.item) && n == Leaf(slot.item)
    ensures TableRep(nodes + [n], tab + [|nodes|], slots + [slot])
    ensures Busy(tab + [|nodes|], slots + [slot]) == Busy(tab, slots) + if slot.Open? then {|nodes|} else {}
    ensures Preserves(nodes, tab, Busy(tab, slots), nodes + [n], tab + [|nodes|], Busy(tab + [|nodes|], slots + [slot]))
  {
    var tab', slots', nodes' := tab + [|nodes|], slots + [slot], nodes + [n];
    BusyExtended(tab, slots, |nodes|, slot);
    BusyLive(nodes, tab, slots);
    var busy' := Busy(tab', slots');
    forall i | 0 <= i < |slots'| ensures SlotRep(nodes', tab', busy', tab'[i], slots'[i]) {
      if i < |slots| {
        SlotPreserved(nodes, tab, Busy(tab, slots), nodes', tab', busy', tab[i], slots[i]);
      }
    }
  }

  lemma BusyExtended(tab: seq<Ptr>, slots: seq<Slot>, p: Ptr, slot: Slot)
    requires |tab| == |slots|
    ensures Busy(tab + [p], slots + [slot]) == Busy(tab, slots) + if slot.Open? then {p} else {}
  {
    var tab', slots' := tab + [p], slots + [slot];
    forall q ensures q in Busy(tab', slots') <==> q in Busy(tab, slots) || (slot.Open? && q == p) {
      if q in Busy(tab, slots) {
        var i :| 0 <= i < |slots| && slots[i].Open? && tab[i] == q;
        assert slots'[i].Open? && tab'[i] == q;
      }
      if slot.Open? && q == p {
        assert slots'[|slots|].Open? && tab'[|slots|] == q;
      }
    }
  }

  lemma BusyLive(nodes: seq<Node>, tab: seq<Ptr>, slots: seq<Slot>)
    requires TableRep(nodes, tab, slots)
    ensures forall q :: q in Busy(tab, slots) ==> q < |nodes|
  {
  }

  /** Entries that settle leave the set of busy nodes as it was. */
  lemma BusySettled(tab: seq<Ptr>, slots: seq<Slot>, tab': seq<Ptr>, slots': seq<Slot>)
    requires |tab| == |slots| && |tab'| == |slots'| && tab <= tab' && slots <= slots'
    requires forall i :: |slots| <= i < |slots'| ==> slots'[i].Done?
    ensures Busy(tab', slots') == Busy(tab, slots)
  {
  }

  /** A busy node is filled further. */
  lemma Filled(nodes: seq<Node>, tab: seq<Ptr>, slots: seq<Slot>, q: Ptr, n: Node)
    requires TableRep(nodes, tab, slots) && q in Busy(tab, slots)
    requires q < |nodes| && NodeMarker(n) == NodeMarker(nodes[q])
    ensures TableRep(nodes[q := n], tab, slots)
    ensures Preserves(nodes, tab, Busy(tab, slots), nodes[q := n], tab, Busy(tab, slots))
  {
    TablePreserved(nodes, tab, slots, nodes[q := n]);
  }

  /** An open container whose members are all there becomes a finished entry. */
  lemma Finish(nodes: seq<Node>, tab: seq<Ptr>, slots: seq<Slot>, k: nat, x: Item)
    requires TableRep(nodes, tab, slots) && k < |slots| && slots[k].Open? && Tabled(x)
    requires Content(nodes, tab, Busy(tab, slots), nodes[tab[k]], x)
    ensures TableRep(nodes, tab, slots[k := Done(x)])
    ensures Rep(nodes, tab, Busy(tab, slots[k := Done(x)]), tab[k], x)
  {
    var slots' := slots[k := Done(x)];
    var busy, busy' := Busy(tab, slots), Busy(tab, slots');
    assert tab[k] !in busy';
    assert Preserves(nodes, tab, busy, nodes, tab, busy');
    ContentPreserved(nodes, tab, busy, nodes, tab, busy', nodes[tab[k]], x);
    forall i | 0 <= i < |slots'| ensures SlotRep(nodes, tab, busy', tab[i], slots'[i]) {
      if i != k {
        SlotPreserved(nodes, tab, busy, nodes, tab, busy', tab[i], slots[i]);
      }
    }
  }

  /** What stood for something before an item was read still does when only nodes and settled entries were added. */
  lemma ChildRead(nodes: seq<Node>, tab: seq<Ptr>, slots: seq<Slot>, nodes': seq<Node>, tab': seq<Ptr>,
                  slots': seq<Slot>, ps: seq<Ptr>, xs: seq<Item>)
    requires TableRep(nodes, tab, slots) && TableRep(nodes', tab', slots')
    requires nodes <= nodes' && tab <= tab' && slots <= slots'
    requires forall i :: |slots| <= i < |slots'| ==> slots'[i].Done?
    requires RepSeq(nodes, tab, Busy(tab, slots), ps, xs)
    ensures Busy(tab', slots') == Busy(tab, slots)
    ensures RepSeq(nodes', tab', Busy(tab', slots'), ps, xs)
  {
    hide RepSeq, SlotRep;
    BusySettled(tab, slots, tab', slots');
    RepSeqPreserved(nodes, tab, Busy(tab, slots), nodes', tab', Busy(tab', slots'), ps, xs);
  }

  /** Everything but node `q` is as it was, and `q` has kept its class. */
  predicate Only(was: seq<Node>, now: seq<Node>, q: Ptr) {
    && |was| <= |now|
    && (forall i :: 0 <= i < |was| && i != q ==> now[i] == was[i])
    && (q < |was| ==> NodeMarker(now[q]) == NodeMarker(was[q]))
  }

  /** The same when, besides, the open container `q` was filled further. */
  lemma MembersRead(nodes: seq<Node>, tab: seq<Ptr>, slots: seq<Slot>, nodes': seq<Node>, tab': seq<Ptr>,
                    slots': seq<Slot>, q: Ptr, ps: seq<Ptr>, xs: seq<Item>)
    requires TableRep(nodes, tab, slots) && TableRep(nodes', tab', slots')
    requires q in Busy(tab, slots) && Only(nodes, nodes', q) && tab <= tab' && slots <= slots'
    requires forall i :: |slots| <= i < |slots'| ==> slots'[i].Done?
    requires RepSeq(nodes, tab, Busy(tab, slots), ps, xs)
    ensures RepSeq(nodes', tab', Busy(tab', slots'), ps, xs)
  {
    hide RepSeq, SlotRep;
    BusySettled(tab, slots, tab', slots');
    RepSeqPreserved(nodes, tab, Busy(tab, slots), nodes', tab', Busy(tab', slots'), ps, xs);
  }

  lemma InBusy(tab: seq<Ptr>, slots: seq<Slot>, k: nat)
    requires |tab| == |slots| && k < |slots| && slots[k].Open?
    ensures tab[k] in Busy(tab, slots)
  {
  }

  /** A reference yields the very pointer registered under its index, of the class asked for, finished or not. */
  lemma ReferenceRep(nodes: seq<Node>, tab: seq<Ptr>, c: Table, i: nat, m: byte)
    requires TableRep(nodes, tab, c.objects) && i < |tab|
    ensures Resolve(c, i, m).Some? <==> NodeMarker(nodes[tab[i]]) == m
    ensures Resolve(c, i, m).Some? ==> Rep(nodes, tab, Busy(tab, c.objects), tab[i], Resolve(c, i, m).value)
  {
    assert SlotRep(nodes, tab, Busy(tab, c.objects), tab[i], c.objects[i]);
    if c.objects[i].Done? {
      RepLive(nodes, tab, Busy(tab, c.objects), tab[i], c.objects[i].item);
    }
  }

  /** Pointers and values go into their maps at the same place. */
  lemma PutRep(nodes: seq<Node>, tab: seq<Ptr>, busy: set<Ptr>, ps: Props<Ptr>, xs: Props<Item>, k: Text, p: Ptr,
               x: Item)
    requires ps.names == xs.names && RepSeq(nodes, tab, busy, ps.values, xs.values) && Rep(nodes, tab, busy, p, x)
    ensures Put(ps, k, p).names == Put(xs, k, x).names
    ensures RepSeq(nodes, tab, busy, Put(ps, k, p).values, Put(xs, k, x).values)
  {
    hide Rep;
  }

  // ----- Trees -----

  /** Unfolding the graph from `p` gives the finite tree `x`. */
  predicate Unfolds(nodes: seq<Node>, p: Ptr, x: Item)
    decreases x
  {
    p < |nodes| &&
    match x
    case Array(a, d) =>
      nodes[p].ArrayNode? && nodes[p].assoc.names == a.names && UnfoldsSeq(nodes, nodes[p].assoc.values, a.values)
      && UnfoldsSeq(nodes, nodes[p].dense, d)
    case Object(t, s, d, k) =>
      nodes[p].ObjectNode? && nodes[p].traits == t && nodes[p].node == k
      && nodes[p].sealed.names == s.names && UnfoldsSeq(nodes, nodes[p].sealed.values, s.values)
      && nodes[p].dyn.names == d.names && UnfoldsSeq(nodes, nodes[p].dyn.values, d.values)
    case Vector(t, f, v) =>
      nodes[p].VectorNode? && nodes[p].typeName == t && nodes[p].fixed == f && UnfoldsSeq(nodes, nodes[p].values, v)
    case Loop(_) => false
    case _ => nodes[p] == Leaf(x)
  }

  predicate UnfoldsSeq(nodes: seq<Node>, ps: seq<Ptr>, xs: seq<Item>)
    decreases xs
  {
    |ps| == |xs| && forall i :: 0 <= i < |xs| ==> Unfolds(nodes, ps[i], xs[i])
  }

  /** No pointer back into an open container anywhere. */
  predicate LoopFree(x: Item)
    decreases x
  {
    match x
    case Loop(_) => false
    case Array(p, d) => LoopFreeSeq(p.values) && LoopFreeSeq(d)
    case Object(_, s, d, _) => LoopFreeSeq(s.values) && LoopFreeSeq(d.values)
    case Vector(_, _, v) => LoopFreeSeq(v)
    case _ => true
  }

  predicate LoopFreeSeq(xs: seq<Item>)
    decreases xs
  {
    forall i :: 0 <= i < |xs| ==> LoopFree(xs[i])
  }

  /** `y` is `x` with every `Loop(i)` replaced by a tree that the pointer registered `i`-th unfolds to. */
  predicate Closes(nodes: seq<Node>, tab: seq<Ptr>, x: Item, y: Item)
    decreases x
  {
    match x
    case Loop(i) => i < |tab| && Unfolds(nodes, tab[i], y)
    case Array(a, d) =>
      y.Array? && y.assoc.names == a.names && ClosesSeq(nodes, tab, a.values, y.assoc.values)
      && ClosesSeq(nodes, tab, d, y.dense)
    case Object(t, s, d, k) =>
      y.Object? && y.traits == t && y.node == k
      && y.sealed.names == s.names && ClosesSeq(nodes, tab, s.values, y.sealed.values)
      && y.dyn.names == d.names && ClosesSeq(nodes, tab, d.values, y.dyn.values)
    case Vector(t, f, v) => y.Vector? && y.typeName == t && y.fixed == f && ClosesSeq(nodes, tab, v, y.values)
    case _ => y == x
  }

  predicate ClosesSeq(nodes: seq<Node>, tab: seq<Ptr>, xs: seq<Item>, ys: seq<Item>)
    decreases xs
  {
    |xs| == |ys| && forall i :: 0 <= i < |xs| ==> Closes(nodes, tab, xs[i], ys[i])
  }

  /**
    What the graph under a pointer unfolds to, if it unfolds to anything: exactly the value
    the pointer stands for, with what each `Loop` leads to put in its place.
   */
  lemma {:induction false} UnfoldsIff(nodes: seq<Node>, tab: seq<Ptr>, busy: set<Ptr>, p: Ptr, x: Item, y: Item)
    requires Rep(nodes, tab, busy, p, x)
    ensures Unfolds(nodes, p, y) <==> Closes(nodes, tab, x, y)
    decreases x
  {
    if Unfolds(nodes, p, y) || Closes(nodes, tab, x, y) {
      match x
      case Array(a, d) =>
        UnfoldsSeqIff(nodes, tab, busy, nodes[p].assoc.values, a.values, y.assoc.values);
        UnfoldsSeqIff(nodes, tab, busy, nodes[p].dense, d, y.dense);
      case Object(_, s, d, _) =>
        UnfoldsSeqIff(nodes, tab, busy, nodes[p].sealed.values, s.values, y.sealed.values);
        UnfoldsSeqIff(nodes, tab, busy, nodes[p].dyn.values, d.values, y.dyn.values);
      case Vector(_, _, v) => UnfoldsSeqIff(nodes, tab, busy, nodes[p].values, v, y.values);
      case _ =>
    }
  }

  lemma {:induction false} UnfoldsSeqIff(nodes: seq<Node>, tab: seq<Ptr>, busy: set<Ptr>, ps: seq<Ptr>, xs: seq<Item>,
                                         ys: seq<Item>)
    requires RepSeq(nodes, tab, busy, ps, xs)
    ensures UnfoldsSeq(nodes, ps, ys) <==> ClosesSeq(nodes, tab, xs, ys)
    decreases xs
  {
    if |xs| == |ys| {
      forall i | 0 <= i < |xs| ensures Unfolds(nodes, ps[i], ys[i]) <==> Closes(nodes, tab, xs[i], ys[i]) {
        UnfoldsIff(nodes, tab, busy, ps[i], xs[i], ys[i]);
      }
    }
  }

  /** Without loops there is nothing to replace. */
  lemma {:induction false} ClosesLoopFree(nodes: seq<Node>, tab: seq<Ptr>, x: Item)
    requires LoopFree(x)
    ensures Closes(nodes, tab, x, x)
    decreases x
  {
    match x
    case Array(a, d) => ClosesLoopFreeSeq(nodes, tab, a.values); ClosesLoopFreeSeq(nodes, tab, d);
    case Object(_, s, d, _) => ClosesLoopFreeSeq(nodes, tab, s.values); ClosesLoopFreeSeq(nodes, tab, d.values);
    case Vector(_, _, v) => ClosesLoopFreeSeq(nodes, tab, v);
    case _ =>
  }

  lemma {:induction false} ClosesLoopFreeSeq(nodes: seq<Node>, tab: seq<Ptr>, xs: seq<Item>)
    requires LoopFreeSeq(xs)
    ensures ClosesSeq(nodes, tab, xs, xs)
    decreases xs
  {
    forall i | 0 <= i < |xs| ensures Closes(nodes, tab, xs[i], xs[i]) { ClosesLoopFree(nodes, tab, xs[i]); }
  }

  /** Only trees are unfolded to. */
  lemma {:induction false} UnfoldsLoopFree(nodes: seq<Node>, p: Ptr, x: Item)
    requires Unfolds(nodes, p, x)
    ensures LoopFree(x)
    decreases x
  {
    match x
    case Array(a, d) =>
      UnfoldsLoopFreeSeq(nodes, nodes[p].assoc.values, a.values);
      UnfoldsLoopFreeSeq(nodes, nodes[p].dense, d);
    case Object(_, s, d, _) =>
      UnfoldsLoopFreeSeq(nodes, nodes[p].sealed.values, s.values);
      UnfoldsLoopFreeSeq(nodes, nodes[p].dyn.values, d.values);
    case Vector(_, _, v) => UnfoldsLoopFreeSeq(nodes, nodes[p].values, v);
    case _ =>
  }

  lemma {:induction false} UnfoldsLoopFreeSeq(nodes: seq<Node>, ps: seq<Ptr>, xs: seq<Item>)
    requires UnfoldsSeq(nodes, ps, xs)
    ensures LoopFreeSeq(xs)
    decreases xs
  {
    forall i | 0 <= i < |xs| ensures LoopFree(xs[i]) { UnfoldsLoopFree(nodes, ps[i], xs[i]); }
  }

  /** A graph unfolds to the very value its pointer stands for exactly when that value has no loops. */
  lemma RepUnfolds(nodes: seq<Node>, tab: seq<Ptr>, busy: set<Ptr>, p: Ptr, x: Item)
    requires Rep(nodes, tab, busy, p, x)
    ensures Unfolds(nodes, p, x) <==> LoopFree(x)
  {
    UnfoldsIff(nodes, tab, busy, p, x, x);
    if LoopFree(x) { ClosesLoopFree(nodes, tab, x); }
    if Unfolds(nodes, p, x) { UnfoldsLoopFree(nodes, p, x); }
  }

  lemma RepUnfoldsSeq(nodes: seq<Node>, tab: seq<Ptr>, busy: set<Ptr>, ps: seq<Ptr>, xs: seq<Item>)
    requires RepSeq(nodes, tab, busy, ps, xs) && LoopFreeSeq(xs)
    ensures UnfoldsSeq(nodes, ps, xs)
  {
    UnfoldsSeqIff(nodes, tab, busy, ps, xs, xs);
    ClosesLoopFreeSeq(nodes, tab, xs);
  }

  /** A graph unfolds to at most one tree. */
  lemma {:induction false} UnfoldsUnique(nodes: seq<Node>, p: Ptr, x: Item, y: Item)
    requires Unfolds(nodes, p, x) && Unfolds(nodes, p, y)
    ensures x == y
    decreases x
  {
    match x
    case Array(a, d) =>
      UnfoldsUniqueSeq(nodes, nodes[p].assoc.values, a.values, y.assoc.values);
      UnfoldsUniqueSeq(nodes, nodes[p].dense, d, y.dense);
    case Object(_, s, d, _) =>
      UnfoldsUniqueSeq(nodes, nodes[p].sealed.values, s.values, y.sealed.values);
      UnfoldsUniqueSeq(nodes, nodes[p].dyn.values, d.values, y.dyn.values);
    case Vector(_, _, v) => UnfoldsUniqueSeq(nodes, nodes[p].values, v, y.values);
    case _ =>
  }

  lemma {:induction false} UnfoldsUniqueSeq(nodes: seq<Node>, ps: seq<Ptr>, xs: seq<Item>, ys: seq<Item>)
    requires UnfoldsSeq(nodes, ps, xs) && UnfoldsSeq(nodes, ps, ys)
    ensures xs == ys
    decreases xs
  {
    forall i | 0 <= i < |xs| ensures xs[i] == ys[i] { UnfoldsUnique(nodes, ps[i], xs[i], ys[i]); }
  }
}
