/** The store of nodes that a stream of items arrives in. */
module Store {
  import opened Words
  import opened Names
  import opened Items
  import opened Encoder
  import opened Equality
  import opened Canonical
  import opened Invariant
  import opened Lockstep
  import opened Exceptions
  import opened Heap
  import opened Sharing

  // ----- Acyclic stores -----

  /** Nesting depth, unserialized parts included. */
  function Height(x: Item): nat
    decreases x
  {
    match x
    case Array(p, d) => 1 + Max(HeightSeq(p.values), HeightSeq(d))
    case Object(_, s, d, _) => 1 + Max(HeightSeq(s.values), HeightSeq(d.values))
    case Vector(_, _, v) => 1 + HeightSeq(v)
    case _ => 0
  }

  function HeightSeq(xs: seq<Item>): (r: nat)
    ensures forall i :: 0 <= i < |xs| ==> Height(xs[i]) <= r
    decreases xs
  {
    if xs == [] then 0 else Max(Height(xs[0]), HeightSeq(xs[1..]))
  }

  ghost predicate HasTree(nodes: seq<Node>, p: Ptr) {
    exists x :: Unfolds(nodes, p, x)
  }

  /** Every pointer into the store unfolds to a finite tree. */
  ghost predicate AllUnfold(nodes: seq<Node>) {
    forall p :: 0 <= p < |nodes| ==> HasTree(nodes, p)
  }

  /** The tree that `p` unfolds to. */
  ghost function Unfolding(nodes: seq<Node>, p: Ptr): (x: Item)
    requires AllUnfold(nodes) && p < |nodes|
    ensures Unfolds(nodes, p, x)
  {
    assert HasTree(nodes, p);
    var x :| Unfolds(nodes, p, x);
    x
  }

  ghost function Heights(nodes: seq<Node>): (r: seq<nat>)
    requires AllUnfold(nodes)
    ensures |r| == |nodes|
  {
    seq(|nodes|, p requires 0 <= p < |nodes| => Height(Unfolding(nodes, p)))
  }

  lemma MembersBelow(nodes: seq<Node>, ps: seq<Ptr>, xs: seq<Item>, d: nat)
    requires AllUnfold(nodes) && UnfoldsSeq(nodes, ps, xs) && HeightSeq(xs) < d
    ensures Below(ps, Heights(nodes), d)
  {
    hide AllUnfold, Unfolds;
    forall i | 0 <= i < |ps| ensures ps[i] < |nodes| && Heights(nodes)[ps[i]] < d {
      assert Unfolds(nodes, ps[i], xs[i]);
      UnfoldsLive(nodes, ps[i], xs[i]);
      UnfoldsUnique(nodes, ps[i], xs[i], Unfolding(nodes, ps[i]));
    }
  }

  lemma UnfoldsLive(nodes: seq<Node>, p: Ptr, x: Item)
    requires Unfolds(nodes, p, x)
    ensures p < |nodes|
  {
  }

  /** A store is acyclic exactly if every pointer into it unfolds to a tree. */
  lemma AcyclicIff(nodes: seq<Node>)
    ensures (exists rank :: Acyclic(nodes, rank)) <==> AllUnfold(nodes)
  {
    hide Leads, Unfolds;
    if rank :| Acyclic(nodes, rank) {
      forall p | 0 <= p < |nodes| ensures HasTree(nodes, p) {
        AcyclicUnfolds(nodes, rank, p);
      }
    }
    if AllUnfold(nodes) {
      forall p | 0 <= p < |nodes| ensures Leads(nodes[p], Heights(nodes), Heights(nodes)[p]) {
        UnfoldingLeads(nodes, p);
      }
      assert Acyclic(nodes, Heights(nodes));
    }
  }

  lemma UnfoldingLeads(nodes: seq<Node>, p: Ptr)
    requires AllUnfold(nodes) && p < |nodes|
    ensures Leads(nodes[p], Heights(nodes), Heights(nodes)[p])
  {
    hide AllUnfold, Below, UnfoldsSeq, HeightSeq;
    var x := Unfolding(nodes, p);
    var d := Height(x);
    match nodes[p]
    case ArrayNode(a, v) =>
      MembersBelow(nodes, a.values, x.assoc.values, d);
      MembersBelow(nodes, v, x.dense, d);
    case ObjectNode(_, a, v, _) =>
      MembersBelow(nodes, a.values, x.sealed.values, d);
      MembersBelow(nodes, v.values, x.dyn.values, d);
    case VectorNode(_, _, v) => MembersBelow(nodes, v, x.values, d);
    case Leaf(_) =>
  }

  // ----- What the store of a stream is -----

  lemma {:induction false} PartsWellFormed(x: Item)
    requires WellFormed(x)
    ensures WellFormedSeq(Parts(x))
    decreases x
  {
    match x
    case Array(p, d) => PartsWellFormedSeq(p.values); PartsWellFormedSeq(d);
    case Object(t, s, d, _) =>
      PartsWellFormedPick(Unique(t.attributes), s);
      if t.dynamic { PartsWellFormedSeq(d.values); }
    case Vector(_, _, v) => PartsWellFormedSeq(v);
    case _ =>
  }

  lemma {:induction false} PartsWellFormedSeq(xs: seq<Item>)
    requires WellFormedSeq(xs)
    ensures WellFormedSeq(PartsSeq(xs))
    decreases xs
  {
    hide WellFormed, Parts;
    if xs != [] {
      PartsWellFormed(xs[0]);
      PartsWellFormedSeq(xs[1..]);
    }
  }

  lemma {:induction false} PartsWellFormedPick(names: seq<Text>, p: Props<Item>)
    requires forall i :: 0 <= i < |p.names| && p.names[i] in names ==> WellFormed(p.values[i])
    ensures WellFormedSeq(PartsPick(names, p))
    decreases p, |names|
  {
    hide WellFormed, Parts;
    if names != [] {
      if Holds(p.names, names[0]) { PartsWellFormed(p.values[Rank(p.names, names[0])]); }
      PartsWellFormedPick(names[1..], p);
    }
  }

  /** The object table of a stream: its entries are well-formed parts of what was sent, and every part equals one. */
  lemma StreamEntries(xs: seq<Item>)
    requires WellFormedSeq(xs) && EncodeStream(xs).Wrote?
    ensures var table := EncodeStream(xs).ctx.objects;
      WellFormedSeq(table) && (forall o :: o in table ==> o in PartsSeq(xs)) && Vouched(table, PartsSeq(xs))
  {
    hide EncodeSeq, WellFormed, Vouched, PartsSeq;
    SeqSifts(xs, EMPTY, Compress, {}, DepthSeq(xs));
    PartsWellFormedSeq(xs);
    var table, ps := EncodeStream(xs).ctx.objects, PartsSeq(xs);
    forall i | 0 <= i < |table| ensures WellFormed(table[i]) {
      assert table[i] in ps;
      var j :| 0 <= j < |ps| && ps[j] == table[i];
    }
  }

  /** Every registered pointer unfolds to the canonical form of the encoder's entry. */
  lemma EntryUnfolds(c: Context, nodes: seq<Node>, tab: seq<Ptr>, i: nat)
    requires WellFormedSeq(c.objects) && TableRep(nodes, tab, View(c, {}).objects) && i < |tab|
    ensures i < |c.objects| && tab[i] < |nodes| && Unfolds(nodes, tab[i], Canon(c.objects[i]))
  {
    hide WellFormed, Canon, Rep, Unfolds, LoopFree;
    var slots := View(c, {}).objects;
    assert SlotRep(nodes, tab, Busy(tab, slots), tab[i], slots[i]);
    CanonLoopFree(c.objects[i]);
    RepUnfolds(nodes, tab, Busy(tab, slots), tab[i], Canon(c.objects[i]));
  }

  /** So the store is acyclic. */
  lemma StoreUnfolds(c: Context, nodes: seq<Node>, tab: seq<Ptr>, it: nat)
    requires WellFormedSeq(c.objects) && TableRep(nodes, tab, View(c, {}).objects) && Built(nodes, tab, it)
    ensures AllUnfold(nodes)
  {
    hide WellFormed, TableRep, Canon, View, Labelled;
    forall p | 0 <= p < |nodes| ensures HasTree(nodes, p) {
      assert BuiltNode(p, nodes[p], tab, it);
      if nodes[p].Leaf? {
        assert Unfolds(nodes, p, nodes[p].item);
      } else {
        var i :| 0 <= i < |tab| && tab[i] == p;
        EntryUnfolds(c, nodes, tab, i);
      }
    }
  }

  /** No two containers in the store unfold to the same tree. */
  ghost predicate OneEach(nodes: seq<Node>) {
    forall p, q, x :: (0 <= p < |nodes| && 0 <= q < |nodes| && !nodes[p].Leaf?
                       && Unfolds(nodes, p, x) && Unfolds(nodes, q, x)) ==> p == q
  }

  /** What is the same on arrival was equal when it was sent. */
  predicate Telling(ps: seq<Item>) {
    forall a, b :: a in ps && b in ps && Canon(a) == Canon(b) ==> Eq(a, b)
  }

  lemma TreeOfContainer(nodes: seq<Node>, p: Ptr, x: Item)
    requires Unfolds(nodes, p, x)
    ensures p < |nodes| && (nodes[p].Leaf? <==> !Container(x))
  {
  }

  /** A container is the node of an entry that arrives as its tree. */
  lemma EntryOf(c: Context, nodes: seq<Node>, tab: seq<Ptr>, it: nat, p: Ptr, x: Item) returns (i: nat)
    requires WellFormedSeq(c.objects) && TableRep(nodes, tab, View(c, {}).objects) && Built(nodes, tab, it)
    requires p < |nodes| && Unfolds(nodes, p, x) && Container(x)
    ensures i < |tab| == |c.objects| && tab[i] == p && Canon(c.objects[i]) == x
  {
    hide WellFormed, Canon, View, Labelled, Rep;
    assert BuiltNode(p, nodes[p], tab, it);
    i :| 0 <= i < |tab| && tab[i] == p;
    EntryUnfolds(c, nodes, tab, i);
    UnfoldsUnique(nodes, p, x, Canon(c.objects[i]));
  }

  lemma OneEntry(c: Context, i: nat, j: nat)
    requires Consistent(c, Compress) && i < |c.objects| && j < |c.objects| && Eq(c.objects[i], c.objects[j])
    ensures i == j
  {
    hide Eq;
    EqSymmetric(c.objects[i], c.objects[j]);
  }

  /** If what is the same on arrival is one node, it was sent as one entry. */
  lemma ToldApart(c: Context, nodes: seq<Node>, tab: seq<Ptr>, ps: seq<Item>, a: Item, b: Item)
    requires WellFormedSeq(c.objects) && TableRep(nodes, tab, View(c, {}).objects) && OneEach(nodes)
    requires WellFormedSeq(ps) && Vouched(c.objects, ps) && a in ps && b in ps && Canon(a) == Canon(b)
    ensures Eq(a, b)
  {
    hide WellFormed, Canon, View, TableRep, Rep, Eq;
    if Container(a) {
      var i := PartEntry(c, nodes, tab, ps, a);
      var j := PartEntry(c, nodes, tab, ps, b);
      CanonContainer(a);
      TreeOfContainer(nodes, tab[i], Canon(a));
      EqSymmetric(c.objects[i], a);
      EqTransitive(a, c.objects[i], b);
    } else {
      CanonLeaf(a, b);
      EqReflexive(a);
    }
  }

  lemma PartEntry(c: Context, nodes: seq<Node>, tab: seq<Ptr>, ps: seq<Item>, a: Item) returns (i: nat)
    requires WellFormedSeq(c.objects) && TableRep(nodes, tab, View(c, {}).objects)
    requires WellFormedSeq(ps) && Vouched(c.objects, ps) && a in ps
    ensures i < |tab| == |c.objects| && Eq(c.objects[i], a) && tab[i] < |nodes| && Unfolds(nodes, tab[i], Canon(a))
    ensures forall k :: 0 <= k < |tab| && tab[k] == tab[i] ==> k == i
  {
    hide WellFormed, Canon, View, Rep, Eq, Unfolds;
    var o :| o in c.objects && Eq(o, a);
    i :| 0 <= i < |c.objects| && c.objects[i] == o;
    EqCanon(o, a);
    EntryUnfolds(c, nodes, tab, i);
  }

  lemma CanonContainer(a: Item)
    ensures Container(Canon(a)) <==> Container(a)
  {
  }

  lemma CanonLeaf(a: Item, b: Item)
    requires !Container(a) && Canon(a) == Canon(b)
    ensures a == b
  {
  }

  /**
    Sharing, at any depth: each container arrives at one node exactly if none of the
    items sent, nor anything inside, differs from another only in what is not serialized.
   */
  lemma OneEachIff(xs: seq<Item>, nodes: seq<Node>, tab: seq<Ptr>, it: nat)
    requires WellFormedSeq(xs) && EncodeStream(xs).Wrote?
    requires TableRep(nodes, tab, View(EncodeStream(xs).ctx, {}).objects) && Built(nodes, tab, it)
    ensures OneEach(nodes) <==> Telling(PartsSeq(xs))
  {
    hide EncodeStream, WellFormed, TableRep, Canon, View, Labelled, PartsSeq, Eq, Unfolds, Vouched;
    PartsWellFormedSeq(xs);
    StreamEntries(xs);
    StreamInvariant(xs);
    var c, ps := EncodeStream(xs).ctx, PartsSeq(xs);
    if Telling(ps) {
      forall p, q, x | 0 <= p < |nodes| && 0 <= q < |nodes| && !nodes[p].Leaf?
                       && Unfolds(nodes, p, x) && Unfolds(nodes, q, x)
        ensures p == q
      {
        TreeOfContainer(nodes, p, x);
        var i := EntryOf(c, nodes, tab, it, p, x);
        var j := EntryOf(c, nodes, tab, it, q, x);
        assert c.objects[i] in ps && c.objects[j] in ps;
        OneEntry(c, i, j);
      }
    }
    if OneEach(nodes) {
      forall a, b | a in ps && b in ps && Canon(a) == Canon(b) ensures Eq(a, b) {
        ToldApart(c, nodes, tab, ps, a, b);
      }
    }
  }
}
