/** Equality of items whose parts are shared: pointers, shallow copies and deep copies. */
module Sharing {
  import opened Words
  import opened Names
  import opened Items
  import opened Encoder
  import opened Invariant
  import opened Equality
  import opened Heap

  // ----- Equality on pointers -----

  /** Every pointer is live and leads to a node of lower rank, so following pointers comes to an end. */
  predicate Acyclic(nodes: seq<Node>, rank: seq<nat>) {
    |rank| == |nodes| && forall p :: 0 <= p < |nodes| ==> Leads(nodes[p], rank, rank[p])
  }

  predicate Leads(n: Node, rank: seq<nat>, d: nat) {
    match n
    case Leaf(x) => !Container(x) && !x.Loop?
    case ArrayNode(a, e) => Below(a.values, rank, d) && Below(e, rank, d)
    case ObjectNode(_, s, e, _) => Below(s.values, rank, d) && Below(e.values, rank, d)
    case VectorNode(_, _, v) => Below(v, rank, d)
  }

  predicate Below(ps: seq<Ptr>, rank: seq<nat>, d: nat) {
    forall i :: 0 <= i < |ps| ==> ps[i] < |rank| && rank[ps[i]] < d
  }

  /** What a comparison comes to. */
  datatype Outcome = Same | Different | Exception

  function Of(b: bool): Outcome {
    if b then Same else Different
  }

  /** `a && b`, where `b` is evaluated only if `a` is true. */
  function And(a: Outcome, b: Outcome): Outcome {
    if a.Same? then b else a
  }

  /** `AmfItemPtr::operator==`, as the source has it: one pointer, or equal items behind two. */
  function ComparePtr(nodes: seq<Node>, rank: seq<nat>, p: Ptr, q: Ptr): Outcome
    requires Acyclic(nodes, rank) && p < |nodes| && q < |nodes|
    decreases rank[p], 2
  {
    if p == q then Same else CompareItem(nodes, rank, p, q)
  }

  /** The `operator==` of the item classes; two externalizable objects end in a call of the missing externalizer. */
  function CompareItem(nodes: seq<Node>, rank: seq<nat>, p: Ptr, q: Ptr): Outcome
    requires Acyclic(nodes, rank) && p < |nodes| && q < |nodes|
    decreases rank[p], 1
  {
    var d, e := rank[p], rank[q];
    match (nodes[p], nodes[q])
    case (Leaf(x), Leaf(y)) => Of(SameLeaf(x, y))
    case (ArrayNode(a, v), ArrayNode(b, w)) =>
      And(ComparePtrs(nodes, rank, v, w, d, e), CompareMaps(nodes, rank, a, b, d, e))
    case (ObjectNode(t, a, v, _), ObjectNode(u, b, w, _)) =>
      And(Of(t == u),
          And(if t.dynamic then CompareMaps(nodes, rank, v, w, d, e) else Same,
              And(CompareMaps(nodes, rank, a, b, d, e), if t.externalizable then Exception else Same)))
    case (VectorNode(t, f, v), VectorNode(u, g, w)) =>
      And(Of(f == g), And(Of(t == u), ComparePtrs(nodes, rank, v, w, d, e)))
    case _ => Different
  }

  /** `std::vector::operator==`: sizes first, then the elements in order. */
  function ComparePtrs(nodes: seq<Node>, rank: seq<nat>, ps: seq<Ptr>, qs: seq<Ptr>, d: nat, e: nat): Outcome
    requires Acyclic(nodes, rank) && Below(ps, rank, d) && Below(qs, rank, e)
    decreases d, 0, |ps|
  {
    if |ps| != |qs| then Different
    else if ps == [] then Same
    else And(ComparePtr(nodes, rank, ps[0], qs[0]), ComparePtrs(nodes, rank, ps[1..], qs[1..], d, e))
  }

  /** `std::map::operator==`: sizes first, then the entries in order, name before value. */
  function CompareMaps(nodes: seq<Node>, rank: seq<nat>, a: Props<Ptr>, b: Props<Ptr>, d: nat, e: nat): Outcome
    requires Acyclic(nodes, rank) && Below(a.values, rank, d) && Below(b.values, rank, e)
    decreases d, 0, |a.values| + 1
  {
    if |a.names| != |b.names| then Different
    else CompareEntries(nodes, rank, a.names, a.values, b.names, b.values, d, e)
  }

  function CompareEntries(nodes: seq<Node>, rank: seq<nat>, m: seq<Text>, ps: seq<Ptr>, n: seq<Text>, qs: seq<Ptr>,
                          d: nat, e: nat): Outcome
    requires Acyclic(nodes, rank) && Below(ps, rank, d) && Below(qs, rank, e) && |m| == |ps| == |n| == |qs|
    decreases d, 0, |ps|
  {
    if m == [] then Same
    else
      And(Of(m[0] == n[0]),
          And(ComparePtr(nodes, rank, ps[0], qs[0]),
              CompareEntries(nodes, rank, m[1..], ps[1..], n[1..], qs[1..], d, e)))
  }

  /** Leaves compare by what they hold, doubles by IEEE 754. */
  predicate SameLeaf(x: Item, y: Item) {
    if x.Double? && y.Double? then SameDouble(x.memory, y.memory) else x == y
  }

  /** What comparing items comes to. */
  function Verdict(x: Item, y: Item): Outcome {
    if Raises(x, y) then Exception else Of(Eq(x, y))
  }

  /** The tree behind a pointer. */
  function Tree(nodes: seq<Node>, rank: seq<nat>, p: Ptr): Item
    requires Acyclic(nodes, rank) && p < |nodes|
    decreases rank[p], 1
  {
    match nodes[p]
    case Leaf(x) => x
    case ArrayNode(a, v) =>
      Array(Props(a.names, Trees(nodes, rank, a.values, rank[p])), Trees(nodes, rank, v, rank[p]))
    case ObjectNode(t, a, v, k) =>
      Object(t, Props(a.names, Trees(nodes, rank, a.values, rank[p])),
             Props(v.names, Trees(nodes, rank, v.values, rank[p])), k)
    case VectorNode(t, f, v) => Vector(t, f, Trees(nodes, rank, v, rank[p]))
  }

  function Trees(nodes: seq<Node>, rank: seq<nat>, ps: seq<Ptr>, d: nat): (r: seq<Item>)
    requires Acyclic(nodes, rank) && Below(ps, rank, d)
    ensures |r| == |ps|
    decreases d, 0
  {
    seq(|ps|, i requires 0 <= i < |ps| => Tree(nodes, rank, ps[i]))
  }

  /** Every pointer into an acyclic graph unfolds, and to this tree. */
  lemma {:induction false} AcyclicUnfolds(nodes: seq<Node>, rank: seq<nat>, p: Ptr)
    requires Acyclic(nodes, rank) && p < |nodes|
    ensures Unfolds(nodes, p, Tree(nodes, rank, p))
    decreases rank[p], 1
  {
    match nodes[p]
    case Leaf(_) => assert Leads(nodes[p], rank, rank[p]);
    case ArrayNode(a, v) =>
      AcyclicUnfoldsSeq(nodes, rank, a.values, rank[p]);
      AcyclicUnfoldsSeq(nodes, rank, v, rank[p]);
    case ObjectNode(_, a, v, _) =>
      AcyclicUnfoldsSeq(nodes, rank, a.values, rank[p]);
      AcyclicUnfoldsSeq(nodes, rank, v.values, rank[p]);
    case VectorNode(_, _, v) => AcyclicUnfoldsSeq(nodes, rank, v, rank[p]);
  }

  lemma {:induction false} AcyclicUnfoldsSeq(nodes: seq<Node>, rank: seq<nat>, ps: seq<Ptr>, d: nat)
    requires Acyclic(nodes, rank) && Below(ps, rank, d)
    ensures UnfoldsSeq(nodes, ps, Trees(nodes, rank, ps, d))
    decreases d, 0
  {
    forall i | 0 <= i < |ps| ensures Unfolds(nodes, ps[i], Trees(nodes, rank, ps, d)[i]) {
      AcyclicUnfolds(nodes, rank, ps[i]);
    }
  }

  /**
    Comparing pointers, shortcut included, is exactly comparing the items they unfold to,
    exceptions included: at whatever node the shortcut is taken, all it ever decides is what
    comes of a shared NaN or a shared externalizable object.
   */
  lemma {:induction false} PointerEquality(nodes: seq<Node>, rank: seq<nat>, p: Ptr, q: Ptr, x: Item, y: Item)
    requires Acyclic(nodes, rank) && Labelled(nodes) && Unfolds(nodes, p, x) && Unfolds(nodes, q, y)
    ensures ComparePtr(nodes, rank, p, q) == Verdict(x, y)
    decreases rank[p], 2
  {
    if p == q {
      UnfoldsUnique(nodes, p, x, y);
      EqReflexive(x);
      RaisesNotEq(x, x);
    } else {
      ItemEquality(nodes, rank, p, q, x, y);
    }
  }

  lemma {:induction false} ItemEquality(nodes: seq<Node>, rank: seq<nat>, p: Ptr, q: Ptr, x: Item, y: Item)
    requires Acyclic(nodes, rank) && Labelled(nodes) && Unfolds(nodes, p, x) && Unfolds(nodes, q, y) && p != q
    ensures CompareItem(nodes, rank, p, q) == Verdict(x, y)
    decreases rank[p], 1
  {
    var d, e := rank[p], rank[q];
    match (nodes[p], nodes[q])
    case (ArrayNode(a, v), ArrayNode(b, w)) =>
      PointersEquality(nodes, rank, v, w, d, e, x.dense, y.dense);
      MapsEquality(nodes, rank, a, b, d, e, x.assoc, y.assoc);
    case (ObjectNode(t, a, v, _), ObjectNode(u, b, w, _)) =>
      if t.dynamic { MapsEquality(nodes, rank, v, w, d, e, x.dyn, y.dyn); }
      MapsEquality(nodes, rank, a, b, d, e, x.sealed, y.sealed);
      if x == y {
        EqReflexiveSeq(x.sealed.values);
        EqReflexiveSeq(x.dyn.values);
        RaisesPropsNotEq(x.sealed, y.sealed);
        RaisesPropsNotEq(x.dyn, y.dyn);
      }
    case (VectorNode(_, _, v), VectorNode(_, _, w)) =>
      PointersEquality(nodes, rank, v, w, d, e, x.values, y.values);
    case _ =>
  }

  lemma {:induction false} PointersEquality(nodes: seq<Node>, rank: seq<nat>, ps: seq<Ptr>, qs: seq<Ptr>, d: nat,
                                            e: nat, xs: seq<Item>, ys: seq<Item>)
    requires Acyclic(nodes, rank) && Labelled(nodes) && Below(ps, rank, d) && Below(qs, rank, e)
    requires UnfoldsSeq(nodes, ps, xs) && UnfoldsSeq(nodes, qs, ys)
    ensures ComparePtrs(nodes, rank, ps, qs, d, e) == if RaisesSeq(xs, ys) then Exception else Of(EqSeq(xs, ys))
    decreases d, 0, |ps|
  {
    hide Eq, Raises, Labelled, Unfolds;
    if |ps| == |qs| && ps != [] {
      PointerEquality(nodes, rank, ps[0], qs[0], xs[0], ys[0]);
      PointersEquality(nodes, rank, ps[1..], qs[1..], d, e, xs[1..], ys[1..]);
      RaisesNotEq(xs[0], ys[0]);
      EqSeqSplit(xs, ys);
    }
  }

  lemma {:induction false} MapsEquality(nodes: seq<Node>, rank: seq<nat>, a: Props<Ptr>, b: Props<Ptr>, d: nat,
                                        e: nat, x: Props<Item>, y: Props<Item>)
    requires Acyclic(nodes, rank) && Labelled(nodes) && Below(a.values, rank, d) && Below(b.values, rank, e)
    requires a.names == x.names && UnfoldsSeq(nodes, a.values, x.values)
    requires b.names == y.names && UnfoldsSeq(nodes, b.values, y.values)
    ensures CompareMaps(nodes, rank, a, b, d, e) == if RaisesProps(x, y) then Exception else Of(EqProps(x, y))
    decreases d, 0, |a.values| + 1
  {
    if |a.names| == |b.names| {
      EntriesEquality(nodes, rank, a.names, a.values, b.names, b.values, d, e, x.values, y.values);
    }
  }

  lemma {:induction false} EntriesEquality(nodes: seq<Node>, rank: seq<nat>, m: seq<Text>, ps: seq<Ptr>, n: seq<Text>,
                                           qs: seq<Ptr>, d: nat, e: nat, xs: seq<Item>, ys: seq<Item>)
    requires Acyclic(nodes, rank) && Labelled(nodes) && Below(ps, rank, d) && Below(qs, rank, e)
    requires |m| == |ps| == |n| == |qs| && UnfoldsSeq(nodes, ps, xs) && UnfoldsSeq(nodes, qs, ys)
    ensures CompareEntries(nodes, rank, m, ps, n, qs, d, e) ==
      if RaisesEntries(m, xs, n, ys) then Exception else Of(m == n && EqSeq(xs, ys))
    decreases d, 0, |ps|
  {
    hide Eq, Raises, Labelled, Unfolds;
    if m != [] {
      PointerEquality(nodes, rank, ps[0], qs[0], xs[0], ys[0]);
      EntriesEquality(nodes, rank, m[1..], ps[1..], n[1..], qs[1..], d, e, xs[1..], ys[1..]);
      RaisesNotEq(xs[0], ys[0]);
      EqSeqSplit(xs, ys);
      assert m == [m[0]] + m[1..] && n == [n[0]] + n[1..];
    }
  }

  // ----- Copies -----

  /** No NaN and no externalizable object in what equality compares. */
  predicate Comparable(x: Item)
    decreases x
  {
    match x
    case Double(m, _) => !IsNaN(m)
    case Array(p, d) => ComparableSeq(p.values) && ComparableSeq(d)
    case Object(t, s, d, _) => !t.externalizable && ComparableSeq(s.values) && (t.dynamic ==> ComparableSeq(d.values))
    case Vector(_, _, v) => ComparableSeq(v)
    case _ => true
  }

  predicate ComparableSeq(xs: seq<Item>)
    decreases xs
  {
    forall i :: 0 <= i < |xs| ==> Comparable(xs[i])
  }

  /** A copy of everything, down to the last double: `k` is how far the nodes are apart. */
  function DeepCopy(x: Item, k: nat): Item
    decreases x
  {
    match x
    case Double(m, i) => Double(m, i + k)
    case Array(p, d) => Array(Props(p.names, DeepCopySeq(p.values, k)), DeepCopySeq(d, k))
    case Object(t, s, d, i) =>
      Object(t, Props(s.names, DeepCopySeq(s.values, k)), Props(d.names, DeepCopySeq(d.values, k)), i + k)
    case Vector(t, f, v) => Vector(t, f, DeepCopySeq(v, k))
    case _ => x
  }

  function DeepCopySeq(xs: seq<Item>, k: nat): (r: seq<Item>)
    ensures |r| == |xs|
    decreases xs
  {
    seq(|xs|, i requires 0 <= i < |xs| => DeepCopy(xs[i], k))
  }

  /** A copy that shares no node with the original is equal to it exactly when nothing in it only equals itself. */
  lemma {:induction false} DeepCopyEqualIff(x: Item, k: nat)
    requires k > 0
    ensures Eq(x, DeepCopy(x, k)) <==> Comparable(x)
    decreases x
  {
    match x
    case Array(p, d) => DeepCopyEqualSeqIff(p.values, k); DeepCopyEqualSeqIff(d, k);
    case Object(t, s, d, _) => DeepCopyEqualSeqIff(s.values, k); DeepCopyEqualSeqIff(d.values, k);
    case Vector(_, _, v) => DeepCopyEqualSeqIff(v, k);
    case _ =>
  }

  lemma {:induction false} DeepCopyEqualSeqIff(xs: seq<Item>, k: nat)
    requires k > 0
    ensures EqSeq(xs, DeepCopySeq(xs, k)) <==> ComparableSeq(xs)
    decreases xs
  {
    forall i | 0 <= i < |xs| ensures Eq(xs[i], DeepCopy(xs[i], k)) <==> Comparable(xs[i]) {
      DeepCopyEqualIff(xs[i], k);
    }
    assert forall i :: 0 <= i < |xs| ==> DeepCopySeq(xs, k)[i] == DeepCopy(xs[i], k);
  }

  lemma Registered(x: Item, c: Context)
    requires Tabled(x) && Encode(x, c, Compress).Wrote?
    ensures var k, r := ObjectIndex(c, x, Compress), Encode(x, c, Compress);
      k < |r.ctx.objects| && Eq(r.ctx.objects[k], x)
  {
    hide EncodeBody, Eq;
    EqReflexive(x);
    assert ObjectIndex(c, x, Compress) == |c.objects| ==> AddObject(c, x).objects[|c.objects|] == x;
  }

  lemma KnownEncoded(x: Item, c: Context)
    requires Tabled(x) && !External(x) && !LookupRaises(c, x, Compress) && ObjectIndex(c, x, Compress) < |c.objects|
    ensures var i := ObjectIndex(c, x, Compress);
      Encode(x, c, Compress) == Wrote([Marker(x), U8(2 * i)], c, i < 64)
  {
    hide EncodeBody, LookupRaises, ObjectIndex, Marker;
  }

  /**
    An item sent before is sent as a reference to the same entry from then on, even with a
    NaN in it: the copy in the table shares its nodes.
   */
  lemma SentAgain(x: Item, c: Context, later: Context)
    requires Tabled(x) && Encode(x, c, Compress).Wrote? && Extends(Encode(x, c, Compress).ctx, later)
    requires Consistent(later, Compress)
    ensures var i := ObjectIndex(later, x, Compress);
      i == ObjectIndex(c, x, Compress) < |later.objects| && Eq(later.objects[i], x)
      && Encode(x, later, Compress) == Wrote([Marker(x), U8(2 * i)], later, i < 64)
  {
    hide Encode, Eq, Consistent, ObjectIndex, LookupRaises, Marker;
    Registered(x, c);
    KnownIsFound(later, ObjectIndex(c, x, Compress), x);
    KnownEncoded(x, later);
  }
}
