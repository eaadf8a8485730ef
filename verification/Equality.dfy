/** Laws of the deep equality that reference lookup and dictionaries rest on. */
module Equality {
  import opened Words
  import opened Names
  import opened Items

  // ----- What equality sees -----

  /**
    The node of a double only matters to a NaN, the sign of a zero does not, and dynamic
    properties only count on a dynamic object. An externalizable object is itself and no other.
   */
  function Seen(x: Item): Item
    decreases x
  {
    match x
    case Double(m, i) =>
      if IsNaN(m) then x else Double(if IsZero(m) then [0, 0, 0, 0, 0, 0, 0, 0] else m, 0)
    case Array(p, d) => Array(Props(p.names, SeenSeq(p.values)), SeenSeq(d))
    case Object(t, s, d, _) =>
      if t.externalizable then x
      else Object(t, Props(s.names, SeenSeq(s.values)),
                  if t.dynamic then Props(d.names, SeenSeq(d.values)) else NO_PROPS, 0)
    case Vector(t, f, v) => Vector(t, f, SeenSeq(v))
    case _ => x
  }

  function SeenSeq(xs: seq<Item>): (r: seq<Item>)
    ensures |r| == |xs|
    decreases xs
  {
    seq(|xs|, i requires 0 <= i < |xs| => Seen(xs[i]))
  }

  lemma DoubleIffSeen(m: Octets, i: nat, n: Octets, j: nat)
    ensures Eq(Double(m, i), Double(n, j)) <==> Seen(Double(m, i)) == Seen(Double(n, j))
  {
  }

  /** Two items are equal exactly if equality sees the same in them. */
  lemma {:induction false} EqIffSeen(x: Item, y: Item)
    ensures Eq(x, y) <==> Seen(x) == Seen(y)
    decreases x
  {
    hide IsNaN, IsZero, SameDouble;
    match (x, y)
    case (Double(m, i), Double(n, j)) => DoubleIffSeen(m, i, n, j);
    case (Array(p, d), Array(q, e)) =>
      EqIffSeenSeq(d, e);
      EqIffSeenSeq(p.values, q.values);
    case (Object(t, s, d, _), Object(u, r, e, _)) =>
      EqIffSeenSeq(s.values, r.values);
      EqIffSeenSeq(d.values, e.values);
    case (Vector(_, _, v), Vector(_, _, w)) => EqIffSeenSeq(v, w);
    case _ =>
  }

  lemma {:induction false} EqIffSeenSeq(xs: seq<Item>, ys: seq<Item>)
    ensures EqSeq(xs, ys) <==> SeenSeq(xs) == SeenSeq(ys)
    decreases xs
  {
    if |xs| == |ys| {
      forall i | 0 <= i < |xs| ensures Eq(xs[i], ys[i]) <==> SeenSeq(xs)[i] == SeenSeq(ys)[i] {
        EqIffSeen(xs[i], ys[i]);
      }
    }
  }

  // ----- An equivalence -----

  /** Equality is reflexive on all items: an item compares equal to whatever shares its nodes. */
  lemma EqReflexive(x: Item)
    ensures Eq(x, x)
  {
    EqIffSeen(x, x);
  }

  lemma EqReflexiveSeq(xs: seq<Item>)
    ensures EqSeq(xs, xs)
  {
    EqIffSeenSeq(xs, xs);
  }

  /** Equality is symmetric on all items. */
  lemma EqSymmetric(a: Item, b: Item)
    requires Eq(a, b)
    ensures Eq(b, a)
  {
    EqIffSeen(a, b);
    EqIffSeen(b, a);
  }

  lemma EqSymmetricSeq(xs: seq<Item>, ys: seq<Item>)
    requires EqSeq(xs, ys)
    ensures EqSeq(ys, xs)
  {
    EqIffSeenSeq(xs, ys);
    EqIffSeenSeq(ys, xs);
  }

  /** Equality is transitive on all items. */
  lemma EqTransitive(a: Item, b: Item, c: Item)
    requires Eq(a, b) && Eq(b, c)
    ensures Eq(a, c)
  {
    EqIffSeen(a, b);
    EqIffSeen(b, c);
    EqIffSeen(a, c);
  }

  lemma EqSeqSplit(xs: seq<Item>, ys: seq<Item>)
    requires |xs| == |ys| && xs != []
    ensures EqSeq(xs, ys) <==> Eq(xs[0], ys[0]) && EqSeq(xs[1..], ys[1..])
  {
    hide Eq;
    assert forall i :: 1 <= i < |xs| ==> xs[i] == xs[1..][i - 1] && ys[i] == ys[1..][i - 1];
    assert forall i :: 0 <= i < |xs| - 1 ==> xs[1..][i] == xs[i + 1] && ys[1..][i] == ys[i + 1];
  }

  /** Equal items are equal to the same items. */
  lemma EqIff(x: Item, y: Item, a: Item, b: Item)
    requires Eq(x, y) && Eq(a, b)
    ensures Eq(x, a) <==> Eq(y, b)
  {
    hide Eq;
    EqSymmetric(x, y);
    EqSymmetric(a, b);
    if Eq(x, a) {
      EqTransitive(y, x, a);
      EqTransitive(y, a, b);
    }
    if Eq(y, b) {
      EqTransitive(x, y, b);
      EqTransitive(x, b, a);
    }
  }

  lemma SameClassOfEqual(a: Item, b: Item)
    requires Eq(a, b)
    ensures Marker(a) == Marker(b) && (Tabled(a) <==> Tabled(b)) && (External(a) <==> External(b))
  {
  }

  lemma EqObjects(a: Item, b: Item)
    requires a.Object? && Eq(a, b)
    ensures b.Object? && a.traits == b.traits && EqProps(a.sealed, b.sealed)
    ensures a.traits.dynamic ==> EqProps(a.dyn, b.dyn)
    ensures a.traits.externalizable ==> a == b
  {
    EqReflexiveSeq(a.sealed.values);
    EqReflexiveSeq(a.dyn.values);
  }

  // ----- Comparisons that throw -----

  /** A comparison has one outcome: what throws is not equal. */
  lemma {:induction false} RaisesNotEq(a: Item, b: Item)
    ensures !(Raises(a, b) && Eq(a, b))
    decreases a
  {
    match (a, b)
    case (Array(p, d), Array(q, e)) =>
      RaisesSeqNotEq(d, e);
      RaisesPropsNotEq(p, q);
    case (Object(t, s, d, _), Object(u, r, e, _)) =>
      RaisesPropsNotEq(d, e);
      RaisesPropsNotEq(s, r);
    case (Vector(_, _, v), Vector(_, _, w)) => RaisesSeqNotEq(v, w);
    case _ =>
  }

  lemma {:induction false} RaisesSeqNotEq(xs: seq<Item>, ys: seq<Item>)
    ensures !(RaisesSeq(xs, ys) && EqSeq(xs, ys))
    decreases xs
  {
    hide Eq, Raises;
    if |xs| == |ys| && xs != [] {
      RaisesNotEq(xs[0], ys[0]);
      RaisesSeqNotEq(xs[1..], ys[1..]);
      EqSeqSplit(xs, ys);
    }
  }

  lemma {:induction false} RaisesPropsNotEq(p: Props<Item>, q: Props<Item>)
    ensures !(RaisesProps(p, q) && EqProps(p, q))
    decreases p
  {
    if |p.names| == |q.names| && RaisesEntries(p.names, p.values, q.names, q.values) {
      EntriesRaise(p.names, p.values, q.names, q.values);
      RaisesSeqNotEq(p.values, q.values);
    }
  }

  /** Entries with the same names throw exactly if their values do. */
  lemma {:induction false} EntriesRaise(m: seq<Text>, xs: seq<Item>, n: seq<Text>, ys: seq<Item>)
    requires |m| == |xs| == |n| == |ys|
    ensures RaisesEntries(m, xs, n, ys) ==> RaisesSeq(xs, ys)
    ensures m == n && RaisesSeq(xs, ys) ==> RaisesEntries(m, xs, n, ys)
  {
    hide Eq, Raises;
    if m != [] { EntriesRaise(m[1..], xs[1..], n[1..], ys[1..]); }
  }

  /** Items throw in comparison if equal ones do. */
  lemma {:induction false} RaisesAlike(a: Item, b: Item, x: Item, y: Item)
    requires Eq(a, x) && Eq(b, y) && Raises(a, b)
    ensures Raises(x, y)
    decreases a
  {
    match a
    case Array(p, d) =>
      if RaisesSeq(d, b.dense) {
        RaisesSeqAlike(d, b.dense, x.dense, y.dense);
      } else {
        EqSeqIff(d, x.dense, b.dense, y.dense);
        RaisesPropsAlike(p, b.assoc, x.assoc, y.assoc);
      }
    case Object(t, s, d, _) => ObjectsAlike(a, b, x, y);
    case Vector(_, _, v) => RaisesSeqAlike(v, b.values, x.values, y.values);
    case _ =>
  }

  lemma {:induction false} ObjectsAlike(a: Item, b: Item, x: Item, y: Item)
    requires a.Object? && Eq(a, x) && Eq(b, y) && Raises(a, b)
    ensures Raises(x, y)
    decreases a, 0
  {
    EqObjects(a, x);
    EqObjects(b, y);
    if !a.traits.externalizable {
      RaisesNotEq(a, b);
      EqIff(a, x, b, y);
      EqReflexive(x);
      assert x != y;
      if a.traits.dynamic && RaisesProps(a.dyn, b.dyn) {
        RaisesPropsAlike(a.dyn, b.dyn, x.dyn, y.dyn);
      } else {
        if a.traits.dynamic { EqSeqIff(a.dyn.values, x.dyn.values, b.dyn.values, y.dyn.values); }
        RaisesPropsAlike(a.sealed, b.sealed, x.sealed, y.sealed);
      }
    }
  }

  lemma EqSeqIff(vs: seq<Item>, xs: seq<Item>, ws: seq<Item>, ys: seq<Item>)
    requires EqSeq(vs, xs) && EqSeq(ws, ys)
    ensures EqSeq(vs, ws) <==> EqSeq(xs, ys)
  {
    hide Eq;
    if |vs| == |ws| {
      forall i | 0 <= i < |vs| ensures Eq(vs[i], ws[i]) <==> Eq(xs[i], ys[i]) { EqIff(vs[i], xs[i], ws[i], ys[i]); }
    }
  }

  lemma {:induction false} RaisesSeqAlike(vs: seq<Item>, ws: seq<Item>, xs: seq<Item>, ys: seq<Item>)
    requires EqSeq(vs, xs) && EqSeq(ws, ys) && RaisesSeq(vs, ws)
    ensures RaisesSeq(xs, ys)
    decreases vs
  {
    hide Eq, Raises;
    if Raises(vs[0], ws[0]) {
      RaisesAlike(vs[0], ws[0], xs[0], ys[0]);
    } else {
      EqIff(vs[0], xs[0], ws[0], ys[0]);
      RaisesSeqAlike(vs[1..], ws[1..], xs[1..], ys[1..]);
    }
  }

  lemma {:induction false} RaisesPropsAlike(p: Props<Item>, q: Props<Item>, x: Props<Item>, y: Props<Item>)
    requires EqProps(p, x) && EqProps(q, y) && RaisesProps(p, q)
    ensures RaisesProps(x, y)
    decreases p
  {
    RaisesEntriesAlike(p.names, p.values, q.names, q.values, x.values, y.values);
  }

  lemma {:induction false} RaisesEntriesAlike(m: seq<Text>, vs: seq<Item>, n: seq<Text>, ws: seq<Item>, xs: seq<Item>,
                                              ys: seq<Item>)
    requires |m| == |vs| == |n| == |ws| && EqSeq(vs, xs) && EqSeq(ws, ys) && RaisesEntries(m, vs, n, ws)
    ensures RaisesEntries(m, xs, n, ys)
    decreases vs
  {
    hide Eq, Raises;
    if Raises(vs[0], ws[0]) {
      RaisesAlike(vs[0], ws[0], xs[0], ys[0]);
    } else {
      EqIff(vs[0], xs[0], ws[0], ys[0]);
      RaisesEntriesAlike(m[1..], vs[1..], n[1..], ws[1..], xs[1..], ys[1..]);
    }
  }

  lemma RaisesEq(a: Item, b: Item, x: Item, y: Item)
    requires Eq(a, x) && Eq(b, y)
    ensures Raises(a, b) <==> Raises(x, y)
  {
    hide Eq, Raises;
    EqSymmetric(a, x);
    EqSymmetric(b, y);
    if Raises(a, b) { RaisesAlike(a, b, x, y); }
    if Raises(x, y) { RaisesAlike(x, y, a, b); }
  }

  /** Whether a comparison throws does not depend on the side. */
  lemma {:induction false} RaisesSymmetric(a: Item, b: Item)
    requires Raises(a, b)
    ensures Raises(b, a)
    decreases a
  {
    match a
    case Array(p, d) =>
      if RaisesSeq(d, b.dense) {
        RaisesSeqSymmetric(d, b.dense);
      } else {
        EqSymmetricSeq(d, b.dense);
        RaisesEntriesSymmetric(p.names, p.values, b.assoc.names, b.assoc.values);
        RaisesSeqNotEq(b.dense, d);
      }
    case Object(t, s, d, _) =>
      if t.dynamic && RaisesProps(d, b.dyn) {
        RaisesEntriesSymmetric(d.names, d.values, b.dyn.names, b.dyn.values);
      } else {
        if t.dynamic { EqSymmetricSeq(d.values, b.dyn.values); }
        if RaisesProps(s, b.sealed) {
          RaisesEntriesSymmetric(s.names, s.values, b.sealed.names, b.sealed.values);
        } else {
          EqSymmetricSeq(s.values, b.sealed.values);
        }
      }
    case Vector(_, _, v) => RaisesSeqSymmetric(v, b.values);
    case _ =>
  }

  lemma {:induction false} RaisesSeqSymmetric(xs: seq<Item>, ys: seq<Item>)
    requires RaisesSeq(xs, ys)
    ensures RaisesSeq(ys, xs)
    decreases xs
  {
    hide Eq, Raises;
    if Raises(xs[0], ys[0]) {
      RaisesSymmetric(xs[0], ys[0]);
    } else {
      EqSymmetric(xs[0], ys[0]);
      RaisesSeqSymmetric(xs[1..], ys[1..]);
    }
  }

  lemma {:induction false} RaisesEntriesSymmetric(m: seq<Text>, xs: seq<Item>, n: seq<Text>, ys: seq<Item>)
    requires |m| == |xs| == |n| == |ys| && RaisesEntries(m, xs, n, ys)
    ensures RaisesEntries(n, ys, m, xs)
    decreases xs
  {
    hide Eq, Raises;
    if Raises(xs[0], ys[0]) {
      RaisesSymmetric(xs[0], ys[0]);
    } else {
      EqSymmetric(xs[0], ys[0]);
      RaisesEntriesSymmetric(m[1..], xs[1..], n[1..], ys[1..]);
    }
  }

  /** No externalizable object in what equality compares. */
  predicate NoExternal(x: Item)
    decreases x
  {
    match x
    case Array(p, d) => NoExternalSeq(p.values) && NoExternalSeq(d)
    case Object(t, s, d, _) => !t.externalizable && NoExternalSeq(s.values) && (t.dynamic ==> NoExternalSeq(d.values))
    case Vector(_, _, v) => NoExternalSeq(v)
    case _ => true
  }

  predicate NoExternalSeq(xs: seq<Item>)
    decreases xs
  {
    forall i :: 0 <= i < |xs| ==> NoExternal(xs[i])
  }

  /** Then no comparison throws. */
  lemma {:induction false} NoExternalNeverRaises(a: Item, b: Item)
    requires NoExternal(a)
    ensures !Raises(a, b)
    decreases a
  {
    match (a, b)
    case (Array(p, d), Array(q, e)) =>
      NoExternalSeqNeverRaises(d, e);
      NoExternalPropsNeverRaise(p, q);
    case (Object(t, s, d, _), Object(u, r, e, _)) =>
      if t.dynamic { NoExternalPropsNeverRaise(d, e); }
      NoExternalPropsNeverRaise(s, r);
    case (Vector(_, _, v), Vector(_, _, w)) => NoExternalSeqNeverRaises(v, w);
    case _ =>
  }

  lemma {:induction false} NoExternalSeqNeverRaises(xs: seq<Item>, ys: seq<Item>)
    requires NoExternalSeq(xs)
    ensures !RaisesSeq(xs, ys)
    decreases xs
  {
    hide Eq, Raises;
    if |xs| == |ys| && xs != [] {
      NoExternalNeverRaises(xs[0], ys[0]);
      NoExternalSeqNeverRaises(xs[1..], ys[1..]);
    }
  }

  lemma {:induction false} NoExternalPropsNeverRaise(p: Props<Item>, q: Props<Item>)
    requires NoExternalSeq(p.values)
    ensures !RaisesProps(p, q)
    decreases p
  {
    if |p.names| == |q.names| {
      EntriesRaise(p.names, p.values, q.names, q.values);
      NoExternalSeqNeverRaises(p.values, q.values);
    }
  }

  /** Equal items are nested equally deep. */
  lemma {:induction false} EqDepth(a: Item, b: Item)
    requires Eq(a, b)
    ensures Depth(a) == Depth(b)
    decreases a
  {
    match a
    case Array(p, d) => EqDepthSeq(p.values, b.assoc.values); EqDepthSeq(d, b.dense);
    case Object(t, s, d, _) =>
      if a != b {
        EqDepthSeq(s.values, b.sealed.values);
        if t.dynamic { EqDepthSeq(d.values, b.dyn.values); }
      }
    case Vector(_, _, v) => EqDepthSeq(v, b.values);
    case _ =>
  }

  lemma {:induction false} EqDepthSeq(xs: seq<Item>, ys: seq<Item>)
    requires EqSeq(xs, ys)
    ensures DepthSeq(xs) == DepthSeq(ys)
    decreases xs
  {
    if xs != [] {
      EqDepth(xs[0], ys[0]);
      EqDepthSeq(xs[1..], ys[1..]);
    }
  }

  /** `y` lies properly inside `x`, in a part equality compares. */
  predicate Inside(y: Item, x: Item)
    decreases x
  {
    match x
    case Array(p, d) => InsideSeq(y, p.values) || InsideSeq(y, d)
    case Object(t, s, d, _) => InsideSeq(y, s.values) || (t.dynamic && InsideSeq(y, d.values))
    case Vector(_, _, v) => InsideSeq(y, v)
    case _ => false
  }

  predicate InsideSeq(y: Item, xs: seq<Item>)
    decreases xs
  {
    exists i :: 0 <= i < |xs| && (y == xs[i] || Inside(y, xs[i]))
  }

  lemma {:induction false} InsideShallower(y: Item, x: Item)
    requires Inside(y, x)
    ensures Depth(y) < Depth(x)
    decreases x
  {
    match x
    case Array(p, d) =>
      if InsideSeq(y, p.values) { InsideShallowerSeq(y, p.values); } else { InsideShallowerSeq(y, d); }
    case Object(t, s, d, _) =>
      if InsideSeq(y, s.values) { InsideShallowerSeq(y, s.values); } else { InsideShallowerSeq(y, d.values); }
    case Vector(_, _, v) => InsideShallowerSeq(y, v);
  }

  lemma {:induction false} InsideShallowerSeq(y: Item, xs: seq<Item>)
    requires InsideSeq(y, xs)
    ensures Depth(y) <= DepthSeq(xs)
    decreases xs
  {
    var i :| 0 <= i < |xs| && (y == xs[i] || Inside(y, xs[i]));
    if y != xs[i] { InsideShallower(y, xs[i]); }
  }

  /** No part of an item compares equal to the whole, in either order of comparison. */
  lemma NeverEqualToAPart(x: Item, y: Item)
    requires Inside(y, x)
    ensures !Eq(x, y) && !Eq(y, x)
  {
    InsideShallower(y, x);
    if Eq(x, y) { EqDepth(x, y); }
    if Eq(y, x) { EqDepth(y, x); }
  }

  /** Items that compare equal reach the other side as one and the same value. */
  lemma {:induction false} EqCanon(a: Item, b: Item)
    requires Eq(a, b) && WellFormed(b)
    ensures Canon(a) == Canon(b)
    decreases a
  {
    match a
    case Array(p, d) => EqCanonSeq(p.values, b.assoc.values); EqCanonSeq(d, b.dense);
    case Object(t, s, d, _) =>
      if a != b {
        EqCanonPick(Unique(t.attributes), t, s, b.sealed);
        if t.dynamic { EqCanonSeq(d.values, b.dyn.values); }
      }
    case Vector(_, _, v) => EqCanonSeq(v, b.values);
    case _ =>
  }

  lemma {:induction false} EqCanonSeq(xs: seq<Item>, ys: seq<Item>)
    requires EqSeq(xs, ys) && WellFormedSeq(ys)
    ensures CanonSeq(xs) == CanonSeq(ys)
    decreases xs
  {
    forall i | 0 <= i < |xs| ensures Canon(xs[i]) == Canon(ys[i]) { EqCanon(xs[i], ys[i]); }
  }

  lemma {:induction false} EqCanonPick(names: seq<Text>, t: Traits, p: Props<Item>, q: Props<Item>)
    requires names == Unique(t.attributes)
    requires p.names == q.names && EqSeq(p.values, q.values)
    requires forall i :: 0 <= i < |q.names| && q.names[i] in t.attributes ==> WellFormed(q.values[i])
    ensures CanonPick(names, p) == CanonPick(names, q)
    decreases p
  {
    forall i | 0 <= i < |names| ensures CanonPick(names, p)[i] == CanonPick(names, q)[i] {
      if Holds(p.names, names[i]) {
        assert names[i] in t.attributes;
        var r := Rank(p.names, names[i]);
        EqCanon(p.values[r], q.values[r]);
      }
    }
  }

  /** Canonical forms are fixed points: a second trip over the wire changes nothing. */
  lemma {:induction false} CanonIdempotent(x: Item)
    ensures Canon(Canon(x)) == Canon(x)
    decreases x
  {
    match x
    case Array(p, d) => CanonIdempotentSeq(p.values); CanonIdempotentSeq(d);
    case Object(t, s, d, _) =>
      UniqueOfAscending(Unique(t.attributes));
      CanonIdempotentPick(Unique(t.attributes), s);
      if t.dynamic { CanonIdempotentSeq(d.values); }
    case Vector(_, _, v) => CanonIdempotentSeq(v);
    case _ =>
  }

  lemma {:induction false} CanonIdempotentSeq(xs: seq<Item>)
    ensures CanonSeq(CanonSeq(xs)) == CanonSeq(xs)
    decreases xs
  {
    forall i | 0 <= i < |xs| ensures Canon(Canon(xs[i])) == Canon(xs[i]) { CanonIdempotent(xs[i]); }
  }

  lemma {:induction false} CanonIdempotentPick(names: seq<Text>, p: Props<Item>)
    requires Ascending(names)
    ensures CanonPick(names, Props(names, CanonPick(names, p))) == CanonPick(names, p)
    decreases p
  {
    var q: Props<Item> := Props(names, CanonPick(names, p));
    forall i | 0 <= i < |names| ensures CanonPick(names, q)[i] == q.values[i] {
      RankOfMember(names, i);
      if Holds(p.names, names[i]) {
        CanonIdempotent(p.values[Rank(p.names, names[i])]);
      }
    }
  }

  lemma CanonMarker(x: Item)
    ensures Marker(Canon(x)) == Marker(x)
  {
  }
}
