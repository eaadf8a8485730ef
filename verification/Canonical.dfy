/** Canonical forms of well-formed items: again well-formed, without loops, and equal only when identical. */
module Canonical {
  import opened Words
  import opened Names
  import opened Items
  import opened Equality
  import opened Heap

  /** The canonical form of a well-formed item is well-formed. */
  lemma {:induction false} CanonWellFormed(x: Item)
    requires WellFormed(x)
    ensures WellFormed(Canon(x))
    decreases x
  {
    hide CanonPick, CanonSeq, TraitsFit, Complete, NamesFit, Unique;
    match x
    case Array(p, d) => CanonWellFormedSeq(p.values); CanonWellFormedSeq(d);
    case Object(t, s, d, _) =>
      CanonTraitsFit(t);
      CanonSealed(t, s);
      if t.dynamic { CanonWellFormedSeq(d.values); }
      ObjectWellFormed(CanonTraits(t), Props(Unique(t.attributes), CanonPick(Unique(t.attributes), s)),
                       if t.dynamic then CanonProps(d) else NO_PROPS);
    case Vector(_, _, v) => CanonWellFormedSeq(v);
    case _ =>
  }

  lemma CanonTraitsFit(t: Traits)
    requires TraitsFit(t)
    ensures TraitsFit(CanonTraits(t))
  {
    var names := Unique(t.attributes);
    UniqueOfAscending(names);
    forall i | 0 <= i < |names| ensures Fits(names[i]) {
      assert names[i] in t.attributes;
      var j :| 0 <= j < |t.attributes| && t.attributes[j] == names[i];
    }
  }

  /** A well-formed value under every one of the names. */
  predicate Complete(names: seq<Text>, values: seq<Item>) {
    |names| == |values| && forall i :: 0 <= i < |names| ==> Holds(names, names[i]) && WellFormed(values[i])
  }

  lemma ObjectWellFormed(t: Traits, s: Props<Item>, d: Props<Item>)
    requires TraitsFit(t) && t.attributes == s.names && Complete(s.names, s.values)
    requires t.dynamic ==> NamesFit(d.names) && WellFormedSeq(d.values)
    ensures WellFormed(Object(t, s, d, 0))
  {
  }

  lemma {:induction false} CanonWellFormedSeq(xs: seq<Item>)
    requires WellFormedSeq(xs)
    ensures WellFormedSeq(CanonSeq(xs))
    decreases xs
  {
    forall i | 0 <= i < |xs| ensures WellFormed(Canon(xs[i])) { CanonWellFormed(xs[i]); }
  }

  /** The sealed part: every attribute has a value, and every value is well-formed. */
  lemma {:induction false} CanonSealed(t: Traits, s: Props<Item>)
    requires forall i :: 0 <= i < |t.attributes| ==> Holds(s.names, t.attributes[i])
    requires forall i :: 0 <= i < |s.names| && s.names[i] in t.attributes ==> WellFormed(s.values[i])
    ensures Complete(Unique(t.attributes), CanonPick(Unique(t.attributes), s))
    decreases s
  {
    var names := Unique(t.attributes);
    forall i | 0 <= i < |names| ensures Holds(names, names[i]) && WellFormed(CanonPick(names, s)[i]) {
      RankOfMember(names, i);
      assert names[i] in t.attributes;
      var j :| 0 <= j < |t.attributes| && t.attributes[j] == names[i];
      assert Holds(s.names, t.attributes[j]);
      CanonWellFormed(s.values[Rank(s.names, names[i])]);
    }
  }

  /** The canonical form of a well-formed item is a finite tree, whatever lay in unserialized properties. */
  lemma {:induction false} CanonLoopFree(x: Item)
    requires WellFormed(x)
    ensures LoopFree(Canon(x))
    decreases x
  {
    match x
    case Array(p, d) => CanonLoopFreeSeq(p.values); CanonLoopFreeSeq(d);
    case Object(t, s, d, _) =>
      CanonPickLoopFree(t, s);
      if t.dynamic { CanonLoopFreeSeq(d.values); }
    case Vector(_, _, v) => CanonLoopFreeSeq(v);
    case _ =>
  }

  lemma {:induction false} CanonLoopFreeSeq(xs: seq<Item>)
    requires WellFormedSeq(xs)
    ensures LoopFreeSeq(CanonSeq(xs))
    decreases xs
  {
    forall i | 0 <= i < |xs| ensures LoopFree(Canon(xs[i])) { CanonLoopFree(xs[i]); }
  }

  lemma {:induction false} CanonPickLoopFree(t: Traits, s: Props<Item>)
    requires forall i :: 0 <= i < |t.attributes| ==> Holds(s.names, t.attributes[i])
    requires forall i :: 0 <= i < |s.names| && s.names[i] in t.attributes ==> WellFormed(s.values[i])
    ensures LoopFreeSeq(CanonPick(Unique(t.attributes), s))
    decreases s
  {
    var names := Unique(t.attributes);
    forall i | 0 <= i < |names| ensures LoopFree(CanonPick(names, s)[i]) {
      assert names[i] in t.attributes;
      var j :| 0 <= j < |t.attributes| && t.attributes[j] == names[i];
      assert Holds(s.names, t.attributes[j]);
      CanonLoopFree(s.values[Rank(s.names, names[i])]);
    }
  }

  /** On canonical forms the source's equality is identity. */
  lemma CanonEqIff(a: Item, b: Item)
    requires WellFormed(a) && WellFormed(b)
    ensures Eq(Canon(a), Canon(b)) <==> Canon(a) == Canon(b)
  {
    hide Eq, Canon, WellFormed;
    if Eq(Canon(a), Canon(b)) {
      CanonWellFormed(b);
      EqCanon(Canon(a), Canon(b));
      CanonIdempotent(a);
      CanonIdempotent(b);
    }
    EqReflexive(Canon(a));
  }
}
