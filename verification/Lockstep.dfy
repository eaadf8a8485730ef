/** How encoder and decoder tables correspond, and the round trip of everything below an item. */
module Lockstep {
  import opened Words
  import opened Names
  import opened Items
  import opened Encoder
  import opened Decoder
  import opened Invariant
  import U29

  // ----- The decoder context that goes with an encoder context -----

  /**
    The decoder's tables when the encoder's are `c`: the same strings, the same traits with
    sorted attributes, the same objects in canonical form, except that the containers
    numbered in `open` are still being read.
   */
  function View(c: Context, open: set<nat>): (r: Table)
    ensures |r.objects| == |c.objects|
  {
    Tables(c.strings, ViewTraits(c.traits), ViewObjects(c.objects, open))
  }

  function ViewTraits(ts: seq<Traits>): (r: seq<Traits>)
    ensures |r| == |ts|
  {
    seq(|ts|, i requires 0 <= i < |ts| => CanonTraits(ts[i]))
  }

  function ViewObjects(xs: seq<Item>, open: set<nat>): (r: seq<Slot>)
    ensures |r| == |xs|
  {
    seq(|xs|, i requires 0 <= i < |xs| => if i in open then Open(Marker(xs[i])) else Done(Canon(xs[i])))
  }

  /** Every container still open is nested deeper than anything of depth `d`. */
  predicate OpenAbove(c: Context, open: set<nat>, d: nat) {
    forall i :: i in open ==> i < |c.objects| && Depth(c.objects[i]) > d
  }

  predicate Ready(c: Context, open: set<nat>, d: nat, m: Policy) {
    Consistent(c, m) && OpenAbove(c, open, d)
  }

  lemma OpenStaysAbove(c: Context, c': Context, open: set<nat>, d: nat)
    requires OpenAbove(c, open, d) && Extends(c, c')
    ensures OpenAbove(c', open, d)
  {
  }

  /** A container that is registered and open lies above what is in it. */
  lemma OpenRegistered(x: Item, c: Context, open: set<nat>, d: nat)
    requires OpenAbove(c, open, Depth(x)) && Depth(x) == d + 1
    ensures OpenAbove(AddObject(c, x), open + {|c.objects|}, d) && |c.objects| !in open
  {
    hide Depth;
    var c1 := AddObject(c, x);
    forall i | i in open + {|c.objects|} ensures i < |c1.objects| && Depth(c1.objects[i]) > d {
      assert i in open ==> c1.objects[i] == c.objects[i];
    }
  }

  lemma ViewAddString(c: Context, s: Text, open: set<nat>)
    ensures View(AddString(c, s), open) == AddString(View(c, open), s)
  {
  }

  lemma ViewAddTraits(c: Context, t: Traits, open: set<nat>)
    ensures View(AddTraits(c, t), open) == AddTraits(View(c, open), CanonTraits(t))
  {
  }

  lemma ViewAddDone(c: Context, x: Item, open: set<nat>)
    requires |c.objects| !in open
    ensures View(AddObject(c, x), open) == AddObject(View(c, open), Done(Canon(x)))
  {
  }

  lemma ViewAddOpen(c: Context, x: Item, open: set<nat>)
    ensures View(AddObject(c, x), open + {|c.objects|}) == AddObject(View(c, open), Open(Marker(x)))
  {
  }

  // ----- Small pieces -----

  /** A one-byte integer. */
  lemma ReadSmall(s: seq<byte>, p: nat, v: byte)
    requires v < 128 && At(s, p, [v])
    ensures U29.Read(s, p) == U29.Got(v, p + 1)
  {
  }

  lemma ReadLength(s: seq<byte>, p: nat, n: nat)
    requires n < U29.LENGTH_LIMIT && At(s, p, LengthHeader(n))
    ensures U29.Read(s, p) == U29.Got(2 * n + 1, p + |LengthHeader(n)|)
  {
    U29.RoundTrip(s, p, 2 * n + 1);
  }

  lemma RoundTripString(t: Text, c: Context, m: Policy, open: set<nat>, s: seq<byte>, p: nat)
    requires EncodeString(t, c, m).Wrote? && EncodeString(t, c, m).exact && At(s, p, EncodeString(t, c, m).bytes)
    ensures var r := EncodeString(t, c, m);
      DecodeString(s, p, View(c, open)) == Ok(t, p + |r.bytes|, View(r.ctx, open))
  {
    hide U29.Read, U29.Write, LengthHeader, FirstIndex, ViewTraits, ViewObjects, Small, Extends, Settles;
    var i := StringIndex(c, t, m);
    if t == [] {
      ReadSmall(s, p, 1);
      assert s[p + 1..p + 1] == [];
    } else if i < |c.strings| {
      ReadSmall(s, p, 2 * i);
    } else {
      AtSplit(s, p, LengthHeader(|t|), t);
      ReadLength(s, p, |t|);
      ViewAddString(c, t, open);
    }
  }

  lemma {:induction false} RoundTripNames(names: seq<Text>, c: Context, m: Policy, open: set<nat>, s: seq<byte>,
                                          p: nat, acc: seq<Text>)
    requires var r := EncodeNames(names, c, m); r.Wrote? && r.exact && At(s, p, r.bytes)
    ensures var r := EncodeNames(names, c, m);
      DecodeNames(|names|, s, p, View(c, open), acc) == Ok(acc + names, p + |r.bytes|, View(r.ctx, open))
    decreases names
  {
    hide U29.Write, U29.Read, DecodeString, EncodeString, View, At, Extends;
    if names == [] {
      assert acc + names == acc;
    } else {
      var first := EncodeString(names[0], c, m);
      var rest := EncodeNames(names[1..], first.ctx, m);
      AtSplit(s, p, first.bytes, rest.bytes);
      RoundTripString(names[0], c, m, open, s, p);
      RoundTripNames(names[1..], first.ctx, m, open, s, p + |first.bytes|, acc + [names[0]]);
      assert acc + [names[0]] + names[1..] == acc + names;
    }
  }

  lemma {:induction false} RoundTripWords(ws: seq<Word>, s: seq<byte>, p: nat)
    requires At(s, p, WordBytes(ws))
    ensures ReadWords(s, p, |ws|) == ws
  {
    if ws != [] {
      var w := ws[0];
      var first := [U8(w / 0x100_0000), U8(w / 0x1_0000), U8(w / 0x100), U8(w)];
      AtSplit(s, p, first, WordBytes(ws[1..]));
      U29.AtBytes(s, p, first);
      assert s[p + 0] == first[0] && s[p + 1] == first[1] && s[p + 2] == first[2] && s[p + 3] == first[3];
      WordDigits(w);
      RoundTripWords(ws[1..], s, p + 4);
    }
  }

  lemma WordDigits(w: Word)
    ensures w == (w / 0x100_0000 % 256) * 0x100_0000 + (w / 0x1_0000 % 256) * 0x1_0000
                 + (w / 0x100 % 256) * 0x100 + w % 256
  {
    var a: int := w / 0x100;
    var b := a / 0x100;
    var d := b / 0x100;
    assert w / 0x1_0000 == b && w / 0x100_0000 == d && d < 256;
    assert w == a * 256 + w % 256 && a == b * 256 + a % 256 && b == d * 256 + b % 256;
  }

  // ----- Traits -----

  /** The value in the traits header: attribute count, dynamic flag, and the `0b0011` tag. */
  function TraitsValue(t: Traits): int {
    |Unique(t.attributes)| * 16 + 3 + (if t.dynamic then 8 else 0)
  }

  lemma TraitsValueFields(n: nat, d: int, h: int)
    requires 0 <= d < 2 && h == 16 * n + 8 * d + 3
    ensures h % 2 == 1 && h % 4 == 3 && h % 8 == 3 && h / 16 == n && h / 8 % 2 == d
  {
  }

  lemma ReadTraitsHeader(t: Traits, s: seq<byte>, p: nat)
    requires |Unique(t.attributes)| < 0x100_0000 && At(s, p, TraitsHeader(t))
    ensures U29.Read(s, p) == U29.Got(TraitsValue(t), p + |TraitsHeader(t)|)
  {
    hide U29.Write, U29.Scan, Int32;
    assert TraitsHeader(t) == U29.Write(TraitsValue(t));
    U29.RoundTrip(s, p, TraitsValue(t));
  }

  /** The traits of an object, in line or by reference, and the class name that may be dropped. */
  lemma RoundTripTraits(t: Traits, c: Context, m: Policy, open: set<nat>, s: seq<byte>, p: nat)
    requires |Unique(t.attributes)| < 0x100_0000 && Consistent(c, m)
    requires EncodeTraits(t, c, m).Wrote? && EncodeTraits(t, c, m).exact && At(s, p, EncodeTraits(t, c, m).bytes)
    ensures var r := EncodeTraits(t, c, m);
      var h := U29.Read(s, p);
      h.Got? && h.value % 2 == 1
      && DecodeTraits(h.value, s, h.next, View(c, open)) == Ok(CanonTraits(t), p + |r.bytes|, View(r.ctx, open))
  {
    hide U29.Write, U29.Read, U29.Scan, EncodeString, DecodeString, EncodeNames, DecodeNames, TraitsHeader;
    StringKeeps(t.className, c, m);
    var name := EncodeString(t.className, c, m);
    var i := TraitsIndex(name.ctx, t, m);
    if i < |name.ctx.traits| {
      RoundTripKnownTraits(t, c, m, open, s, p);
    } else {
      RoundTripNewTraits(t, c, m, open, s, p);
    }
  }

  lemma RoundTripKnownTraits(t: Traits, c: Context, m: Policy, open: set<nat>, s: seq<byte>, p: nat)
    requires Consistent(c, m) && EncodeTraits(t, c, m).Wrote? && EncodeTraits(t, c, m).exact && !t.externalizable
    requires var name := EncodeString(t.className, c, m); TraitsIndex(name.ctx, t, m) < |name.ctx.traits|
    requires At(s, p, EncodeTraits(t, c, m).bytes)
    ensures var h := U29.Read(s, p);
      h.Got? && h.value % 2 == 1
      && DecodeTraits(h.value, s, h.next, View(c, open)) == Ok(CanonTraits(t), p + 1, View(c, open))
    ensures EncodeTraits(t, c, m).ctx == c && |EncodeTraits(t, c, m).bytes| == 1
  {
    hide U29.Write, U29.Read, U29.Scan, EncodeString, DecodeString, DecodeNames, EncodeNames, Unique;
    StringKeeps(t.className, c, m);
    var i := TraitsIndex(c, t, m);
    assert i < |c.traits| && c.traits[i] == t;
    DroppedNameIsSilent(t, c);
    ReadSmall(s, p, 4 * i + 1);
    assert (4 * i + 1) % 4 == 1 && (4 * i + 1) / 4 == i;
  }

  lemma RoundTripNewTraits(t: Traits, c: Context, m: Policy, open: set<nat>, s: seq<byte>, p: nat)
    requires |Unique(t.attributes)| < 0x100_0000 && EncodeTraits(t, c, m).Wrote? && EncodeTraits(t, c, m).exact
    requires var name := EncodeString(t.className, c, m); TraitsIndex(name.ctx, t, m) == |name.ctx.traits|
    requires At(s, p, EncodeTraits(t, c, m).bytes)
    ensures var r := EncodeTraits(t, c, m);
      var h := U29.Read(s, p);
      h.Got? && h.value % 2 == 1
      && DecodeTraits(h.value, s, h.next, View(c, open)) == Ok(CanonTraits(t), p + |r.bytes|, View(r.ctx, open))
  {
    hide U29.Write, U29.Read, U29.Scan, EncodeString, DecodeString, EncodeNames, DecodeNames, TraitsHeader, View, At,
         Extends, Unique, FirstIndex;
    assert !t.externalizable;
    var name := EncodeString(t.className, c, m);
    var names := Unique(t.attributes);
    var attributes := EncodeNames(names, AddTraits(name.ctx, t), m);
    var q := p + |TraitsHeader(t)|;
    AtSplit3(s, p, TraitsHeader(t), name.bytes, attributes.bytes);
    ReadTraitsHeader(t, s, p);
    TraitsValueFields(|names|, if t.dynamic then 1 else 0, TraitsValue(t));
    assert [] + names == names;
    RoundTripString(t.className, c, m, open, s, q);
    NamesIgnoreTraits(names, name.ctx, t, m);
    RoundTripNames(names, name.ctx, m, open, s, q + |name.bytes|, []);
    ViewAddTraits(EncodeNames(names, name.ctx, m).ctx, t, open);
  }

  /** The encoder registers traits before their attribute names, the decoder after: it comes to the same. */
  lemma {:induction false} NamesIgnoreTraits(names: seq<Text>, c: Context, t: Traits, m: Policy)
    ensures var a, b := EncodeNames(names, AddTraits(c, t), m), EncodeNames(names, c, m);
      a.Throws? == b.Throws? && (a.Wrote? ==> a == Wrote(b.bytes, AddTraits(b.ctx, t), b.exact))
  {
    if names != [] {
      var first := EncodeString(names[0], c, m);
      if first.Wrote? {
        NamesIgnoreTraits(names[1..], first.ctx, t, m);
      }
    }
  }

  // ----- The encoder registers an object before its class or type name, the decoder after -----

  lemma {:induction false} NamesIgnoreObject(names: seq<Text>, c: Context, x: Item, m: Policy)
    ensures var a, b := EncodeNames(names, AddObject(c, x), m), EncodeNames(names, c, m);
      a.Throws? == b.Throws?
      && (a.Wrote? ==> (a == Wrote(b.bytes, AddObject(b.ctx, x), b.exact) && b.ctx.objects == c.objects))
  {
    if names != [] {
      var first := EncodeString(names[0], c, m);
      if first.Wrote? {
        NamesIgnoreObject(names[1..], first.ctx, x, m);
      }
    }
  }

  lemma StringIgnoresObject(t: Text, c: Context, x: Item, m: Policy)
    ensures var a, b := EncodeString(t, AddObject(c, x), m), EncodeString(t, c, m);
      a.Throws? == b.Throws?
      && (a.Wrote? ==> (a == Wrote(b.bytes, AddObject(b.ctx, x), b.exact) && b.ctx.objects == c.objects))
  {
  }

  lemma TraitsIgnoreObject(t: Traits, c: Context, x: Item, m: Policy)
    ensures var a, b := EncodeTraits(t, AddObject(c, x), m), EncodeTraits(t, c, m);
      a.Throws? == b.Throws?
      && (a.Wrote? ==> (a == Wrote(b.bytes, AddObject(b.ctx, x), b.exact) && b.ctx.objects == c.objects))
  {
    hide EncodeString, EncodeNames, TraitsHeader, Unique, FirstIndex;
    StringIgnoresObject(t.className, c, x, m);
    var name := EncodeString(t.className, c, m);
    if name.Wrote? {
      assert AddTraits(AddObject(name.ctx, x), t) == AddObject(AddTraits(name.ctx, t), x);
      NamesIgnoreObject(Unique(t.attributes), AddTraits(name.ctx, t), x, m);
    }
  }
}
