/** What the reference tables save. */
module Compression {
  import opened Words
  import opened Names
  import opened Items
  import opened Encoder
  import opened Decoder
  import opened Exceptions
  import opened Invariant
  import opened Lockstep
  import opened Framing

  /** If both are written, `a` takes no more bytes. */
  predicate Within(a: Out, b: Out) {
    a.Wrote? && b.Wrote? ==> |a.bytes| <= |b.bytes|
  }

  lemma StringWithin(t: Text, c: Context, d: Context)
    ensures Within(EncodeString(t, c, Compress), EncodeString(t, d, Verbatim))
  {
  }

  lemma {:induction false} NamesWithin(names: seq<Text>, c: Context, d: Context)
    ensures Within(EncodeNames(names, c, Compress), EncodeNames(names, d, Verbatim))
  {
    hide EncodeString;
    if names != [] {
      StringWithin(names[0], c, d);
      var a, b := EncodeString(names[0], c, Compress), EncodeString(names[0], d, Verbatim);
      if a.Wrote? && b.Wrote? { NamesWithin(names[1..], a.ctx, b.ctx); }
    }
  }

  lemma TraitsWithin(t: Traits, c: Context, d: Context)
    ensures Within(EncodeTraits(t, c, Compress), EncodeTraits(t, d, Verbatim))
  {
    hide EncodeString, EncodeNames, TraitsHeader, Unique;
    StringWithin(t.className, c, d);
    var a, b := EncodeString(t.className, c, Compress), EncodeString(t.className, d, Verbatim);
    if a.Wrote? && b.Wrote? {
      NamesWithin(Unique(t.attributes), AddTraits(a.ctx, t), AddTraits(b.ctx, t));
    }
  }

  /** From any two contexts, serializing with the tables takes no more bytes than without. */
  lemma {:induction false} NeverLonger(x: Item, c: Context, d: Context)
    ensures Within(Encode(x, c, Compress), Encode(x, d, Verbatim))
    decreases x, 1
  {
    hide EncodeBody, EncodeString, ObjectIndex, Small;
    if Tabled(x) {
      BodyWithin(x, AddObject(c, x), AddObject(d, x));
      BodyNotEmpty(x, AddObject(d, x));
      VerbatimMisses(x, d);
    } else if x.Str? {
      StringWithin(x.text, c, d);
    }
  }

  lemma VerbatimMisses(x: Item, d: Context)
    ensures ObjectIndex(d, x, Verbatim) == |d.objects|
  {
  }

  lemma BodyNotEmpty(x: Item, d: Context)
    requires Tabled(x)
    ensures EncodeBody(x, d, Verbatim).Wrote? ==> |EncodeBody(x, d, Verbatim).bytes| >= 1
  {
  }

  lemma {:induction false} BodyWithin(x: Item, c: Context, d: Context)
    requires Tabled(x)
    ensures Within(EncodeBody(x, c, Compress), EncodeBody(x, d, Verbatim))
    decreases x, 0
  {
    hide EncodeString, EncodeTraits, EncodeSeq, EncodeProps, EncodePick, LengthHeader, WordBytes, Unique, Small,
         Extends;
    match x
    case Array(p, e) =>
      PropsWithin(p.names, p.values, c, d);
      var a, b := EncodeProps(p.names, p.values, c, Compress), EncodeProps(p.names, p.values, d, Verbatim);
      if a.Wrote? && b.Wrote? { SeqWithin(e, a.ctx, b.ctx); }
    case Object(t, s, e, _) =>
      TraitsWithin(t, c, d);
      var a, b := EncodeTraits(t, c, Compress), EncodeTraits(t, d, Verbatim);
      if a.Wrote? && b.Wrote? {
        PickWithin(Unique(t.attributes), s, a.ctx, b.ctx);
        var a2, b2 := EncodePick(Unique(t.attributes), s, a.ctx, Compress),
          EncodePick(Unique(t.attributes), s, b.ctx, Verbatim);
        if a2.Wrote? && b2.Wrote? && t.dynamic { PropsWithin(e.names, e.values, a2.ctx, b2.ctx); }
      }
    case Vector(t, _, v) =>
      StringWithin(t, c, d);
      var a, b := EncodeString(t, c, Compress), EncodeString(t, d, Verbatim);
      if a.Wrote? && b.Wrote? { SeqWithin(v, a.ctx, b.ctx); }
    case _ =>
  }

  lemma {:induction false} SeqWithin(xs: seq<Item>, c: Context, d: Context)
    ensures Within(EncodeSeq(xs, c, Compress), EncodeSeq(xs, d, Verbatim))
    decreases xs
  {
    hide Encode;
    if xs != [] {
      NeverLonger(xs[0], c, d);
      var a, b := Encode(xs[0], c, Compress), Encode(xs[0], d, Verbatim);
      if a.Wrote? && b.Wrote? { SeqWithin(xs[1..], a.ctx, b.ctx); }
    }
  }

  lemma {:induction false} PropsWithin(names: seq<Text>, values: seq<Item>, c: Context, d: Context)
    requires |names| == |values|
    ensures Within(EncodeProps(names, values, c, Compress), EncodeProps(names, values, d, Verbatim))
    decreases values
  {
    hide Encode, EncodeString;
    if names != [] {
      StringWithin(names[0], c, d);
      var a, b := EncodeString(names[0], c, Compress), EncodeString(names[0], d, Verbatim);
      if a.Wrote? && b.Wrote? {
        NeverLonger(values[0], a.ctx, b.ctx);
        var a2, b2 := Encode(values[0], a.ctx, Compress), Encode(values[0], b.ctx, Verbatim);
        if a2.Wrote? && b2.Wrote? { PropsWithin(names[1..], values[1..], a2.ctx, b2.ctx); }
      }
    }
  }

  lemma {:induction false} PickWithin(names: seq<Text>, p: Props<Item>, c: Context, d: Context)
    ensures Within(EncodePick(names, p, c, Compress), EncodePick(names, p, d, Verbatim))
    decreases p, |names|
  {
    hide Encode;
    if names != [] && Holds(p.names, names[0]) {
      var x := p.values[Rank(p.names, names[0])];
      NeverLonger(x, c, d);
      var a, b := Encode(x, c, Compress), Encode(x, d, Verbatim);
      if a.Wrote? && b.Wrote? { PickWithin(names[1..], p, a.ctx, b.ctx); }
    }
  }

  /**
    References are transparent: the encodings of a well-formed item with and without the
    tables decode to the same canonical value, and the tables never cost a byte.
   */
  lemma CompressionTransparent(x: Item, c: Context)
    requires WellFormed(x) && Consistent(c, Compress)
    ensures var a, b := Encode(x, c, Compress), Encode(x, c, Verbatim);
      b.Wrote? && Decode(b.bytes, 0, View(c, {})) == Ok(Canon(x), |b.bytes|, View(b.ctx, {}))
      && (a.Wrote? ==> |a.bytes| <= |b.bytes|)
      && (a.Wrote? && a.exact ==> Decode(a.bytes, 0, View(c, {})) == Ok(Canon(x), |a.bytes|, View(a.ctx, {})))
  {
    hide Encode, Decode, WellFormed, Encodable, Canon, View;
    WellFormedEncodable(x);
    EncodeSifts(x, c, Verbatim, {});
    NeverLonger(x, c, c);
    WholeInput(x, c, Verbatim);
    if Encode(x, c, Compress).Wrote? && Encode(x, c, Compress).exact { WholeInput(x, c, Compress); }
  }
}
