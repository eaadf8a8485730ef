/** A `Serializer` and a `Deserializer` that each keep one context over many items. */
module Stream {
  import opened Names
  import opened Items
  import opened Encoder
  import opened Decoder
  import opened Lockstep
  import opened RoundTrip

  lemma {:induction false} EncodeSeqSplit(xs: seq<Item>, ys: seq<Item>, c: Context, m: Policy)
    ensures var a := EncodeSeq(xs, c, m);
      EncodeSeq(xs + ys, c, m) == if a.Throws? then Throws else Join(a, EncodeSeq(ys, a.ctx, m))
    decreases xs
  {
    hide Encode;
    if xs == [] {
      assert xs + ys == ys;
      var b := EncodeSeq(ys, c, m);
      assert b.Wrote? ==> [] + b.bytes == b.bytes;
    } else {
      assert (xs + ys)[1..] == xs[1..] + ys;
      var first := Encode(xs[0], c, m);
      if first.Wrote? {
        EncodeSeqSplit(xs[1..], ys, first.ctx, m);
        var a := EncodeSeq(xs[1..], first.ctx, m);
        if a.Wrote? {
          var b := EncodeSeq(ys, a.ctx, m);
          assert b.Wrote? ==> first.bytes + (a.bytes + b.bytes) == first.bytes + a.bytes + b.bytes;
        }
      }
    }
  }

  /**
    Stream lockstep. Whatever well-formed items go through one serializer, a deserializer
    fed the bytes has, after each item, returned the canonical items so far, stopped at
    the end of their bytes, and reached the tables that correspond to the serializer's.
   */
  lemma StreamRoundTrip(xs: seq<Item>, k: nat)
    requires k <= |xs| && WellFormedSeq(xs) && EncodeStream(xs).Wrote? && EncodeStream(xs).exact
    ensures var part := EncodeStream(xs[..k]);
      part.Wrote? && part.bytes <= EncodeStream(xs).bytes
      && DecodeSeq(k, EncodeStream(xs).bytes, 0, FRESH, []) == Ok(CanonSeq(xs[..k]), |part.bytes|, View(part.ctx, {}))
  {
    hide Encode, EncodeSeq, DecodeSeq, Canon, WellFormed, Depth;
    var head, tail := xs[..k], xs[k..];
    assert head + tail == xs;
    EncodeSeqSplit(head, tail, EMPTY, Compress);
    var part, all := EncodeStream(head), EncodeStream(xs);
    assert all.bytes[0..|part.bytes|] == part.bytes;
    assert View(EMPTY, {}) == FRESH;
    RoundTripSeq(head, EMPTY, Compress, {}, DepthSeq(head), all.bytes, 0, []);
    assert [] + CanonSeq(head) == CanonSeq(head);
  }

  /** What the two sides' tables have in common whenever no container is open. */
  lemma ViewMeans(c: Context)
    ensures var d := View(c, {});
      d.strings == c.strings && |d.traits| == |c.traits| && |d.objects| == |c.objects|
      && (forall i :: 0 <= i < |c.traits| ==> d.traits[i] == c.traits[i].(attributes := Unique(c.traits[i].attributes)))
      && (forall i :: 0 <= i < |c.objects| ==> d.objects[i] == Done(Canon(c.objects[i])))
  {
  }

  /** A stream within 64 strings, 64 objects and 32 traits needs no further condition. */
  lemma SmallStreamRoundTrip(xs: seq<Item>)
    requires WellFormedSeq(xs) && EncodeStream(xs).Wrote? && Small(EncodeStream(xs).ctx)
    ensures var r := EncodeStream(xs);
      DecodeSeq(|xs|, r.bytes, 0, FRESH, []) == Ok(CanonSeq(xs), |r.bytes|, View(r.ctx, {}))
  {
    assert xs[..|xs|] == xs;
    StreamRoundTrip(xs, |xs|);
  }
}
