/**
  The variable-length integers of section 1.3.1 of the AMF 3 specification, as
  `AmfInteger` writes and reads them.

  `x & 0x7F` and `x >> k` on a two's complement integer are `x % 128` and the
  floor division by `2^k`, which is what Dafny's `%` and `/` give for positive divisors.
 */
module U29 {
  import opened Words

  const MIN: int := -0x1000_0000
  const MAX: int := 0x0FFF_FFFF
  const LENGTH_LIMIT: int := 0x800_0000

  /** `u8(x | 0x80)`: the low seven bits under a continuation bit. */
  function More(x: int): byte {
    128 + x % 128
  }

  /** The bytes after the marker in `AmfInteger::serialize`, for an integer in range. */
  function Write(v: int): (r: seq<byte>)
    requires MIN <= v <= MAX
    ensures 1 <= |r| <= 4
  {
    if 0 <= v <= 0x7F then [v]
    else if 0x7F < v <= 0x3FFF then [More(v / 0x80), v % 0x80]
    else if 0x3FFF < v <= 0x1F_FFFF then [More(v / 0x4000), More(v / 0x80 % 0x80), v % 0x80]
    else [More(v / 0x40_0000), More(v / 0x8000 % 0x80), More(v / 0x100 % 0x80), v % 0x100]
  }

  datatype Reading = Short | Got(value: int, next: nat)

  /** `val <<= 3; val >>= 3`: bit 28 becomes the sign. */
  function SignExtend(x: int): int {
    Int32(x * 8) / 8
  }

  /** The rest of the decoding loop once `i` continuation bytes have been folded into `val`. */
  function Scan(s: seq<byte>, p: nat, i: nat, val: nat): (r: Reading)
    requires p < |s|
    ensures r.Got? ==> p < r.next <= |s|
    decreases |s| - p
  {
    if i < 3 && s[p] >= 0x80 then
      if p + 1 == |s| then Short else Scan(s, p + 1, i + 1, val * 0x80 + s[p] % 0x80)
    else
      Got(SignExtend(val * (if i < 3 then 0x80 else 0x100) + s[p]), p + 1)
  }

  /** `AmfInteger::deserializeValue` from position `p`; `Short` is its `std::out_of_range`. */
  function Read(s: seq<byte>, p: nat): (r: Reading)
    ensures r.Got? ==> p < r.next <= |s|
  {
    if p >= |s| then Short else Scan(s, p, 0, 0)
  }

  /** The decoding loop of `AmfInteger::deserializeValue`, with its counter and its 32-bit accumulator. */
  method DeserializeValue(s: seq<byte>, p: nat) returns (r: Reading)
    ensures r == Read(s, p)
  {
    var i := 0;
    var val := 0;
    var it := p;
    if it >= |s| {
      return Short;
    }
    i := i + 1;
    while i - 1 < 3 && s[it] >= 0x80
      invariant p <= it < |s| && 1 <= i <= 4
      invariant 0 <= val && (i == 1 ==> val == 0) && (i == 2 ==> val < 0x80)
      invariant (i == 3 ==> val < 0x4000) && (i == 4 ==> val < 0x20_0000)
      invariant Read(s, p) == Scan(s, it, i - 1, val)
      decreases |s| - it
    {
      val := Int32(val * 0x80);
      val := val + s[it] % 0x80;
      it := it + 1;
      if it == |s| {
        return Short;
      }
      i := i + 1;
    }
    val := Int32(val * (if i <= 3 then 0x80 else 0x100));
    val := val + s[it];
    it := it + 1;
    val := Int32(val * 8);
    val := val / 8;
    return Got(val, it);
  }

  /** The unsigned value of two, three or four encoded bytes. */
  function Value2(a: int, b: int): int { a % 128 * 128 + b }
  function Value3(a: int, b: int, c: int): int { Value2(a, b % 128) * 128 + c }
  function Value4(a: int, b: int, c: int, d: int): int { Value3(a, b, c % 128) * 256 + d }

  /** What a reading yields, by the number of continuation bytes. */
  lemma ReadShape(s: seq<byte>, p: nat)
    requires p < |s|
    ensures s[p] < 128 ==> Read(s, p) == Got(s[p], p + 1)
    ensures s[p] >= 128 && p + 1 >= |s| ==> Read(s, p) == Short
    ensures s[p] >= 128 && p + 1 < |s| && s[p + 1] < 128 ==> Read(s, p) == Got(Value2(s[p], s[p + 1]), p + 2)
    ensures s[p] >= 128 && p + 1 < |s| && s[p + 1] >= 128 ==> Read(s, p) == Scan(s, p + 1, 1, s[p] % 128)
  {
  }

  lemma ReadShapeLong(s: seq<byte>, p: nat)
    requires p + 1 < |s| && s[p] >= 128 && s[p + 1] >= 128
    ensures p + 2 >= |s| ==> Read(s, p) == Short
    ensures p + 2 < |s| && s[p + 2] < 128 ==> Read(s, p) == Got(Value3(s[p], s[p + 1], s[p + 2]), p + 3)
    ensures p + 2 < |s| && s[p + 2] >= 128 && p + 3 >= |s| ==> Read(s, p) == Short
    ensures p + 2 < |s| && s[p + 2] >= 128 && p + 3 < |s| ==>
      Read(s, p) == Got(SignExtend(Value4(s[p], s[p + 1], s[p + 2], s[p + 3])), p + 4)
  {
    ReadShape(s, p);
    if p + 2 < |s| {
      var v2: nat := Value2(s[p], s[p + 1] % 128);
      assert Read(s, p) == Scan(s, p + 2, 2, v2);
      if s[p + 2] >= 128 && p + 3 < |s| {
        assert Read(s, p) == Scan(s, p + 3, 3, v2 * 128 + s[p + 2] % 128);
      }
    }
  }

  /** Shifting in two steps. */
  lemma ShiftTwice(v: int)
    ensures v / 0x4000 == v / 0x80 / 0x80
    ensures v / 0x8000 == v / 0x100 / 0x80
    ensures v / 0x40_0000 == v / 0x8000 / 0x80
  {
  }

  /** The four-byte form holds the value modulo `2^29`. */
  lemma FourByteValue(v: int, a: int, b: int, c: int)
    requires a == v / 0x40_0000 && b == v / 0x8000 && c == v / 0x100
    ensures ((a % 128 * 128 + b % 128) * 128 + c % 128) * 256 + v % 256 == v % 0x2000_0000
  {
    ShiftTwice(v);
    var k := a / 128;
    var u := ((a % 128 * 128 + b % 128) * 128 + c % 128) * 256 + v % 256;
    assert v == 0x2000_0000 * k + u && 0 <= u < 0x2000_0000 by {
      assert v == c * 256 + v % 256 && c == b * 128 + c % 128 && b == a * 128 + b % 128 && a == k * 128 + a % 128;
    }
    ModUnique(v, k, u);
  }

  lemma ModUnique(v: int, k: int, u: int)
    requires v == 0x2000_0000 * k + u && 0 <= u < 0x2000_0000
    ensures v % 0x2000_0000 == u
  {
  }

  lemma SignExtendWraps(v: int)
    requires MIN <= v <= MAX
    ensures SignExtend(v % 0x2000_0000) == v
  {
  }

  lemma AtBytes(s: seq<byte>, p: nat, w: seq<byte>)
    requires At(s, p, w)
    ensures forall k :: 0 <= k < |w| ==> s[p + k] == w[k]
  {
  }

  /** Reading what was written gives the integer back and stops right after it. */
  lemma RoundTrip(s: seq<byte>, p: nat, v: int)
    requires MIN <= v <= MAX && At(s, p, Write(v))
    ensures Read(s, p) == Got(v, p + |Write(v)|)
  {
    if 0x3FFF < v <= 0x1F_FFFF {
      RoundTripThree(s, p, v);
    } else if v < 0 || 0x1F_FFFF < v {
      RoundTripLong(s, p, v);
    } else {
      AtBytes(s, p, Write(v));
      assert s[p + 0] == Write(v)[0];
      ReadShape(s, p);
    }
  }

  lemma Masks(x: int)
    ensures More(x) % 128 == x % 128 && More(x % 128) % 128 == x % 128
  {
  }

  lemma ThreeByteValue(v: int, a: int, b: int)
    requires 0 <= v <= 0x1F_FFFF && a == v / 0x80 && b == v / 0x4000
    ensures (b % 128 * 128 + a % 128) * 128 + v % 128 == v
  {
    ShiftTwice(v);
    assert v == a * 128 + v % 128 && a == b * 128 + a % 128;
    assert 0 <= b < 128;
  }

  lemma RoundTripThree(s: seq<byte>, p: nat, v: int)
    requires 0x3FFF < v <= 0x1F_FFFF && At(s, p, Write(v))
    ensures Read(s, p) == Got(v, p + 3)
  {
    var a, b := v / 0x80, v / 0x4000;
    var w := Write(v);
    assert |w| == 3 && w[0] == More(b) && w[1] == More(a % 128) && w[2] == v % 128;
    AtBytes(s, p, w);
    assert s[p + 0] == w[0];
    assert s[p + 1] == w[1];
    assert s[p + 2] == w[2];
    ReadShapeLong(s, p);
    Masks(a);
    Masks(b);
    ThreeByteValue(v, a, b);
  }

  lemma RoundTripLong(s: seq<byte>, p: nat, v: int)
    requires MIN <= v <= MAX && (v < 0 || 0x1F_FFFF < v)
    requires At(s, p, Write(v))
    ensures Read(s, p) == Got(v, p + 4)
  {
    var a, b, c := v / 0x40_0000, v / 0x8000, v / 0x100;
    var w := Write(v);
    assert |w| == 4 && w[0] == More(a) && w[1] == More(b % 128) && w[2] == More(c % 128) && w[3] == v % 256;
    AtBytes(s, p, w);
    assert s[p + 0] == w[0];
    assert s[p + 1] == w[1];
    assert s[p + 2] == w[2];
    assert s[p + 3] == w[3];
    ReadShapeLong(s, p);
    Masks(a);
    Masks(b);
    Masks(c);
    FourByteValue(v, a, b, c);
    SignExtendWraps(v);
  }

  /**
    Every integer read is in range, writing it back never takes more bytes than were
    read, and takes as many exactly when the bytes read were the writer's own.
   */
  lemma NormalForm(s: seq<byte>, p: nat)
    requires Read(s, p).Got?
    ensures MIN <= Read(s, p).value <= MAX
    ensures |Write(Read(s, p).value)| <= Read(s, p).next - p <= 4
    ensures |Write(Read(s, p).value)| == Read(s, p).next - p <==> At(s, p, Write(Read(s, p).value))
  {
    ReadShape(s, p);
    if s[p] >= 128 && s[p + 1] >= 128 {
      ReadShapeLong(s, p);
      if s[p + 2] < 128 {
        NormalForm3(s, p);
      } else {
        NormalForm4(s, p);
      }
    } else if s[p] >= 128 {
      NormalForm2(s, p);
    }
    if At(s, p, Write(Read(s, p).value)) {
      RoundTrip(s, p, Read(s, p).value);
    }
  }

  lemma NormalForm2(s: seq<byte>, p: nat)
    requires p + 1 < |s| && s[p] >= 128 && s[p + 1] < 128
    ensures var w := Write(Value2(s[p], s[p + 1])); |w| <= 2 && (|w| == 2 ==> At(s, p, w))
  {
    var v := Value2(s[p], s[p + 1]);
    Divide128(v, s[p] % 128, s[p + 1]);
    MoreOfDigit(s[p], v / 0x80);
    assert s[p..p + 2] == [s[p], s[p + 1]];
  }

  lemma NormalForm3(s: seq<byte>, p: nat)
    requires p + 2 < |s| && s[p] >= 128 && s[p + 1] >= 128 && s[p + 2] < 128
    ensures var v := Value3(s[p], s[p + 1], s[p + 2]);
      0 <= v <= 0x1F_FFFF && |Write(v)| <= 3 && (|Write(v)| == 3 ==> At(s, p, Write(v)))
  {
    var v := Value3(s[p], s[p + 1], s[p + 2]);
    var a := v / 128;
    assert a == Value2(s[p], s[p + 1] % 128) && v % 128 == s[p + 2];
    assert a / 128 == s[p] % 128 && a % 128 == s[p + 1] % 128;
    assert v / 0x4000 == a / 128;
  }

  lemma NormalForm4(s: seq<byte>, p: nat)
    requires p + 3 < |s| && s[p] >= 128 && s[p + 1] >= 128 && s[p + 2] >= 128
    ensures var v := SignExtend(Value4(s[p], s[p + 1], s[p + 2], s[p + 3]));
      MIN <= v <= MAX && (|Write(v)| == 4 ==> At(s, p, Write(v)))
  {
    var u := Value4(s[p], s[p + 1], s[p + 2], s[p + 3]);
    var v := SignExtend(u);
    SignExtendCases(u);
    FourByteDigits(s[p], s[p + 1], s[p + 2], s[p + 3], v);
    if |Write(v)| == 4 {
      MoreOfDigit(s[p], v / 0x40_0000);
      MoreOfDigit(s[p + 1], v / 0x8000);
      MoreOfDigit(s[p + 2], v / 0x100);
      assert s[p..p + 4] == [s[p], s[p + 1], s[p + 2], s[p + 3]];
    }
  }

  lemma SignExtendCases(u: int)
    requires 0 <= u < 0x2000_0000
    ensures SignExtend(u) == if u < 0x1000_0000 then u else u - 0x2000_0000
  {
  }

  lemma MoreOfDigit(a: byte, x: int)
    requires a >= 128 && x % 128 == a % 128
    ensures More(x) == a && More(x % 128) == a
  {
  }

  lemma Divide128(x: int, q: int, d: int)
    requires x == q * 128 + d && 0 <= d < 128
    ensures x / 128 == q && x % 128 == d
  {
  }

  lemma Divide256(x: int, q: int, d: int)
    requires x == q * 256 + d && 0 <= d < 256
    ensures x / 256 == q && x % 256 == d
  {
  }

  /** The digits of a four-byte value are those the writer extracts, also below zero. */
  lemma FourByteDigits(a: byte, b: byte, c: byte, d: byte, v: int)
    requires v == Value4(a, b, c, d) || v == Value4(a, b, c, d) - 0x2000_0000
    ensures v % 0x100 == d && v / 0x100 % 128 == c % 128
    ensures v / 0x8000 % 128 == b % 128 && v / 0x40_0000 % 128 == a % 128
  {
    var wraps := if v == Value4(a, b, c, d) then 0 else 1;
    var y: int := a % 128 * 128 + b % 128 - wraps * 0x4000;
    var x: int := y * 128 + c % 128;
    Divide256(v, x, d);
    Divide128(x, y, c % 128);
    Divide128(y, a % 128 - wraps * 128, b % 128);
    ShiftTwice(v);
  }

  // ----- The notation -----

  /**
    `b` spells `v` as section 1.3.1 of the AMF 3 specification has it: seven bits to a byte
    under a continuation bit, all eight of a fourth byte, two's complement in 29 bits.
   */
  predicate Spells(b: seq<byte>, v: int) {
    match |b|
    case 1 => b[0] < 128 && v == b[0]
    case 2 => b[0] >= 128 && b[1] < 128 && v == (b[0] as int - 128) * 0x80 + b[1]
    case 3 =>
      b[0] >= 128 && b[1] >= 128 && b[2] < 128
      && v == (b[0] as int - 128) * 0x4000 + (b[1] as int - 128) * 0x80 + b[2]
    case 4 =>
      && b[0] >= 128 && b[1] >= 128 && b[2] >= 128
      && var u := (b[0] as int - 128) * 0x40_0000 + (b[1] as int - 128) * 0x8000 + (b[2] as int - 128) * 0x100 + b[3];
         v == if u < 0x1000_0000 then u else u - 0x2000_0000
    case _ => false
  }

  /** What is read is what the bytes passed spell; everything else is short. */
  lemma ReadIff(s: seq<byte>, p: nat, v: int, q: nat)
    ensures Read(s, p) == Got(v, q) <==> p < q <= |s| && Spells(s[p..q], v)
  {
    hide Read, Scan, SignExtend;
    if p < |s| {
      ReadShape(s, p);
      if p + 1 < |s| && s[p] >= 128 && s[p + 1] >= 128 {
        ReadShapeLong(s, p);
        if p + 3 < |s| {
          SignExtendCases(Value4(s[p], s[p + 1], s[p + 2], s[p + 3]));
        }
      }
    } else {
      assert Read(s, p).Short? by { PastTheEnd(s, p); }
    }
  }

  lemma PastTheEnd(s: seq<byte>, p: nat)
    requires p >= |s|
    ensures Read(s, p).Short?
  {
  }

  /** What is written spells the integer, and nothing shorter does. */
  lemma WriteShortest(v: int, b: seq<byte>)
    requires MIN <= v <= MAX
    ensures Spells(Write(v), v) && (Spells(b, v) ==> |Write(v)| <= |b|)
  {
    var w := Write(v);
    assert w[0..|w|] == w && b[0..|b|] == b;
    RoundTrip(w, 0, v);
    ReadIff(w, 0, v, |w|);
    if Spells(b, v) {
      ReadIff(b, 0, v, |b|);
      NormalForm(b, 0);
    }
  }
}
