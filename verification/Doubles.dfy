/** Doubles: what their bytes mean, on the wire and in comparison. */
module Doubles {
  import opened Words
  import opened Items
  import opened Encoder
  import opened Decoder
  import opened Lockstep
  import U29

  // ----- On the wire -----

  /** A double is written as its bytes lie in memory, first byte first. */
  lemma DoubleWritten(m: Octets, node: nat, c: Context, p: Policy)
    ensures Encode(Double(m, node), c, p).Wrote?
    ensures var b := Encode(Double(m, node), c, p).bytes;
      |b| == 9 && b[0] == 5 && forall i :: 0 <= i < 8 ==> b[1 + i] == m[i]
  {
  }

  /** It is read in network order, last byte first. */
  lemma DoubleRead(s: seq<byte>, p: nat, c: Table)
    requires p < |s| && s[p] == 5
    ensures Decode(s, p, c).Ok? <==> p + 9 <= |s|
    ensures var d := Decode(s, p, c);
      d.Ok? ==> d.value.Double? && d.next == p + 9 && d.ctx == c
                && forall i :: 0 <= i < 8 ==> d.value.memory[i] == s[p + 8 - i]
  {
    if p + 9 <= |s| {
      var w := s[p + 1..p + 9];
      var m := Decode(s, p, c).value.memory;
      assert m[0] == w[7] && m[1] == w[6] && m[2] == w[5] && m[3] == w[4];
      assert m[4] == w[3] && m[5] == w[2] && m[6] == w[1] && m[7] == w[0];
    }
  }

  /** So a double comes back exactly when its bytes read the same both ways. */
  lemma DoubleRoundTripIff(m: Octets, node: nat, c: Context)
    ensures var d := Decode(Encode(Double(m, node), c, Compress).bytes, 0, View(c, {}));
      && d.Ok? && d.value.Double? && d.next == 9 && d.ctx == View(c, {})
      && (d.value.memory == m <==> forall i :: 0 <= i < 8 ==> m[i] == m[7 - i])
  {
    hide Encode, Decode, View;
    DoubleWritten(m, node, c, Compress);
    var b := Encode(Double(m, node), c, Compress).bytes;
    DoubleRead(b, 0, View(c, {}));
    var n := Decode(b, 0, View(c, {})).value.memory;
    forall i | 0 <= i < 8 ensures n[i] == m[7 - i] { assert b[1 + (7 - i)] == m[7 - i]; }
  }

  const ONE: Octets := [0, 0, 0, 0, 0, 0, 0xF0, 0x3F]

  /** The double 1.0 is such a case. */
  lemma OneIsLost(node: nat)
    ensures var d := Decode(Encode(Double(ONE, node), EMPTY, Compress).bytes, 0, FRESH);
      d.Ok? && d.value.Double? && d.value.memory != ONE
  {
    assert View(EMPTY, {}) == FRESH;
    DoubleRoundTripIff(ONE, node, EMPTY);
    assert ONE[0] != ONE[7 - 0];
  }

  // ----- Wide integers -----

  /** A word from its bytes, last byte most significant. */
  function WordAt(s: seq<byte>, p: nat): int
    requires p + 4 <= |s|
  {
    s[p + 3] as int * 0x100_0000 + s[p + 2] as int * 0x1_0000 + s[p + 1] as int * 0x100 + s[p] as int
  }

  /**
    Eight bytes in memory are the double that has the sign of `v` and, to the last bit, its
    magnitude: significand times two to the exponent, which is that of 29 to 32 binary digits.
   */
  predicate IsDoubleOf(b: seq<byte>, v: int) {
    |b| == 8
    && var low, high, a := WordAt(b, 0), WordAt(b, 4), if v < 0 then -v else v;
       var exponent := high / 0x10_0000 % 0x800 - 1023;
       var significand := (0x10_0000 + high % 0x10_0000) * 0x1_0000_0000 + low;
       && (high >= 0x8000_0000 <==> v < 0)
       && (  (exponent == 28 && significand == a * 0x100_0000)
          || (exponent == 29 && significand == a * 0x80_0000)
          || (exponent == 30 && significand == a * 0x40_0000)
          || (exponent == 31 && significand == a * 0x20_0000))
  }

  lemma WordsOfDouble(v: int)
    requires Wide(v)
    ensures WordAt(DoubleMemory(v), 0) == LowWord(v) && WordAt(DoubleMemory(v), 4) == HighWord(v)
  {
    hide LowWord, HighWord;
    WordDigits(LowWord(v));
    WordDigits(HighWord(v));
  }

  lemma DoubleMemoryExact(v: int)
    requires Wide(v)
    ensures IsDoubleOf(DoubleMemory(v), v)
  {
    hide DoubleMemory, WordAt, Fraction;
    WordsOfDouble(v);
    SplitFraction(Fraction(v));
    SplitHigh(HighWord(v), if v < 0 then 2048 else 0, 1023 + Exponent(v), Fraction(v) / 0x1_0000_0000);
    FractionIs(v);
  }

  /** An integer goes out in the variable-length notation, or outside the 29-bit range as a double. */
  lemma IntegerWritten(v: int, c: Context, m: Policy)
    requires -0x8000_0000 <= v < 0x8000_0000
    ensures Encode(Integer(v), c, m).Wrote? && Encode(Integer(v), c, m).ctx == c
    ensures var b := Encode(Integer(v), c, m).bytes;
      b != [] && if -0x1000_0000 <= v < 0x1000_0000 then b[0] == 4 && U29.Spells(b[1..], v)
                 else b[0] == 5 && IsDoubleOf(b[1..], v)
  {
    hide U29.Write, U29.Spells, DoubleMemory, IsDoubleOf;
    var b := Encode(Integer(v), c, m).bytes;
    if Wide(v) {
      assert b == [DOUBLE] + DoubleMemory(v);
      DoubleMemoryExact(v);
      assert b[1..] == DoubleMemory(v);
    } else {
      assert b == [INTEGER] + U29.Write(v);
      U29.WriteShortest(v, []);
      assert b[1..] == U29.Write(v);
    }
  }

  lemma FractionIs(v: int)
    requires Wide(v)
    ensures Fraction(v) == (if v < 0 then -v else v) * Scale(Exponent(v)) - 0x10_0000_0000_0000
  {
  }

  lemma SplitFraction(f: int)
    requires 0 <= f < 0x10_0000_0000_0000
    ensures f == f / 0x1_0000_0000 * 0x1_0000_0000 + f % 0x1_0000_0000
    ensures 0 <= f / 0x1_0000_0000 < 0x10_0000 && 0 <= f % 0x1_0000_0000 < 0x1_0000_0000
  {
  }

  lemma SplitHigh(high: int, sign: int, exponent: int, top: int)
    requires high == (sign + exponent) * 0x10_0000 + top && 0 <= top < 0x10_0000
    requires (sign == 0 || sign == 2048) && 0 <= exponent < 0x800
    ensures high / 0x10_0000 % 0x800 == exponent && high % 0x10_0000 == top && (high >= 0x8000_0000 <==> sign == 2048)
  {
  }

  // ----- Equality -----

  predicate Negative(m: Octets) {
    m[7] >= 128
  }

  function Exponent11(m: Octets): int {
    (m[7] as int % 128) * 16 + m[6] as int / 16
  }

  /** The 52 bits after the binary point. */
  function Fraction52(m: Octets): int {
    (m[6] as int % 16) * 0x1_0000_0000_0000 + m[5] as int * 0x100_0000_0000 + m[4] as int * 0x1_0000_0000
    + m[3] as int * 0x100_0000 + m[2] as int * 0x1_0000 + m[1] as int * 0x100 + m[0] as int
  }

  /**
    Two doubles are equal if they are one object, or if neither is a NaN and they are both
    zero or agree in sign, exponent and fraction.
   */
  lemma DoubleEqIff(m: Octets, i: nat, n: Octets, j: nat)
    ensures Eq(Double(m, i), Double(n, j)) <==>
      || (m == n && i == j)
      || (&& !(Exponent11(m) == 2047 && Fraction52(m) != 0) && !(Exponent11(n) == 2047 && Fraction52(n) != 0)
          && Exponent11(m) == Exponent11(n) && Fraction52(m) == Fraction52(n)
          && ((Exponent11(m) == 0 && Fraction52(m) == 0) || (Negative(m) <==> Negative(n))))
  {
    NaNIff(m);
    NaNIff(n);
    ZeroIff(m);
    ZeroIff(n);
    if Exponent11(m) == Exponent11(n) && Fraction52(m) == Fraction52(n) && (Negative(m) <==> Negative(n)) {
      BitsDetermine(m, n);
    }
  }

  lemma NaNIff(m: Octets)
    ensures IsNaN(m) <==> Exponent11(m) == 2047 && Fraction52(m) != 0
  {
  }

  lemma ZeroIff(m: Octets)
    ensures IsZero(m) <==> Exponent11(m) == 0 && Fraction52(m) == 0
  {
  }

  lemma BitsDetermine(m: Octets, n: Octets)
    requires Exponent11(m) == Exponent11(n) && Fraction52(m) == Fraction52(n) && (Negative(m) <==> Negative(n))
    ensures m == n
  {
    Digits(m[6] as int % 16, m[5], m[4], m[3], m[2], m[1], m[0], n[6] as int % 16, n[5], n[4], n[3], n[2], n[1], n[0]);
    Nibbles(m[7] as int % 128, m[6], n[7] as int % 128, n[6]);
    Signed(m[7], n[7]);
    assert m == [m[0], m[1], m[2], m[3], m[4], m[5], m[6], m[7]];
  }

  lemma Digits(a: int, b: byte, c: byte, d: byte, e: byte, f: byte, g: byte, a': int, b': byte, c': byte, d': byte,
               e': byte, f': byte, g': byte)
    requires a * 0x1_0000_0000_0000 + b as int * 0x100_0000_0000 + c as int * 0x1_0000_0000 + d as int * 0x100_0000
             + e as int * 0x1_0000 + f as int * 0x100 + g as int
          == a' * 0x1_0000_0000_0000 + b' as int * 0x100_0000_0000 + c' as int * 0x1_0000_0000
             + d' as int * 0x100_0000 + e' as int * 0x1_0000 + f' as int * 0x100 + g' as int
    ensures a == a' && b == b' && c == c' && d == d' && e == e' && f == f' && g == g'
  {
  }

  lemma Nibbles(a: int, b: byte, c: int, d: byte)
    requires a * 16 + b as int / 16 == c * 16 + d as int / 16 && b as int % 16 == d as int % 16
    ensures a == c && b == d
  {
  }

  lemma Signed(a: byte, b: byte)
    requires a as int % 128 == b as int % 128 && (a >= 128 <==> b >= 128)
    ensures a == b
  {
  }
}
