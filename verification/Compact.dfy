/** The compact form of 256-bit numbers: a size in bytes and a 23-bit mantissa (src/arith_uint256.cpp). */
module Compact {
  import opened Powers
  import opened ArithShift

  const SIGN_BIT := 0x0080_0000
  const SIZE_UNIT := 0x0100_0000

  function BitLength(v: nat): nat {
    if v == 0 then 0 else 1 + BitLength(v / 2)
  }

  lemma {:induction false} BitLengthIs(v: nat)
    ensures IsBits(v, BitLength(v))
  {
    if v > 0 {
      BitLengthIs(v / 2);
      if v / 2 == 0 {
        assert v == 1 && Pow2(0) == 1;
      }
    }
  }

  /** The bit length is the only number of bits. */
  lemma BitsUnique(v: nat, r: nat)
    requires IsBits(v, r)
    ensures r == BitLength(v)
  {
    BitLengthIs(v);
    var s := BitLength(v);
    if v > 0 && r < s {
      Pow2Mono(r, s - 1);
      assert false;
    }
    if v > 0 && s < r {
      Pow2Mono(s, r - 1);
      assert false;
    }
  }

  lemma BitLengthMono(v: nat, w: nat)
    requires v <= w
    ensures BitLength(v) <= BitLength(w)
  {
    BitLengthIs(v);
    BitLengthIs(w);
    var r, s := BitLength(v), BitLength(w);
    if s < r {
      Pow2Mono(s, r - 1);
      assert false;
    }
  }

  // ----- As the code computes it

  /** The number moved so that a size of `n` bytes fills three. */
  function Scaled(v: nat, n: nat): nat {
    hide Pow2;
    if n <= 3 then v * Pow2(8 * (3 - n)) else v / Pow2(8 * (n - 3))
  }

  /** Size and mantissa in one word; a set sign bit moves a byte from the mantissa to the size. */
  function Pack(nSize: nat, c: nat): nat {
    if (c / SIGN_BIT) % 2 == 1 then (nSize + 1) * SIZE_UNIT + c / 256 else nSize * SIZE_UNIT + c
  }

  /** The compact form without its sign. */
  function Magnitude(v: nat): nat {
    var nSize := (BitLength(v) + 7) / 8;
    Pack(nSize, Scaled(v, nSize) % 0x1_0000_0000)
  }

  /** The compact form of a number; a sign goes with a mantissa that is not zero. */
  function GetCompact(v: nat, negative: bool): nat {
    var c := Magnitude(v);
    if negative && c % SIGN_BIT != 0 then c + SIGN_BIT else c
  }

  datatype Decoded = Decoded(value: nat, negative: bool, overflow: bool)

  function Decode(nSize: nat, mantissa: nat, sign: bool): Decoded {
    hide Pow2;
    var word := if nSize <= 3 then mantissa / Pow2(8 * (3 - nSize)) else mantissa;
    Decoded(if nSize <= 3 then word else (word * Pow2(8 * (nSize - 3))) % Pow2(256),
            word != 0 && sign,
            word != 0 && (nSize > 34 || (word > 0xff && nSize > 33) || (word > 0xffff && nSize > 32)))
  }

  function SetCompact(c: nat): Decoded {
    Decode(c / SIZE_UNIT, c % SIGN_BIT, (c / SIGN_BIT) % 2 == 1)
  }

  // ----- What it means

  /** The size that leaves the top bit of the mantissa clear. */
  function Size(v: nat): nat {
    if v == 0 then 0 else BitLength(v) / 8 + 1
  }

  function Mantissa(v: nat): nat {
    Scaled(v, Size(v))
  }

  /** The number with the bytes below its three highest cleared. */
  function Cleared(v: nat): nat {
    if Size(v) <= 3 then v else Mantissa(v) * Pow2(8 * (Size(v) - 3))
  }

  /** A quotient by a power of two stays between powers of two. */
  lemma QuotientBetween(v: nat, lo: nat, hi: nat, k: nat)
    requires Pow2(lo) <= v < Pow2(hi) && k <= lo < hi
    ensures Pow2(lo - k) <= v / Pow2(k) < Pow2(hi - k)
  {
    hide Pow2;
    Pow2Sum(k, lo - k);
    Pow2Sum(k, hi - k);
    QuotientBelow(v, Pow2(k), Pow2(hi - k));
    QuotientAbove(v, Pow2(k), Pow2(lo - k));
  }

  lemma ProductBetween(v: nat, lo: nat, hi: nat, k: nat)
    requires Pow2(lo) <= v < Pow2(hi)
    ensures Pow2(lo + k) <= v * Pow2(k) < Pow2(hi + k)
  {
    hide Pow2;
    Pow2Sum(lo, k);
    Pow2Sum(hi, k);
    MulMono(Pow2(lo), v, Pow2(k));
    MulMono(v + 1, Pow2(hi), Pow2(k));
    Distribute(v, 1, 1, Pow2(k));
  }

  lemma Small()
    ensures Pow2(15) == 0x8000 && Pow2(16) == 0x1_0000 && Pow2(23) == SIGN_BIT && Pow2(24) == SIZE_UNIT
  {
    assert Pow2(7) == 128;
    Pow2Sum(8, 7);
    Pow2Sum(8, 8);
    Pow2Sum(16, 7);
    Pow2Sum(16, 8);
  }

  /** The mantissa of a positive number lies between 2^15 and 2^23. */
  lemma MantissaRange(v: nat)
    requires v > 0
    ensures 0x8000 <= Mantissa(v) < SIGN_BIT
    ensures BitLength(v) % 8 == 0 ==> Mantissa(v) < 0x1_0000
  {
    var bits, s := BitLength(v), Size(v);
    BitLengthIs(v);
    Small();
    hide Pow2;
    if s <= 3 {
      ProductBetween(v, bits - 1, bits, 8 * (3 - s));
      Pow2Mono(15, bits - 1 + 8 * (3 - s));
      Pow2Mono(bits + 8 * (3 - s), 23);
      if bits % 8 == 0 {
        assert bits + 8 * (3 - s) == 16;
      }
    } else {
      QuotientBetween(v, bits - 1, bits, 8 * (s - 3));
      Pow2Mono(15, bits - 1 - 8 * (s - 3));
      Pow2Mono(bits - 8 * (s - 3), 23);
      if bits % 8 == 0 {
        assert bits - 8 * (s - 3) == 16;
      }
    }
  }

  lemma PackClear(n: nat, c: nat)
    requires c < SIGN_BIT
    ensures Pack(n, c) == n * SIZE_UNIT + c
  {
  }

  lemma PackSet(n: nat, c: nat)
    requires SIGN_BIT <= c < SIZE_UNIT
    ensures Pack(n, c) == (n + 1) * SIZE_UNIT + c / 256
  {
  }

  lemma ZeroForm()
    ensures BitLength(0) == 0 && Scaled(0, 0) == 0
  {
  }

  /** The code's form is size, sign and mantissa side by side; zero has no sign. */
  lemma GetCompactIs(v: nat, negative: bool)
    ensures GetCompact(v, negative) == Size(v) * SIZE_UNIT + (if negative && v > 0 then SIGN_BIT else 0) + Mantissa(v)
    ensures Mantissa(v) < SIGN_BIT
  {
    hide Mantissa, Magnitude, BitLength, Size;
    MagnitudeIs(v);
    if v == 0 {
      MantissaZero();
      SizeZero();
    } else {
      MantissaRange(v);
      assert (Size(v) * SIZE_UNIT + Mantissa(v)) % SIGN_BIT == Mantissa(v) by { LowPart(Size(v), Mantissa(v)); }
    }
  }

  lemma SizeZero()
    ensures Size(0) == 0
  {
  }

  lemma LowPart(s: nat, m: nat)
    requires m < SIGN_BIT
    ensures (s * SIZE_UNIT + m) % SIGN_BIT == m
  {
    DivisionIs(s * SIZE_UNIT + m, SIGN_BIT, 2 * s, m);
  }

  lemma MagnitudeIs(v: nat)
    ensures Magnitude(v) == Size(v) * SIZE_UNIT + Mantissa(v)
  {
    hide Scaled, Pack, BitLength;
    ZeroForm();
    if v == 0 {
      PackClear(0, 0);
    } else if BitLength(v) % 8 != 0 {
      MantissaRange(v);
      PackClear(Size(v), Mantissa(v));
    } else {
      var a := BitLength(v) / 8;
      FullBytes(v);
      PackSet(a, Scaled(v, a));
      ByteLess(v, a);
    }
  }

  /** A number whose bits fill whole bytes has the sign bit set. */
  lemma FullBytes(v: nat)
    requires v > 0 && BitLength(v) % 8 == 0
    ensures BitLength(v) > 0 && SIGN_BIT <= Scaled(v, BitLength(v) / 8) < SIZE_UNIT
  {
    hide Pow2, BitLength;
    var bits, a := BitLength(v), BitLength(v) / 8;
    BitLengthIs(v);
    Small();
    if a <= 3 {
      ProductBetween(v, bits - 1, bits, 8 * (3 - a));
    } else {
      QuotientBetween(v, bits - 1, bits, 8 * (a - 3));
    }
  }

  lemma ByteLess(v: nat, a: nat)
    requires a > 0
    ensures Scaled(v, a) / 256 == Scaled(v, a + 1)
  {
    assert Pow2(8) == 256 && Pow2(0) == 1;
    hide Pow2;
    if a < 3 {
      Pow2Sum(8 * (2 - a), 8);
      assert v * (Pow2(8 * (2 - a)) * 256) == (v * Pow2(8 * (2 - a))) * 256;
      DivisionIs(v * Pow2(8 * (3 - a)), 256, v * Pow2(8 * (2 - a)), 0);
    } else if a > 3 {
      Pow2Sum(8 * (a - 3), 8);
      QuotientTwice(v, Pow2(8 * (a - 3)), 256);
    }
  }

  lemma QuotientTwice(v: nat, d: nat, e: nat)
    requires d > 0 && e > 0
    ensures d * e > 0 && (v / d) / e == v / (d * e)
  {
    var q, r := v / d, v % d;
    var t, u := q / e, q % e;
    assert v == q * d + r && q == t * e + u;
    TwoSteps(v, d, e, q, r, t, u);
    assert d * e > 0;
    DivisionIs(v, d * e, t, u * d + r);
  }

  lemma TwoSteps(v: nat, d: nat, e: nat, q: nat, r: nat, t: nat, u: nat)
    requires v == q * d + r && q == t * e + u && r < d && u < e
    ensures v == t * (d * e) + (u * d + r) && u * d + r < d * e
  {
    Distribute(t, e, u, d);
    assert t * (e * d) == t * (d * e);
    MulMono(u + 1, e, d);
    Distribute(u, 1, 1, d);
  }

  /** Among numbers of one sign the compact form is monotone in the magnitude. */
  lemma CompactMonotone(v: nat, w: nat, negative: bool)
    requires v <= w
    ensures GetCompact(v, negative) <= GetCompact(w, negative)
  {
    hide Scaled, BitLength, GetCompact, Mantissa;
    GetCompactIs(v, negative);
    GetCompactIs(w, negative);
    BitLengthMono(v, w);
    if v == 0 {
      MantissaZero();
    } else if Size(v) == Size(w) {
      MantissaMono(v, w);
    }
  }

  lemma MantissaZero()
    ensures Mantissa(0) == 0
  {
  }

  lemma MantissaMono(v: nat, w: nat)
    requires v <= w && Size(v) == Size(w)
    ensures Mantissa(v) <= Mantissa(w)
  {
    hide Pow2, Size, BitLength;
    if Size(v) <= 3 {
      MulMono(v, w, Pow2(8 * (3 - Size(v))));
    } else {
      var d := Pow2(8 * (Size(v) - 3));
      assert v == (v / d) * d + v % d;
      QuotientAbove(w, d, v / d);
    }
  }

  /** Decoding the compact form gives the number with its trailing bytes cleared, its sign unless it is zero, and no overflow. */
  lemma CompactRoundTrip(v: nat, negative: bool)
    requires v < Pow2(256)
    ensures SetCompact(GetCompact(v, negative)) == Decoded(Cleared(v), negative && v > 0, false) && Cleared(v) <= v
  {
    hide Pow2, BitLength, GetCompact, Decode;
    GetCompactIs(v, negative);
    var s, m := Size(v), Mantissa(v);
    Unpack(s, m, negative && v > 0);
    if v == 0 {
      MantissaZero();
      DecodeSmall(0, 0, 0, false);
    } else {
      MantissaRange(v);
      SizeLimit(v);
      if s <= 3 {
        DecodeSmall(s, m, v, negative);
      } else {
        DecodeLarge(s, m, v, negative);
      }
    }
  }

  lemma Unpack(s: nat, m: nat, sign: bool)
    requires m < SIGN_BIT
    ensures SetCompact(s * SIZE_UNIT + (if sign then SIGN_BIT else 0) + m) == Decode(s, m, sign)
  {
    hide Decode;
    var c := s * SIZE_UNIT + (if sign then SIGN_BIT else 0) + m;
    assert c == (2 * s + if sign then 1 else 0) * SIGN_BIT + m;
  }

  lemma DecodeSmall(s: nat, m: nat, v: nat, sign: bool)
    requires s <= 3 && m == v * Pow2(8 * (3 - s))
    ensures Decode(s, m, sign) == Decoded(v, sign && v != 0, false)
  {
    hide Pow2;
    DivisionIs(m, Pow2(8 * (3 - s)), v, 0);
  }

  lemma DecodeLarge(s: nat, m: nat, v: nat, sign: bool)
    requires m > 0 && 3 < s <= 33 && (s == 33 ==> m <= 0xffff) && m == v / Pow2(8 * (s - 3)) && v < Pow2(256)
    ensures Decode(s, m, sign) == Decoded(m * Pow2(8 * (s - 3)), sign, false) && m * Pow2(8 * (s - 3)) <= v
  {
    hide Pow2;
    var d := Pow2(8 * (s - 3));
    assert v == m * d + v % d;
    DivisionIs(m * d, Pow2(256), 0, m * d);
  }

  lemma SizeLimit(v: nat)
    requires 0 < v < Pow2(256)
    ensures Size(v) <= 33 && (Size(v) == 33 ==> BitLength(v) % 8 == 0)
  {
    BitLengthIs(v);
    var bits := BitLength(v);
    if bits > 256 {
      Pow2Mono(256, bits - 1);
      assert false;
    }
  }

  /** The overflow flag of every word says exactly that the number it stands for does not fit 256 bits. */
  lemma OverflowIff(c: nat)
    ensures SetCompact(c).overflow <==> c / SIZE_UNIT > 3 && (c % SIGN_BIT) * Pow2(8 * (c / SIZE_UNIT - 3)) >= Pow2(256)
  {
    var n, word := c / SIZE_UNIT, c % SIGN_BIT;
    if n > 3 && word > 0 {
      Fits(n, word);
    }
  }

  lemma Fits(n: nat, word: nat)
    requires n > 3 && 0 < word < SIGN_BIT
    ensures word * Pow2(8 * (n - 3)) >= Pow2(256) <==> n > 34 || (word > 0xff && n > 33) || (word > 0xffff && n > 32)
  {
    hide Pow2;
    if n > 34 {
      Pow2Mono(256, 8 * (n - 3));
      MulMono(1, word, Pow2(8 * (n - 3)));
    } else if n == 34 {
      AtPlace(word, 8, 248);
    } else if n == 33 {
      AtPlace(word, 16, 240);
    } else {
      FitsBelow(n, word);
    }
  }

  lemma AtPlace(word: nat, k: nat, place: nat)
    requires k + place == 256 && (k == 8 || k == 16 || k == 24)
    ensures word * Pow2(place) >= Pow2(256) <==> word >= (if k == 8 then 0x100 else if k == 16 then 0x1_0000 else SIZE_UNIT)
  {
    Small();
    assert Pow2(8) == 0x100;
    hide Pow2;
    Pow2Sum(k, place);
    Threshold(word, Pow2(k), Pow2(place));
  }

  lemma FitsBelow(n: nat, word: nat)
    requires 3 < n <= 32 && word < SIGN_BIT
    ensures word * Pow2(8 * (n - 3)) < Pow2(256)
  {
    hide Pow2;
    Pow2Mono(8 * (n - 3), 232);
    MulMono(Pow2(8 * (n - 3)), Pow2(232), word);
    AtPlace(word, 24, 232);
  }

  lemma Threshold(word: nat, k: nat, d: nat)
    requires d > 0
    ensures word * d >= k * d <==> word >= k
  {
    if word >= k {
      MulMono(k, word, d);
    } else {
      MulMono(word + 1, k, d);
      Distribute(word, 1, 1, d);
    }
  }

  /** Encoding again what was decoded changes nothing. */
  lemma CompactIdempotent(v: nat, negative: bool)
    requires v < Pow2(256)
    ensures var c := GetCompact(v, negative); GetCompact(SetCompact(c).value, SetCompact(c).negative) == c
  {
    hide Pow2, BitLength, GetCompact, SetCompact;
    CompactRoundTrip(v, negative);
    GetCompactIs(v, negative);
    GetCompactIs(Cleared(v), negative && v > 0);
    if Size(v) > 3 {
      ClearedKeepsLength(v);
      var d, m := Pow2(8 * (Size(v) - 3)), Mantissa(v);
      DivisionIs(m * d, d, m, 0);
    }
  }

  lemma ClearedKeepsLength(v: nat)
    requires Size(v) > 3
    ensures BitLength(Cleared(v)) == BitLength(v) && Cleared(v) > 0
  {
    BitLengthIs(v);
    var bits, k := BitLength(v), 8 * (Size(v) - 3);
    hide Pow2, BitLength;
    var d := Pow2(k);
    QuotientBetween(v, bits - 1, bits, k);
    Pow2Sum(bits - 1 - k, k);
    MulMono(Pow2(bits - 1 - k), v / d, d);
    assert v == (v / d) * d + v % d;
    BitsUnique(Cleared(v), bits);
  }
}
