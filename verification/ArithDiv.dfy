/** Shift-subtract division of fixed-width integers (src/arith_uint256.cpp). */
module ArithDiv {
  import opened Powers
  import opened Arith
  import opened ArithShift

  /** Below a clear bit position, a limb is a multiple of the next power of two. */
  lemma ClearBelow(s: seq<Limb>, shift: nat, c: nat) returns (e: nat)
    requires Value(s) == c * Pow2(shift + 1) && shift / LIMB_BITS < |s|
    ensures s[shift / LIMB_BITS] == e * Pow2(shift % LIMB_BITS + 1)
  {
    hide Value, Place, Pow2;
    var w, t := shift / LIMB_BITS, shift % LIMB_BITS;
    var high := Value(s[w + 1..]);
    LimbAt(s, w);
    PlaceIsPow2(w);
    Pow2Sum(t + 1, LIMB_BITS * w);
    assert t + 1 + LIMB_BITS * w == shift + 1;
    var f := Pow2(t + 1);
    assert c * (f * Place(w)) == (c * f) * Place(w);
    DivisionIs(Value(s), Place(w), s[w] + BASE * high, Value(s[..w]));
    DivisionIs(Value(s), Place(w), c * f, 0);
    LimbBits();
    Pow2Sum(t + 1, LIMB_BITS - 1 - t);
    var g := Pow2(LIMB_BITS - 1 - t);
    e := Multiple(s[w], c, f, g, high);
  }

  lemma Multiple(limb: nat, c: nat, f: nat, g: nat, high: nat) returns (e: nat)
    requires f > 0 && limb + (f * g) * high == c * f
    ensures limb == e * f
  {
    assert (f * g) * high == (g * high) * f;
    var k: int := c - g * high;
    assert k * f == c * f - (g * high) * f;
    assert k * f >= 0;
    assert k >= 0 by {
      assert k <= -1 ==> k * f <= 0 - f;
    }
    e := k;
  }

  lemma LimbAt(s: seq<Limb>, w: nat)
    requires w < |s|
    ensures Value(s) == (s[w] + BASE * Value(s[w + 1..])) * Place(w) + Value(s[..w]) && Value(s[..w]) < Place(w)
  {
    hide Value, Place;
    ValueSplit(s, w + 1);
    PrefixValue(s, w);
    PlaceNext(w);
    ValueBound(s[..w]);
    var high := Value(s[w + 1..]);
    assert (BASE * Place(w)) * high == (BASE * high) * Place(w);
    assert (s[w] + BASE * high) * Place(w) == s[w] * Place(w) + (BASE * high) * Place(w);
  }

  /** Sets a bit above which the value is known and below which it is clear. */
  method SetBit(pn: array<Limb>, shift: nat, ghost c: nat)
    requires shift / LIMB_BITS < pn.Length && Value(pn[..]) == c * Pow2(shift + 1)
    modifies pn
    ensures Value(pn[..]) == Value(old(pn[..])) + Pow2(shift)
  {
    hide Value, Place, Pow2, Or;
    var w, t := shift / LIMB_BITS, shift % LIMB_BITS;
    ghost var p := pn[..];
    ghost var e := ClearBelow(p, shift, c);
    BitFits(pn[w], e, t);
    OrDisjoint(Pow2(t), e, t + 1);
    var limb: Limb := Or(Pow2(t), pn[w]);
    pn[w] := limb;
    ValueSet(p, w, limb);
    ShiftParts(shift);
    assert pn[..] == p[w := limb];
  }

  lemma BitFits(x: Limb, e: nat, t: nat)
    requires t < LIMB_BITS && x == e * Pow2(t + 1)
    ensures Pow2(t) < Pow2(t + 1) && x + Pow2(t) < BASE
  {
    hide Pow2;
    LimbBits();
    PowNext(t);
    Pow2Sum(t + 1, LIMB_BITS - 1 - t);
    var f, g := Pow2(t + 1), Pow2(LIMB_BITS - 1 - t);
    CancelLess(e, g, f);
    MulMono(e + 1, g, f);
    Distribute(e, 1, 1, f);
  }

  lemma CancelLess(e: nat, g: nat, f: nat)
    requires e * f < f * g
    ensures e < g
  {
    if e >= g {
      MulMono(g, e, f);
      assert false;
    }
  }

  /** Aligning the divisor with the dividend does not overflow. */
  lemma Aligned(v: nat, b: nat, nb: nat, db: nat, n: nat)
    requires IsBits(v, nb) && IsBits(b, db) && 0 < db <= nb && v < Place(n)
    ensures b * Pow2(nb - db) < Place(n) && v < b * Pow2(nb - db + 1)
    ensures (nb - db) / LIMB_BITS < n
  {
    hide Pow2, Place;
    PlaceIsPow2(n);
    assert nb <= LIMB_BITS * n by {
      if nb > LIMB_BITS * n {
        Pow2Mono(LIMB_BITS * n, nb - 1);
        assert false;
      }
    }
    Pow2Mono(nb, LIMB_BITS * n);
    Pow2Sum(db, nb - db);
    MulMono(b + 1, Pow2(db), Pow2(nb - db));
    Distribute(b, 1, 1, Pow2(nb - db));
    Pow2Sum(db - 1, nb - db + 1);
    MulMono(Pow2(db - 1), b, Pow2(nb - db + 1));
  }

  /** Between rounds: what is left, the quotient so far, a multiple of `e`, and the divisor make up the dividend. */
  ghost predicate Dividing(v: nat, w: nat, left: nat, q: nat, c: nat, e: nat) {
    left + q * w == v && left < w * e && q == c * e
  }

  ghost function Raised(w: nat, i: nat): nat {
    w * Pow2(i)
  }

  /** One round: the quotient bit, and what is left of the dividend. */
  lemma Round(v: nat, w: nat, left: nat, q: nat, c: nat, i: nat)
    requires Dividing(v, w, left, q, c, Pow2(i + 1))
    ensures q == c * Pow2(i + 1)
    ensures left >= Raised(w, i) ==> Dividing(v, w, left - Raised(w, i), q + Pow2(i), 2 * c + 1, Pow2(i))
    ensures left < Raised(w, i) ==> Dividing(v, w, left, q, 2 * c, Pow2(i))
  {
    hide Pow2;
    PowNext(i);
    RoundProducts(q, w, c, Pow2(i));
  }

  lemma RoundProducts(q: nat, b: nat, c: nat, e: nat)
    ensures (q + e) * b == q * b + b * e && b * (2 * e) == b * e + b * e
    ensures c * (2 * e) == (2 * c) * e && (2 * c + 1) * e == (2 * c) * e + e
  {
  }

  method Copy(b: seq<Limb>) returns (r: array<Limb>)
    ensures fresh(r) && r[..] == b
  {
    r := new Limb[|b|](i requires 0 <= i < |b| => b[i]);
  }

  /** Subtracts where that leaves something. */
  method SubtractIf(num: array<Limb>, div: array<Limb>) returns (fits: bool)
    requires num != div && num.Length == div.Length
    modifies num
    ensures fits <==> old(Value(num[..])) >= Value(div[..])
    ensures Value(num[..]) == old(Value(num[..])) - if fits then Value(div[..]) else 0
  {
    hide Value, Place;
    ghost var x, y := Value(num[..]), Value(div[..]);
    ValueBound(num[..]);
    var sign := CompareTo(num[..], div[..]);
    fits := sign >= 0;
    if fits {
      SubAssign(num, div);
      DivisionIs(x - y, Place(num.Length), 0, x - y);
    }
  }

  /** The floor of the quotient, also by itself; a zero divisor is an error and leaves zero. */
  method DivAssign(pn: array<Limb>, b: array<Limb>) returns (ok: bool)
    requires b.Length == pn.Length
    modifies pn
    ensures ok <==> Value(old(b[..])) != 0
    ensures Value(pn[..]) == if ok then Value(old(pn[..])) / Value(old(b[..])) else 0
  {
    ok := DivideBy(pn, b[..]);
  }

  method DivideBy(pn: array<Limb>, b: seq<Limb>) returns (ok: bool)
    requires |b| == pn.Length
    modifies pn
    ensures ok <==> Value(b) != 0
    ensures Value(pn[..]) == if ok then Value(old(pn[..])) / Value(b) else 0
  {
    hide Value, Place, Pow2, Dividing, Raised;
    ghost var v, w, n := Value(pn[..]), Value(b), pn.Length;
    ValueBound(pn[..]);
    var div := Copy(b);
    var num := Copy(pn[..]);
    Clear(pn);
    var numBits := Bits(num[..]);
    var divBits := Bits(div[..]);
    if divBits == 0 {
      return false;
    }
    if divBits > numBits {
      SmallerBits(v, w, numBits, divBits);
      DivisionIs(v, w, 0, v);
      return true;
    }
    var shift := numBits - divBits;
    Starts(v, w, numBits, divBits, n);
    ShlAssign(div, shift);
    DivideRounds(pn, num, div, shift, v, w);
    ok := true;
  }

  lemma Starts(v: nat, w: nat, nb: nat, db: nat, n: nat)
    requires IsBits(v, nb) && IsBits(w, db) && 0 < db <= nb && v < Place(n)
    ensures Dividing(v, w, v, 0, 0, Pow2(nb - db + 1)) && (nb - db) / LIMB_BITS < n
    ensures (w * Pow2(nb - db)) % Place(n) == Raised(w, nb - db)
  {
    hide Pow2, Place, IsBits;
    Aligned(v, w, nb, db, n);
    DivisionIs(w * Pow2(nb - db), Place(n), 0, w * Pow2(nb - db));
  }

  /** The rounds of the long division, from the divisor raised to the height of the dividend. */
  method DivideRounds(pn: array<Limb>, num: array<Limb>, div: array<Limb>, start: nat, ghost v: nat, ghost w: nat)
    requires pn != num && pn != div && num != div && num.Length == div.Length == pn.Length && start / LIMB_BITS < pn.Length
    requires Value(num[..]) == v && Value(pn[..]) == 0 && Value(div[..]) == Raised(w, start)
    requires Dividing(v, w, v, 0, 0, Pow2(start + 1)) && w > 0
    modifies pn, num, div
    ensures Value(pn[..]) == v / w
  {
    hide Value, Pow2, Dividing, Raised;
    ghost var c: nat := 0;
    var shift: int := start;
    while shift >= 0
      invariant -1 <= shift <= start
      invariant shift >= 0 ==> Value(div[..]) == Raised(w, shift)
      invariant Dividing(v, w, Value(num[..]), Value(pn[..]), c, Pow2(shift + 1))
    {
      Round(v, w, Value(num[..]), Value(pn[..]), c, shift);
      LimbOf(shift, start);
      var fits := SubtractIf(num, div);
      if fits {
        SetBit(pn, shift, c);
      }
      c := if fits then 2 * c + 1 else 2 * c;
      ShrAssign(div, 1);
      if shift > 0 {
        HalfOf(w, shift);
      }
      shift := shift - 1;
    }
    Divided(v, w, Value(num[..]), Value(pn[..]), c);
  }

  lemma LimbOf(i: nat, k: nat)
    requires i <= k
    ensures i / LIMB_BITS <= k / LIMB_BITS
  {
  }

  lemma Divided(v: nat, w: nat, left: nat, q: nat, c: nat)
    requires Dividing(v, w, left, q, c, Pow2(0)) && w > 0
    ensures v / w == q
  {
    PowZero();
    DivisionIs(v, w, q, left);
  }

  lemma PowNext(i: nat)
    ensures Pow2(i + 1) == 2 * Pow2(i)
  {
  }

  lemma HalfOf(w: nat, i: nat)
    requires i > 0
    ensures Raised(w, i) / Pow2(1) == Raised(w, i - 1)
  {
    hide Pow2;
    PowNext(i - 1);
    PowZero();
    PowNext(0);
    assert w * (2 * Pow2(i - 1)) == (w * Pow2(i - 1)) * 2;
    DivisionIs(w * (2 * Pow2(i - 1)), 2, w * Pow2(i - 1), 0);
  }

  lemma SmallerBits(v: nat, w: nat, nb: nat, db: nat)
    requires IsBits(v, nb) && IsBits(w, db) && nb < db
    ensures v < w
  {
    if nb > 0 {
      Pow2Mono(nb, db - 1);
    }
  }
}
