/** Shifts, bit length and shift-subtract division of fixed-width integers (src/arith_uint256.cpp). */
module ArithShift {
  import opened Powers
  import opened Arith

  const LIMB_BITS := 32

  /** Bitwise or. */
  function Or(x: nat, y: nat): nat {
    if x == 0 then y else if y == 0 then x
    else 2 * Or(x / 2, y / 2) + if x % 2 == 1 || y % 2 == 1 then 1 else 0
  }

  /** Where the bits do not overlap, or is addition. */
  lemma {:induction false} OrDisjoint(x: nat, c: nat, s: nat)
    requires x < Pow2(s)
    ensures Or(x, c * Pow2(s)) == x + c * Pow2(s)
  {
    var y := c * Pow2(s);
    if x > 0 && y > 0 {
      assert y == 2 * (c * Pow2(s - 1));
      OrDisjoint(x / 2, c, s - 1);
    }
  }

  lemma {:induction false} PlaceIsPow2(k: nat)
    ensures Place(k) == Pow2(LIMB_BITS * k)
  {
    if k > 0 {
      PlaceIsPow2(k - 1);
      Pow2Sum(LIMB_BITS, LIMB_BITS * (k - 1));
      LimbBits();
    }
  }

  lemma LimbBits()
    ensures Pow2(LIMB_BITS) == BASE
  {
    assert Pow2(8) == 256;
    Pow2Sum(8, 8);
    Pow2Sum(16, 16);
  }

  /** A shift by whole limbs and the rest. */
  lemma ShiftParts(shift: nat)
    ensures Pow2(shift) == Pow2(shift % LIMB_BITS) * Place(shift / LIMB_BITS)
  {
    PlaceIsPow2(shift / LIMB_BITS);
    Pow2Sum(shift % LIMB_BITS, LIMB_BITS * (shift / LIMB_BITS));
  }

  /** A limb shifted left by `s` bits: what stays and what moves to the next limb. */
  lemma ShlParts(x: Limb, s: nat)
    requires s < LIMB_BITS
    ensures x * Pow2(s) == (x / Pow2(LIMB_BITS - s)) * BASE + (x * Pow2(s)) % BASE
    ensures x / Pow2(LIMB_BITS - s) < Pow2(s)
    ensures (x * Pow2(s)) % BASE == (x % Pow2(LIMB_BITS - s)) * Pow2(s)
  {
    LimbBits();
    Pow2Sum(LIMB_BITS - s, s);
    hide Pow2;
    SplitProduct(x, Pow2(LIMB_BITS - s), Pow2(s), BASE);
  }

  lemma SplitProduct(x: nat, d: nat, e: nat, base: nat)
    requires d > 0 && e > 0 && base == d * e && x < base
    ensures x * e == (x / d) * base + (x * e) % base && x / d < e && (x * e) % base == (x % d) * e
  {
    var q, r := x / d, x % d;
    QuotientBelow(x, d, e);
    Distribute(q, d, r, e);
    MulMono(r + 1, d, e);
    Distribute(r, 1, 1, e);
    assert x == q * d + r;
    DivisionIs(x * e, base, q, r * e);
  }

  /** The limbs after or-ing one shifted limb in at position `pos`. */
  function ShlLimb(p: seq<Limb>, x: Limb, pos: nat, s: nat): (r: seq<Limb>)
    requires s < LIMB_BITS && (pos < |p| ==> p[pos] < Pow2(s)) && forall j :: pos < j < |p| ==> p[j] == 0
    ensures |r| == |p|
  {
    ShlParts(x, s);
    var hi, lo := x / Pow2(LIMB_BITS - s), (x * Pow2(s)) % BASE;
    var p1 := if pos + 1 < |p| && s != 0 then p[pos + 1 := Or(p[pos + 1], hi)] else p;
    if pos < |p| then (OrFits(p1[pos], x, s); p1[pos := Or(p1[pos], lo)]) else p1
  }

  lemma OrFits(y: Limb, x: Limb, s: nat)
    requires s < LIMB_BITS && y < Pow2(s)
    ensures Or(y, (x * Pow2(s)) % BASE) == y + (x * Pow2(s)) % BASE < BASE
  {
    ShlParts(x, s);
    var c := x % Pow2(LIMB_BITS - s);
    OrDisjoint(y, c, s);
    LimbBits();
    Pow2Sum(LIMB_BITS - s, s);
    MulMono(c + 1, Pow2(LIMB_BITS - s), Pow2(s));
    assert (c + 1) * Pow2(s) == c * Pow2(s) + Pow2(s);
  }

  /** It adds the shifted limb at that place, up to whole multiples of the modulus. */
  lemma ShlLimbValue(p: seq<Limb>, x: Limb, pos: nat, s: nat) returns (d: nat)
    requires s < LIMB_BITS && (pos < |p| ==> p[pos] < Pow2(s)) && forall j :: pos < j < |p| ==> p[j] == 0
    ensures var r := ShlLimb(p, x, pos, s);
      && Value(r) + d * Place(|p|) == Value(p) + x * Pow2(s) * Place(pos)
      && (pos + 1 < |p| ==> r[pos + 1] < Pow2(s)) && forall j :: pos + 1 < j < |p| ==> r[j] == 0
  {
    hide Value, Place, Or, Pow2;
    ShlParts(x, s);
    var hi, lo := x / Pow2(LIMB_BITS - s), (x * Pow2(s)) % BASE;
    PlaceNext(pos);
    assert (hi * BASE + lo) * Place(pos) == hi * (BASE * Place(pos)) + lo * Place(pos);
    if pos < |p| {
      OrFits(p[pos], x, s);
      if pos + 1 < |p| && s != 0 {
        var p1 := p[pos + 1 := hi];
        OrZero(hi);
        ValueSet(p, pos + 1, hi);
        ValueSet(p1, pos, p[pos] + lo);
        d := 0;
        assert hi - 0 == hi && (p[pos] + lo) - p[pos] == lo;
      } else {
        ValueSet(p, pos, p[pos] + lo);
        assert s == 0 ==> hi == 0 by { NoBits(x); }
        d := if pos + 1 == |p| then hi else 0;
        assert (p[pos] + lo) - p[pos] == lo;
      }
    } else {
      d := x * Pow2(s) * Place(pos - |p|);
      PlaceSum(pos - |p|, |p|);
      assert x * Pow2(s) * (Place(pos - |p|) * Place(|p|)) == d * Place(|p|);
    }
  }

  lemma OrZero(x: nat)
    ensures Or(0, x) == x
  {
  }

  lemma NoBits(x: Limb)
    ensures x / Pow2(LIMB_BITS) == 0 && Pow2(0) == 1
  {
    LimbBits();
  }

  method ShlAssign(pn: array<Limb>, shift: nat)
    modifies pn
    ensures Value(pn[..]) == (Value(old(pn[..])) * Pow2(shift)) % Place(pn.Length)
  {
    hide Value, Place, Pow2, ShlLimb, Or;
    var a := pn[..];
    Clear(pn);
    var k, s := shift / LIMB_BITS, shift % LIMB_BITS;
    ghost var q: nat := 0;
    Nothing(a, a, a);
    var i := 0;
    while i < pn.Length
      invariant 0 <= i <= pn.Length
      invariant i + k < pn.Length ==> pn[i + k] < Pow2(s)
      invariant forall j :: i + k < j < pn.Length ==> pn[j] == 0
      invariant Value(pn[..]) + q * Place(pn.Length) == Value(a[..i]) * (Pow2(s) * Place(k))
    {
      ghost var p := pn[..];
      ghost var d := ShlLimbValue(p, a[i], i + k, s);
      ShlOne(pn, a[i], i + k, s);
      PrefixValue(a, i);
      PlaceSum(i, k);
      ShlSum(Value(p), Value(pn[..]), q, d, Place(pn.Length), Value(a[..i]), a[i], Place(i), Pow2(s), Place(k));
      q := q + d;
      i := i + 1;
    }
    assert a[..i] == a;
    ShiftParts(shift);
    ValueBound(pn[..]);
    Reduced(Value(pn[..]), Value(a) * Pow2(shift), q, Place(pn.Length));
  }

  lemma ShlSum(before: nat, now: nat, q: nat, d: nat, m: nat, low: nat, x: nat, p: nat, e: nat, r: nat)
    requires before + q * m == low * (e * r) && now + d * m == before + x * e * (p * r)
    ensures now + (q + d) * m == (low + x * p) * (e * r)
  {
    assert (q + d) * m == q * m + d * m;
    assert (low + x * p) * (e * r) == low * (e * r) + (x * p) * (e * r);
    assert (x * p) * (e * r) == x * e * (p * r);
  }

  method Clear(pn: array<Limb>)
    modifies pn
    ensures (forall i :: 0 <= i < pn.Length ==> pn[i] == 0) && Value(pn[..]) == 0
  {
    var i := 0;
    while i < pn.Length
      invariant 0 <= i <= pn.Length && forall k :: 0 <= k < i ==> pn[k] == 0
    {
      pn[i] := 0;
      i := i + 1;
    }
    AllZero(pn[..]);
  }

  method ShlOne(pn: array<Limb>, x: Limb, pos: nat, s: nat)
    requires s < LIMB_BITS && (pos < pn.Length ==> pn[pos] < Pow2(s)) && forall j :: pos < j < pn.Length ==> pn[j] == 0
    modifies pn
    ensures pn[..] == ShlLimb(old(pn[..]), x, pos, s)
  {
    hide Or, Pow2;
    ShlParts(x, s);
    if pos + 1 < pn.Length && s != 0 {
      OrZero(x / Pow2(LIMB_BITS - s));
      pn[pos + 1] := Or(pn[pos + 1], x / Pow2(LIMB_BITS - s));
    }
    if pos < pn.Length {
      OrFits(pn[pos], x, s);
      pn[pos] := Or(pn[pos], (x * Pow2(s)) % BASE);
    }
  }

  // ----- Right shift

  /** What a limb shifted right to position `pos` adds. */
  ghost function ShrGain(x: Limb, pos: int, s: nat): int
    requires s < LIMB_BITS
  {
    if pos < 0 then 0
    else if pos == 0 then x / Pow2(s)
    else ((x % Pow2(s)) * Pow2(LIMB_BITS - s)) * Place(pos - 1) + (x / Pow2(s)) * Place(pos)
  }

  /** The part shifted so far: its quotient by `d` and the remainder. */
  ghost predicate ShrPart(a: int, v: int, d: nat, rem: nat) {
    a == v * d + rem && rem < d
  }

  /** Ors one limb, shifted right, in at position `pos` and its low bits into the one below. */
  method ShrOne(pn: array<Limb>, x: Limb, pos: int, s: nat)
    requires s < LIMB_BITS && pos < pn.Length
    requires (pos > 0 ==> pn[pos - 1] < Pow2(LIMB_BITS - s)) && forall j :: 0 <= j < pn.Length && pos <= j ==> pn[j] == 0
    modifies pn
    ensures pos < 0 ==> pn[..] == old(pn[..])
    ensures pos >= 0 ==> pn[pos] == x / Pow2(s) < Pow2(LIMB_BITS - s) && forall j :: pos < j < pn.Length ==> pn[j] == 0
    ensures Value(pn[..]) == Value(old(pn[..])) + ShrGain(x, pos, s)
  {
    hide Or, Pow2, Value, Place;
    ghost var p := pn[..];
    ghost var hi := (x % Pow2(s)) * Pow2(LIMB_BITS - s);
    ShrParts(x, s);
    if pos - 1 >= 0 && s != 0 {
      OrFits(pn[pos - 1], x, LIMB_BITS - s);
      ValueSet(p, pos - 1, p[pos - 1] + hi);
      pn[pos - 1] := Or(pn[pos - 1], (x * Pow2(LIMB_BITS - s)) % BASE);
    }
    if pos >= 0 {
      var lo: Limb := x / Pow2(s);
      OrZero(lo);
      ghost var p1 := pn[..];
      ValueSet(p1, pos, lo);
      pn[pos] := Or(pn[pos], lo);
      assert pn[..] == p1[pos := lo];
      if pos > 0 {
        assert Value(p1) == Value(p) + hi * Place(pos - 1) by {
          if s != 0 {
            var sum: Limb := p[pos - 1] + hi;
            assert p1 == p[pos - 1 := sum] && sum - p[pos - 1] == hi;
          } else {
            NoLowBits(x);
            assert p1 == p;
          }
        }
      } else {
        PlaceZero();
        assert p1 == p;
      }
    }
  }

  lemma PlaceZero()
    ensures Place(0) == 1
  {
  }

  lemma NoLowBits(x: Limb)
    ensures x % Pow2(0) == 0
  {
  }

  lemma ShrParts(x: Limb, s: nat)
    requires s < LIMB_BITS
    ensures x / Pow2(s) < Pow2(LIMB_BITS - s) && x / Pow2(s) < BASE
    ensures s > 0 ==> (x * Pow2(LIMB_BITS - s)) % BASE == (x % Pow2(s)) * Pow2(LIMB_BITS - s)
  {
    LimbBits();
    Pow2Sum(s, LIMB_BITS - s);
    QuotientBelow(x, Pow2(s), Pow2(LIMB_BITS - s));
    DivLe(x, Pow2(s));
    if s > 0 {
      ShlParts(x, LIMB_BITS - s);
    }
  }

  method ShrAssign(pn: array<Limb>, shift: nat)
    modifies pn
    ensures Value(pn[..]) == Value(old(pn[..])) / Pow2(shift)
  {
    hide Value, Place, Pow2, Or, ShrGain, ShrPart;
    var a := pn[..];
    Clear(pn);
    var k, s := shift / LIMB_BITS, shift % LIMB_BITS;
    Nothing(a, a, a);
    ghost var rem := ShrStart(s, k);
    var i := 0;
    while i < pn.Length
      invariant 0 <= i <= pn.Length
      invariant i - k > 0 ==> pn[i - k - 1] < Pow2(LIMB_BITS - s)
      invariant forall j :: 0 <= j < pn.Length && i - k <= j ==> pn[j] == 0
      invariant i <= k ==> Value(pn[..]) == 0
      invariant ShrPart(Value(a[..i]), Value(pn[..]), Pow2(s) * Place(k), rem)
    {
      PrefixValue(a, i);
      ValueBound(a[..i]);
      rem := ShrAdvance(a[i], i, k, s, Value(a[..i]), Value(pn[..]), rem);
      ShrOne(pn, a[i], i - k, s);
      i := i + 1;
    }
    assert a[..i] == a;
    ShiftParts(shift);
    ShrEnd(Value(a), Value(pn[..]), Pow2(s) * Place(k), rem);
  }

  lemma ShrEnd(a: int, v: int, d: nat, rem: nat)
    requires ShrPart(a, v, d, rem)
    ensures a / d == v
  {
    DivisionIs(a, d, v, rem);
  }

  /** One limb on: the quotient takes the limb's part and the remainder stays below the divisor. */
  lemma ShrAdvance(x: Limb, i: nat, k: nat, s: nat, a: nat, v: nat, rem: nat) returns (rem': nat)
    requires s < LIMB_BITS && a < Place(i) && ShrPart(a, v, Pow2(s) * Place(k), rem) && (i <= k ==> v == 0)
    ensures ShrPart(a + x * Place(i), v + ShrGain(x, i - k, s), Pow2(s) * Place(k), rem')
    ensures i + 1 <= k ==> v + ShrGain(x, i - k, s) == 0
  {
    hide Pow2, Place;
    if i < k {
      rem' := a + x * Place(i);
      ShrBefore(x, i, k, Pow2(s), a);
    } else if i == k {
      rem' := ShrFirst(x, Pow2(s), Place(k), rem);
    } else {
      hide ShrPart, ShrGain;
      rem' := rem;
      ShrNext(x, i, k, s);
      ShrOn(a, v, ShrGain(x, i - k, s), Pow2(s) * Place(k), rem);
    }
  }

  lemma ShrOn(a: int, v: int, w: int, d: nat, rem: nat)
    requires ShrPart(a, v, d, rem)
    ensures ShrPart(a + w * d, v + w, d, rem)
  {
    assert (v + w) * d == v * d + w * d;
  }

  lemma ShrBefore(x: Limb, i: nat, k: nat, p: nat, a: nat)
    requires i < k && p > 0 && a < Place(i)
    ensures a + x * Place(i) < p * Place(k)
  {
    hide Place;
    PlaceNext(i);
    PlaceMono(i + 1, k);
    MulMono(x + 0, BASE - 1, Place(i));
    Distribute(BASE - 1, 1, 1, Place(i));
    MulMono(1, p, Place(k));
  }

  lemma ShrStart(s: nat, k: nat) returns (rem: nat)
    ensures ShrPart(0, 0, Pow2(s) * Place(k), rem)
  {
    rem := 0;
  }

  lemma {:induction false} PlaceMono(i: nat, j: nat)
    requires i <= j
    ensures Place(i) <= Place(j)
    decreases j - i
  {
    if i < j {
      PlaceMono(i + 1, j);
    }
  }

  /** The limb the shift cuts in two: its low bits join the remainder. */
  lemma ShrFirst(x: nat, e: nat, p: nat, rem: nat) returns (rem': nat)
    requires e > 0 && rem < p
    ensures rem' < e * p && rem + x * p == (x / e) * (e * p) + rem'
  {
    var q, r := x / e, x % e;
    rem' := r * p + rem;
    assert x == q * e + r;
    Distribute(q, e, r, p);
    MulMono(r + 1, e, p);
    Distribute(r, 1, 1, p);
  }

  /** A limb above it goes over without remainder. */
  lemma ShrNext(x: Limb, i: nat, k: nat, s: nat)
    requires s < LIMB_BITS && i > k
    ensures x * Place(i) == ShrGain(x, i - k, s) * (Pow2(s) * Place(k))
  {
    hide Pow2, Place, ShrGain;
    ShrHigher(x, i, k, s);
    ShrGainIs(x, i - k, s);
  }

  lemma ShrGainIs(x: Limb, pos: nat, s: nat)
    requires s < LIMB_BITS && pos > 0
    ensures ShrGain(x, pos, s) == ((x % Pow2(s)) * Pow2(LIMB_BITS - s)) * Place(pos - 1) + (x / Pow2(s)) * Place(pos)
  {
    hide Pow2, Place;
  }

  lemma ShrHigher(x: Limb, i: nat, k: nat, s: nat)
    requires s < LIMB_BITS && i > k
    ensures x * Place(i) ==
      (((x % Pow2(s)) * Pow2(LIMB_BITS - s)) * Place(i - k - 1) + (x / Pow2(s)) * Place(i - k)) * (Pow2(s) * Place(k))
  {
    hide Pow2, Place;
    var e, f := Pow2(s), Pow2(LIMB_BITS - s);
    LimbBits();
    Pow2Sum(s, LIMB_BITS - s);
    PlaceSum(i - k, k);
    PlaceNext(i - k - 1);
    assert x == (x / e) * e + x % e;
    ShrProduct(x, x / e, x % e, e, f, Place(i - k - 1), Place(k));
  }

  lemma ShrProduct(x: nat, hi: nat, lo: nat, e: nat, f: nat, p: nat, r: nat)
    requires x == hi * e + lo && e * f == BASE
    ensures x * ((BASE * p) * r) == ((lo * f) * p + hi * (BASE * p)) * (e * r)
  {
    var b := BASE * p;
    assert (lo * f) * p * (e * r) == lo * (b * r) by {
      assert (lo * f) * p * (e * r) == lo * (((e * f) * p) * r);
    }
    assert (hi * b) * (e * r) == (hi * e) * (b * r);
    assert ((lo * f) * p + hi * b) * (e * r) == (lo * f) * p * (e * r) + (hi * b) * (e * r);
    assert (hi * e + lo) * (b * r) == (hi * e) * (b * r) + lo * (b * r);
  }

  // ----- Bit length

  /** The number of bits of a value: between a power of two and the next. */
  ghost predicate IsBits(v: nat, r: nat) {
    if v == 0 then r == 0 else r > 0 && Pow2(r - 1) <= v < Pow2(r)
  }

  method Bits(pn: seq<Limb>) returns (r: nat)
    ensures IsBits(Value(pn), r)
  {
    hide Value, Place, Pow2;
    var pos := |pn| - 1;
    while pos >= 0
      invariant -1 <= pos < |pn| && forall j :: pos < j < |pn| ==> pn[j] == 0
    {
      if pn[pos] != 0 {
        var nbits := TopBit(pn[pos]);
        TopLimb(pn, pos, nbits);
        return LIMB_BITS * pos + nbits + 1;
      }
      pos := pos - 1;
    }
    AllZero(pn);
    r := 0;
  }

  /** The highest set bit of a limb, looked for from the top. */
  method TopBit(x: Limb) returns (nbits: nat)
    requires x != 0
    ensures Pow2(nbits) <= x < Pow2(nbits + 1)
  {
    hide Pow2;
    LimbBits();
    nbits := LIMB_BITS - 1;
    while nbits > 0
      invariant 0 <= nbits < LIMB_BITS && x < Pow2(nbits + 1)
    {
      BitSet(x, nbits);
      if (x / Pow2(nbits)) % 2 == 1 {
        return;
      }
      nbits := nbits - 1;
    }
    PowZero();
  }

  lemma PowZero()
    ensures Pow2(0) == 1
  {
  }

  lemma BitSet(x: nat, n: nat)
    requires x < Pow2(n + 1)
    ensures (x / Pow2(n)) % 2 == 1 <==> Pow2(n) <= x
  {
    var p := Pow2(n);
    if x < p {
      DivisionIs(x, p, 0, x);
    } else {
      DivisionIs(x, p, 1, x - p);
    }
  }

  lemma TopLimb(pn: seq<Limb>, pos: nat, nbits: nat)
    requires pos < |pn| && Pow2(nbits) <= pn[pos] < Pow2(nbits + 1) && forall j :: pos < j < |pn| ==> pn[j] == 0
    ensures IsBits(Value(pn), LIMB_BITS * pos + nbits + 1)
  {
    hide Value, Place, Pow2;
    ValueSplit(pn, pos + 1);
    AllZero(pn[pos + 1..]);
    PrefixValue(pn, pos);
    ValueBound(pn[..pos]);
    PlaceIsPow2(pos);
    Pow2Sum(nbits, LIMB_BITS * pos);
    Pow2Sum(nbits + 1, LIMB_BITS * pos);
    var x: nat := pn[pos];
    MulMono(Pow2(nbits), x, Place(pos));
    MulMono(x + 1, Pow2(nbits + 1), Place(pos));
    Distribute(x, 1, 1, Place(pos));
  }
}
