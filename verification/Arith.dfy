/**
 * Fixed-width unsigned integers as little-endian arrays of 32-bit limbs, for any number of limbs
 * (src/arith_uint256.h, src/arith_uint256.cpp): each operator computes modulo the width.
 */
module Arith {
  import opened Powers

  const BASE := 0x1_0000_0000

  type Limb = x: int | 0 <= x < 0x1_0000_0000

  /** The number that limbs stand for, lowest limb first. */
  function Value(s: seq<Limb>): nat {
    if s == [] then 0 else s[0] + BASE * Value(s[1..])
  }

  /** The place value of limb `i`, and the modulus of `i` limbs. */
  function Place(i: nat): (r: nat)
    ensures r > 0
  {
    if i == 0 then 1 else BASE * Place(i - 1)
  }

  lemma {:induction false} ValueBound(s: seq<Limb>)
    ensures Value(s) < Place(|s|)
  {
    if s != [] {
      ValueBound(s[1..]);
    }
  }

  lemma {:induction false} ValueSplit(s: seq<Limb>, i: nat)
    requires i <= |s|
    ensures Value(s) == Value(s[..i]) + Place(i) * Value(s[i..])
  {
    hide Value, Place;
    if i == 0 {
      assert s[0..] == s;
      NoLimbs(s[..0]);
    } else {
      ValueSplit(s[1..], i - 1);
      assert s[1..][..i - 1] == s[..i][1..] && s[1..][i - 1..] == s[i..];
      FirstLimb(s);
      FirstLimb(s[..i]);
      PlaceNext(i - 1);
      SplitSum(s[0], Value(s[..i][1..]), Place(i - 1), Value(s[i..]));
    }
  }

  lemma NoLimbs(s: seq<Limb>)
    requires s == []
    ensures Value(s) == 0 && Place(0) == 1
  {
  }

  lemma FirstLimb(s: seq<Limb>)
    requires s != []
    ensures Value(s) == s[0] + BASE * Value(s[1..])
  {
  }

  lemma SplitSum(x: nat, low: nat, p: nat, high: nat)
    ensures x + BASE * (low + p * high) == x + BASE * low + (BASE * p) * high
  {
  }

  lemma ValueOne(s: seq<Limb>)
    requires |s| == 1
    ensures Value(s) == s[0]
  {
  }

  lemma PrefixValue(s: seq<Limb>, i: nat)
    requires i < |s|
    ensures Value(s[..i + 1]) == Value(s[..i]) + s[i] * Place(i)
  {
    var t := s[..i + 1];
    ValueSplit(t, i);
    assert t[..i] == s[..i];
    ValueOne(t[i..]);
  }

  lemma ValueSet(s: seq<Limb>, j: nat, x: Limb)
    requires j < |s|
    ensures Value(s[j := x]) == Value(s) + (x - s[j]) * Place(j)
  {
    var t := s[j := x];
    ValueSplit(s, j + 1);
    ValueSplit(t, j + 1);
    PrefixValue(s, j);
    PrefixValue(t, j);
    assert t[..j] == s[..j] && t[j + 1..] == s[j + 1..];
    assert (x - s[j]) * Place(j) == x * Place(j) - s[j] * Place(j);
  }

  /** A number within the width that differs from `w` by whole multiples of the modulus is `w` modulo it. */
  lemma Reduced(v: nat, w: int, q: int, m: nat)
    requires v < m && v + q * m == w
    ensures v == w % m
  {
    DivisionIs(w, m, q, v);
  }

  // ----- Addition and subtraction

  /** One limb of an addition with carry. */
  lemma AddStep(x: nat, carry: nat, a: nat, b: nat, p: nat, x': nat)
    requires x' == x + ((carry + a + b) % BASE) * p
    ensures x' + ((carry + a + b) / BASE) * (BASE * p) == x + carry * p + a * p + b * p
  {
    var n := carry + a + b;
    assert (n % BASE) * p + (n / BASE) * (BASE * p) == n * p by {
      assert n == n % BASE + (n / BASE) * BASE;
      assert ((n / BASE) * BASE) * p == (n / BASE) * (BASE * p);
    }
  }

  method AddAssign(pn: array<Limb>, b: array<Limb>)
    requires b.Length == pn.Length
    modifies pn
    ensures Value(pn[..]) == (Value(old(pn[..])) + Value(old(b[..]))) % Place(pn.Length)
  {
    hide Value, Place;
    ghost var was, other := pn[..], b[..];
    var carry := 0;
    var i := 0;
    Nothing(pn[..], was, other);
    while i < pn.Length
      invariant 0 <= i <= pn.Length && 0 <= carry <= 1 && pn[i..] == was[i..] && b[i..] == other[i..]
      invariant Value(pn[..][..i]) + carry * Place(i) == Value(was[..i]) + Value(other[..i])
    {
      assert pn[i] == pn[i..][0] == was[i] && b[i] == b[i..][0] == other[i];
      var n := carry + pn[i] + b[i];
      ghost var before, unread := pn[..], b[i + 1..];
      pn[i] := n % BASE;
      assert pn[..][..i] == before[..i];
      PrefixValue(pn[..], i);
      PrefixValue(was, i);
      PrefixValue(other, i);
      AddStep(Value(before[..i]), carry, was[i], other[i], Place(i), Value(pn[..][..i + 1]));
      PlaceNext(i);
      assert pn[i + 1..] == was[i + 1..] by { assert pn[i + 1..] == before[i + 1..]; assert before[i..][1..] == was[i..][1..]; }
      assert b[i + 1..] == unread == other[i..][1..];
      carry := n / BASE;
      i := i + 1;
    }
    Whole(pn[..], was, other);
    ValueBound(pn[..]);
    Reduced(Value(pn[..]), Value(was) + Value(other), carry, Place(pn.Length));
  }

  lemma Nothing(a: seq<Limb>, b: seq<Limb>, c: seq<Limb>)
    ensures Value(a[..0]) == Value(b[..0]) == Value(c[..0]) == 0 && Place(0) == 1
  {
  }

  lemma PlaceNext(i: nat)
    ensures Place(i + 1) == BASE * Place(i)
  {
  }

  lemma Whole(a: seq<Limb>, b: seq<Limb>, c: seq<Limb>)
    requires |a| == |b| == |c|
    ensures a[..|a|] == a && b[..|a|] == b && c[..|a|] == c
  {
  }

  lemma {:induction false} Complement(s: seq<Limb>, t: seq<Limb>)
    requires |s| == |t| && forall i :: 0 <= i < |s| ==> t[i] == BASE - 1 - s[i]
    ensures Value(t) == Place(|s|) - 1 - Value(s)
  {
    if s != [] {
      Complement(s[1..], t[1..]);
    }
  }

  lemma {:induction false} AllOnes(s: seq<Limb>)
    requires forall i :: 0 <= i < |s| ==> s[i] == BASE - 1
    ensures Value(s) == Place(|s|) - 1
  {
    if s != [] {
      AllOnes(s[1..]);
    }
  }

  lemma {:induction false} AllZero(s: seq<Limb>)
    requires forall i :: 0 <= i < |s| ==> s[i] == 0
    ensures Value(s) == 0
  {
    if s != [] {
      AllZero(s[1..]);
    }
  }

  method Increment(pn: array<Limb>)
    modifies pn
    ensures Value(pn[..]) == (Value(old(pn[..])) + 1) % Place(pn.Length)
  {
    ghost var was := pn[..];
    var i := 0;
    var stop := false;
    while i < pn.Length && !stop
      invariant 0 <= i <= pn.Length && (stop ==> i < pn.Length)
      invariant forall j :: 0 <= j < i ==> was[j] == BASE - 1 && pn[j] == 0
      invariant !stop ==> forall j :: i <= j < pn.Length ==> pn[j] == was[j]
      invariant stop ==> was[i] < BASE - 1 && pn[i] == was[i] + 1 && forall j :: i < j < pn.Length ==> pn[j] == was[j]
      decreases pn.Length - i, !stop
    {
      pn[i] := (pn[i] + 1) % BASE;
      if pn[i] == 0 {
        i := i + 1;
      } else {
        stop := true;
      }
    }
    Incremented(was, pn[..], i);
  }

  /** Limbs that were all ones became zero, and the next one, if any, grew by one. */
  lemma Incremented(was: seq<Limb>, now: seq<Limb>, i: nat)
    requires |was| == |now| && i <= |was|
    requires forall j :: 0 <= j < i ==> was[j] == BASE - 1 && now[j] == 0
    requires i < |was| ==> was[i] < BASE - 1 && now[i] == was[i] + 1 && forall j :: i < j < |was| ==> now[j] == was[j]
    ensures Value(now) == (Value(was) + 1) % Place(|was|)
  {
    hide Value, Place;
    AllOnes(was[..i]);
    AllZero(now[..i]);
    ValueBound(now);
    if i == |was| {
      assert was[..i] == was && now[..i] == now;
      Reduced(Value(now), Value(was) + 1, 1, Place(|was|));
    } else {
      ValueSplit(was, i + 1);
      ValueSplit(now, i + 1);
      PrefixValue(was, i);
      PrefixValue(now, i);
      assert was[i + 1..] == now[i + 1..];
      assert (was[i] + 1) * Place(i) == was[i] * Place(i) + Place(i);
      Reduced(Value(now), Value(was) + 1, 0, Place(|was|));
    }
  }

  /** Two's complement: flip every limb, then add one. */
  method Negated(b: seq<Limb>) returns (r: array<Limb>)
    ensures fresh(r) && r.Length == |b| && Value(r[..]) == (Place(|b|) - Value(b)) % Place(|b|)
  {
    r := new Limb[|b|](i requires 0 <= i < |b| => BASE - 1 - b[i]);
    Complement(b, r[..]);
    Increment(r);
  }

  method SubAssign(pn: array<Limb>, b: array<Limb>)
    requires b.Length == pn.Length
    modifies pn
    ensures Value(pn[..]) == (Value(old(pn[..])) - Value(old(b[..]))) % Place(pn.Length)
  {
    hide Value, Place;
    NegatedSum(Value(pn[..]), Value(b[..]), Place(pn.Length));
    var negative := Negated(b[..]);
    AddAssign(pn, negative);
  }

  lemma NegatedSum(v: nat, w: nat, m: nat)
    requires m > 0
    ensures (v + (m - w) % m) % m == (v - w) % m
  {
    var r := (m - w) % m;
    var q := (m - w) / m;
    assert m - w == q * m + r;
    var t := (v + r) % m;
    var u := (v + r) / m;
    assert v + r == u * m + t;
    assert (u + q - 1) * m == u * m + q * m - m;
    Reduced(t, v - w, u + q - 1, m);
  }

  // ----- Comparison

  lemma HigherLimb(s: seq<Limb>, t: seq<Limb>, i: nat)
    requires |s| == |t| && i < |s| && s[i] < t[i] && s[i + 1..] == t[i + 1..]
    ensures Value(s) < Value(t)
  {
    hide Value, Place;
    ValueSplit(s, i + 1);
    ValueSplit(t, i + 1);
    PrefixValue(s, i);
    PrefixValue(t, i);
    ValueBound(s[..i]);
    MulMono(s[i] + 1, t[i], Place(i));
    assert (s[i] + 1) * Place(i) == s[i] * Place(i) + Place(i);
  }

  method CompareTo(a: seq<Limb>, b: seq<Limb>) returns (r: int)
    requires |a| == |b|
    ensures r == if Value(a) < Value(b) then -1 else if Value(a) > Value(b) then 1 else 0
  {
    var i := |a| - 1;
    while i >= 0
      invariant -1 <= i < |a| && a[i + 1..] == b[i + 1..]
    {
      if a[i] < b[i] {
        HigherLimb(a, b, i);
        return -1;
      }
      if a[i] > b[i] {
        HigherLimb(b, a, i);
        return 1;
      }
      assert a[i..] == [a[i]] + a[i + 1..] && b[i..] == [b[i]] + b[i + 1..];
      i := i - 1;
    }
    assert a == b by { assert a[0..] == a && b[0..] == b; }
    r := 0;
  }

  // ----- Multiplication

  /** One limb of a row: what is there, the carry and the product fit in 64 bits, and so the next carry in 32. */
  lemma MulStep(carry: nat, p: Limb, a: Limb, b: Limb)
    requires carry < BASE
    ensures RowLimb(carry, p, a, b) < BASE * BASE && RowLimb(carry, p, a, b) / BASE < BASE
  {
    MulMono(a, BASE - 1, b);
    MulMono(b, BASE - 1, BASE - 1);
  }

  function RowLimb(carry: nat, p: Limb, a: Limb, b: Limb): nat {
    carry + p + a * b
  }

  /**
   * Adds `a * b`, shifted by `j` limbs and cut to the width, to the product so far.  Where `b` is the
   * product itself and still zero, it stays so.
   */
  method MulRow(pn: array<Limb>, a: Limb, b: array<Limb>, j: nat) returns (ghost q: int)
    requires b.Length == pn.Length && j < pn.Length
    modifies pn
    ensures b != pn ==> Value(pn[..]) + q * Place(pn.Length) == Value(old(pn[..])) + a * Place(j) * Value(b[..])
    ensures b == pn && old(IsZero(pn[..])) ==> IsZero(pn[..])
  {
    hide Value, Place, RowPart, RowQuotient, IsZero;
    ghost var was, other := pn[..], b[..];
    var carry := MulLimbs(pn, a, b, j);
    q := RowQuotient(a, other, j, carry);
    if b != pn {
      RowEnd(was, pn[..], a, other, j, carry);
    }
  }

  method MulLimbs(pn: array<Limb>, a: Limb, b: array<Limb>, j: nat) returns (carry: nat)
    requires b.Length == pn.Length && j < pn.Length
    modifies pn
    ensures b != pn ==> RowPart(old(pn[..]), pn[..], a, b[..], j, pn.Length - j, carry)
    ensures b == pn && old(IsZero(pn[..])) ==> pn[..] == old(pn[..])
  {
    hide RowPart, IsZero, RowLimb;
    ghost var was, other := pn[..], b[..];
    carry := 0;
    var i := 0;
    RowStart(was, a, other, j);
    while i + j < pn.Length
      invariant 0 <= i <= pn.Length - j && carry < BASE
      invariant b != pn ==> b[..] == other && RowPart(was, pn[..], a, other, j, i, carry)
      invariant b == pn && IsZero(was) ==> pn[..] == was && carry == 0
    {
      var n := RowLimb(carry, pn[i + j], a, b[i]);
      MulStep(carry, pn[i + j], a, b[i]);
      ghost var before: seq<Limb> := pn[..];
      pn[i + j] := n % BASE;
      assert pn[..] == before[i + j := n % BASE];
      if b != pn {
        RowStep(was, before, a, other, j, i, carry);
      } else if IsZero(was) {
        ZeroStep(was, a, i + j, i);
      }
      carry := n / BASE;
      i := i + 1;
    }
  }

  /** The row up to limb `i`: the product so far and the carry hold what was there and `a` times the limbs used. */
  ghost predicate RowPart(was: seq<Limb>, now: seq<Limb>, a: Limb, b: seq<Limb>, j: nat, i: nat, carry: nat) {
    && |was| == |now| == |b| && i + j <= |b| && now[..j] == was[..j] && now[i + j..] == was[i + j..]
    && Value(now[j..][..i]) + carry * Place(i) == Value(was[j..][..i]) + a * Value(b[..i])
  }

  lemma ZeroStep(was: seq<Limb>, a: Limb, k: nat, i: nat)
    requires k < |was| && i < |was| && IsZero(was)
    ensures RowLimb(0, was[k], a, was[i]) == 0 && was[k := 0] == was
  {
  }

  predicate IsZero(s: seq<Limb>) {
    forall k :: 0 <= k < |s| ==> s[k] == 0
  }

  lemma RowStart(was: seq<Limb>, a: Limb, b: seq<Limb>, j: nat)
    requires |was| == |b| && j < |was|
    ensures RowPart(was, was, a, b, j, 0, 0)
  {
  }

  lemma RowStep(was: seq<Limb>, before: seq<Limb>, a: Limb, b: seq<Limb>, j: nat, i: nat, carry: nat)
    requires RowPart(was, before, a, b, j, i, carry) && i + j < |b|
    ensures var n := RowLimb(carry, before[i + j], a, b[i]);
      RowPart(was, before[i + j := n % BASE], a, b, j, i + 1, n / BASE)
  {
    hide Value, Place, RowLimb;
    var n := RowLimb(carry, before[i + j], a, b[i]);
    var now := before[i + j := n % BASE];
    assert before[i + j] == before[i + j..][0] == was[i + j..][0] == was[i + j];
    assert now[i + j + 1..] == before[i + j..][1..] == was[i + j..][1..] == was[i + j + 1..];
    assert now[j..][..i] == before[j..][..i];
    PrefixValue(now[j..], i);
    PrefixValue(was[j..], i);
    PrefixValue(b, i);
    PlaceNext(i);
    RowDigit(Value(before[j..][..i]), carry, was[i + j], a, b[i], Place(i), Value(was[j..][..i]), Value(b[..i]));
    assert i + 1 + j == i + j + 1;
  }

  lemma RowDigit(v: nat, carry: nat, p: Limb, a: Limb, b: Limb, place: nat, w: nat, t: nat)
    requires v + carry * place == w + a * t
    ensures var n := RowLimb(carry, p, a, b);
      v + (n % BASE) * place + (n / BASE) * (BASE * place) == (w + p * place) + a * (t + b * place)
  {
    AddStep(v, carry, p, a * b, place, v + (RowLimb(carry, p, a, b) % BASE) * place);
    assert a * (t + b * place) == a * t + (a * b) * place;
  }

  lemma PlaceSum(i: nat, j: nat)
    ensures Place(i + j) == Place(i) * Place(j)
  {
    if i > 0 {
      PlaceSum(i - 1, j);
      assert BASE * (Place(i - 1) * Place(j)) == (BASE * Place(i - 1)) * Place(j);
    }
  }

  /** What the row leaves out are whole multiples of the modulus. */
  ghost function RowQuotient(a: Limb, b: seq<Limb>, j: nat, carry: nat): int
    requires j <= |b|
  {
    carry + a * Value(b[|b| - j..])
  }

  lemma RowEnd(was: seq<Limb>, now: seq<Limb>, a: Limb, b: seq<Limb>, j: nat, carry: nat)
    requires j < |b| && RowPart(was, now, a, b, j, |b| - j, carry)
    ensures Value(now) + RowQuotient(a, b, j, carry) * Place(|b|) == Value(was) + a * Place(j) * Value(b)
  {
    hide Value, Place, RowQuotient;
    RowTotal(was, now, a, b, j, carry);
  }

  lemma RowTotal(was: seq<Limb>, now: seq<Limb>, a: Limb, b: seq<Limb>, j: nat, carry: nat)
    requires |was| == |now| == |b| && j < |b| && now[..j] == was[..j]
    requires Value(now[j..][..|b| - j]) + carry * Place(|b| - j) == Value(was[j..][..|b| - j]) + a * Value(b[..|b| - j])
    ensures Value(now) + RowQuotient(a, b, j, carry) * Place(|b|) == Value(was) + a * Place(j) * Value(b)
  {
    hide Value, Place;
    var n := |b|;
    assert now[j..][..n - j] == now[j..] && was[j..][..n - j] == was[j..];
    ValueSplit(now, j);
    ValueSplit(was, j);
    ValueSplit(b, n - j);
    PlaceSum(j, n - j);
    var high := Value(b[n - j..]);
    RowSum(Place(j), Place(n - j), Value(now[..j]), Value(now[j..]), Value(was[j..]), carry, a, Value(b[..n - j]), high);
  }

  lemma RowSum(p: nat, r: nat, low: nat, x: nat, y: nat, carry: nat, a: nat, b: nat, high: nat)
    requires x + carry * r == y + a * b
    ensures (low + p * x) + (carry + a * high) * (p * r) == (low + p * y) + a * p * (b + r * high)
  {
    RowScaled(p, r, x, y, carry, a, b);
    RowSpread(p, r, carry, a, b, high);
  }

  lemma RowScaled(p: nat, r: nat, x: nat, y: nat, carry: nat, a: nat, b: nat)
    requires x + carry * r == y + a * b
    ensures p * x + p * (carry * r) == p * y + p * (a * b)
  {
    assert p * (x + carry * r) == p * x + p * (carry * r);
    assert p * (y + a * b) == p * y + p * (a * b);
  }

  lemma RowSpread(p: nat, r: nat, carry: nat, a: nat, b: nat, high: nat)
    ensures (carry + a * high) * (p * r) == p * (carry * r) + a * p * (r * high)
    ensures a * p * (b + r * high) == p * (a * b) + a * p * (r * high)
  {
  }

  /** The product, unless the operand is the object itself: that is cleared before it is read. */
  method MulAssign(pn: array<Limb>, b: array<Limb>)
    requires b.Length == pn.Length
    modifies pn
    ensures Value(pn[..]) == if b == pn then 0 else (Value(old(pn[..])) * Value(b[..])) % Place(pn.Length)
    ensures Value(pn[..]) == (Value(old(pn[..])) * Value(old(b[..]))) % Place(pn.Length) <==>
            b != pn || (Value(old(pn[..])) * Value(old(pn[..]))) % Place(pn.Length) == 0
  {
    hide Value, Place;
    var a := pn[..];
    var i := 0;
    while i < pn.Length
      invariant 0 <= i <= pn.Length && forall k :: 0 <= k < i ==> pn[k] == 0
    {
      pn[i] := 0;
      i := i + 1;
    }
    AllZero(pn[..]);
    ghost var q, other := 0, b[..];
    var j := 0;
    Nothing(a, a, a);
    while j < pn.Length
      invariant 0 <= j <= pn.Length
      invariant b != pn ==> b[..] == other && Value(pn[..]) + q * Place(pn.Length) == Value(a[..j]) * Value(other)
      invariant b == pn ==> IsZero(pn[..])
    {
      ghost var before := Value(pn[..]);
      ghost var d := MulRow(pn, a[j], b, j);
      if b != pn {
        PrefixValue(a, j);
        RowAdds(before, Value(pn[..]), q, d, Place(pn.Length), Value(a[..j]), a[j], Place(j), Value(other));
      }
      q := q + d;
      j := j + 1;
    }
    if b == pn {
      AllZero(pn[..]);
    } else {
      assert a[..j] == a;
      ValueBound(pn[..]);
      Reduced(Value(pn[..]), Value(a) * Value(other), q, Place(pn.Length));
    }
  }

  /** Squaring two in place gives zero instead of four. */
  method SquareOfTwo() returns (x: array<Limb>)
    ensures Value(x[..]) == 0 && (2 * 2) % Place(x.Length) == 4
  {
    x := new Limb[] [2, 0];
    MulAssign(x, x);
  }

  lemma RowAdds(before: nat, now: nat, q: int, d: int, m: nat, low: nat, a: nat, p: nat, b: nat)
    requires before + q * m == low * b && now + d * m == before + a * p * b
    ensures now + (q + d) * m == (low + a * p) * b
  {
    assert (q + d) * m == q * m + d * m;
    assert (low + a * p) * b == low * b + a * p * b;
  }
}
