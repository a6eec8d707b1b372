/** Numbers in positional notation, highest digit first. */
module Digits {
  import opened Powers

  ghost predicate AreDigits(base: nat, s: seq<nat>) {
    forall i :: 0 <= i < |s| ==> s[i] < base
  }

  /** The number that digits stand for. */
  function Num(base: nat, s: seq<nat>): nat {
    if s == [] then 0 else Num(base, s[..|s| - 1]) * base + s[|s| - 1]
  }

  /** The digits of a number without leading zeros; none for zero. */
  function Canonical(base: nat, n: nat): (s: seq<nat>)
    requires base >= 2
    decreases n
  {
    if n == 0 then [] else Smaller(n, base); Canonical(base, n / base) + [n % base]
  }

  lemma Smaller(n: nat, base: nat)
    requires base >= 2 && n > 0
    ensures n / base < n
  {
    QuotientBelow(n, base, n);
  }

  lemma {:induction false} NumBound(base: nat, s: seq<nat>)
    requires AreDigits(base, s)
    ensures Num(base, s) < Pow(base, |s|)
  {
    if s != [] {
      var t := s[..|s| - 1];
      NumBound(base, t);
      MulMono(Num(base, t) + 1, Pow(base, |t|), base);
      Distribute(Num(base, t), 1, 1, base);
    }
  }

  lemma {:induction false} NumSplit(base: nat, s: seq<nat>, t: seq<nat>)
    ensures Num(base, s + t) == Num(base, s) * Pow(base, |t|) + Num(base, t)
  {
    if t == [] {
      assert s + t == s;
    } else {
      var u := t[..|t| - 1];
      assert (s + t)[..|s + t| - 1] == s + u;
      NumSplit(base, s, u);
      Distribute(Num(base, s), Pow(base, |u|), Num(base, u), base);
      assert Pow(base, |u|) * base == Pow(base, |t|);
    }
  }

  lemma {:induction false} NumZeros(base: nat, s: seq<nat>)
    requires forall i :: 0 <= i < |s| ==> s[i] == 0
    ensures Num(base, s) == 0
  {
    if s != [] {
      NumZeros(base, s[..|s| - 1]);
    }
  }

  lemma CanonicalStep(base: nat, n: nat)
    requires base >= 2 && n > 0
    ensures n / base < n && n % base < base && n == n / base * base + n % base
    ensures Canonical(base, n) == Canonical(base, n / base) + [n % base]
  {
    Smaller(n, base);
  }

  lemma NumSnoc(base: nat, s: seq<nat>, d: nat)
    ensures Num(base, s + [d]) == Num(base, s) * base + d
  {
    assert (s + [d])[..|s|] == s;
  }

  lemma Nothing(base: nat)
    requires base >= 2
    ensures Canonical(base, 0) == [] && Num(base, []) == 0
  {
  }

  lemma {:induction false} CanonicalIs(base: nat, n: nat)
    requires base >= 2
    ensures Num(base, Canonical(base, n)) == n && AreDigits(base, Canonical(base, n))
    ensures Canonical(base, n) != [] ==> Canonical(base, n)[0] != 0
    decreases n
  {
    hide Canonical, Num;
    Nothing(base);
    if n > 0 {
      CanonicalStep(base, n);
      var q, r := n / base, n % base;
      var t := Canonical(base, q);
      CanonicalIs(base, q);
      NumSnoc(base, t, r);
      if q == 0 {
        assert t == [] && Canonical(base, n) == [r];
      } else {
        assert t != [];
      }
    }
  }

  /** Digits without a leading zero are the canonical ones. */
  lemma {:induction false} CanonicalUnique(base: nat, s: seq<nat>)
    requires base >= 2 && AreDigits(base, s) && (s != [] ==> s[0] != 0)
    ensures Canonical(base, Num(base, s)) == s
  {
    if s != [] {
      var t, d := s[..|s| - 1], s[|s| - 1];
      CanonicalUnique(base, t);
      DivisionIs(Num(base, s), base, Num(base, t), d);
      Positive(base, s);
    }
  }

  lemma {:induction false} Positive(base: nat, s: seq<nat>)
    requires base >= 2 && s != [] && s[0] != 0
    ensures Num(base, s) > 0
  {
    if |s| > 1 {
      Positive(base, s[..|s| - 1]);
    }
  }

  // ----- How many digits suffice

  lemma {:induction false} PowSum(b: nat, i: nat, j: nat)
    ensures Pow(b, i + j) == Pow(b, i) * Pow(b, j)
  {
    hide Pow;
    PowStep(b, 0);
    if i > 0 {
      PowSum(b, i - 1, j);
      PowStep(b, i - 1);
      PowStep(b, i - 1 + j);
      Associate(b, Pow(b, i - 1), Pow(b, j));
    }
  }

  lemma {:induction false} PowProduct(b: nat, i: nat, j: nat)
    ensures Pow(Pow(b, i), j) == Pow(b, i * j)
  {
    if j > 0 {
      PowProduct(b, i, j - 1);
      PowSum(b, i, i * (j - 1));
      assert i + i * (j - 1) == i * j;
    }
  }

  lemma {:induction false} PowBase(a: nat, b: nat, n: nat)
    requires a <= b
    ensures Pow(a, n) <= Pow(b, n)
  {
    if n > 0 {
      PowBase(a, b, n - 1);
      MulMono(a, b, Pow(a, n - 1));
      MulMono(Pow(a, n - 1), Pow(b, n - 1), b);
    }
  }

  lemma {:induction false} PowBaseStrict(a: nat, b: nat, n: nat)
    requires a < b && n > 0
    ensures Pow(a, n) < Pow(b, n)
  {
    if n == 1 {
      assert Pow(a, 1) == a && Pow(b, 1) == b;
    } else {
      PowBaseStrict(a, b, n - 1);
      StrictStep(a, b, Pow(a, n - 1), Pow(b, n - 1));
    }
  }

  lemma StrictStep(a: nat, b: nat, x: nat, y: nat)
    requires a < b && x < y
    ensures a * x < b * y
  {
    MulMono(a, b, x);
    MulMono(x + 1, y, b);
    Distribute(x, 1, 1, b);
  }

  lemma {:induction false} PowMono(b: nat, i: nat, j: nat)
    requires b > 0 && i <= j
    ensures Pow(b, i) <= Pow(b, j)
  {
    PowSum(b, i, j - i);
    MulMono(1, Pow(b, j - i), Pow(b, i));
  }

  /** If `q` digits of base `a` fit `p` digits of base `b`, then `n` fit `size` whenever `p * n <= q * size`. */
  lemma DigitsSuffice(a: nat, b: nat, p: nat, q: nat, n: nat, size: nat)
    requires b > 0 && q > 0 && Pow(a, q) <= Pow(b, p) && p * n <= q * size
    ensures Pow(a, n) <= Pow(b, size)
  {
    hide Pow;
    var k1, k2, k3 := q * n, p * n, q * size;
    PowersLe(a, b, p, q, n, size, k1, k2, k3);
    RootLe(Pow(a, n), Pow(b, size), q);
  }

  lemma PowersLe(a: nat, b: nat, p: nat, q: nat, n: nat, size: nat, k1: nat, k2: nat, k3: nat)
    requires b > 0 && Pow(a, q) <= Pow(b, p) && k1 == q * n && k2 == p * n && k3 == q * size && k2 <= k3
    ensures Pow(Pow(a, n), q) <= Pow(Pow(b, size), q)
  {
    hide Pow;
    PowProductIs(a, q, n, k1);
    PowProductIs(a, n, q, k1);
    PowProductIs(b, p, n, k2);
    PowProductIs(b, size, q, k3);
    PowBase(Pow(a, q), Pow(b, p), n);
    PowMono(b, k2, k3);
  }

  lemma PowProductIs(b: nat, i: nat, j: nat, k: nat)
    requires k == i * j
    ensures Pow(Pow(b, i), j) == Pow(b, k)
  {
    PowProduct(b, i, j);
  }

  lemma RootLe(x: nat, y: nat, q: nat)
    requires q > 0 && Pow(x, q) <= Pow(y, q)
    ensures x <= y
  {
    if x > y {
      PowBaseStrict(y, x, q);
      assert false;
    }
  }
}
