/** Powers, and the few facts of nonlinear arithmetic the models share. */
module Powers {

  function Pow(b: nat, e: nat): (r: nat)
    ensures b > 0 ==> r > 0
  {
    if e == 0 then 1 else b * Pow(b, e - 1)
  }

  function Pow2(e: nat): (r: nat)
    ensures r > 0
  {
    if e == 0 then 1 else 2 * Pow2(e - 1)
  }

  lemma Pow2Step(e: nat)
    ensures Pow2(0) == 1 && Pow2(e + 1) == 2 * Pow2(e)
  {
  }

  lemma PowStep(b: nat, e: nat)
    ensures Pow(b, 0) == 1 && Pow(b, e + 1) == b * Pow(b, e)
  {
  }

  lemma Associate(a: nat, b: nat, c: nat)
    ensures a * (b * c) == (a * b) * c
  {
  }

  lemma {:induction false} Pow2Sum(i: nat, j: nat)
    ensures Pow2(i + j) == Pow2(i) * Pow2(j)
  {
    hide Pow2;
    Pow2Step(0);
    if i > 0 {
      Pow2Sum(i - 1, j);
      Pow2Step(i - 1);
      Pow2Step(i - 1 + j);
      Associate(2, Pow2(i - 1), Pow2(j));
    }
  }

  lemma {:induction false} Pow2Mono(i: nat, j: nat)
    requires i <= j
    ensures Pow2(i) <= Pow2(j)
    decreases j - i
  {
    if i < j {
      Pow2Mono(i + 1, j);
    }
  }

  /** Division by a positive number has one quotient and one remainder. */
  lemma DivisionIs(n: int, d: nat, q: int, r: nat)
    requires r < d && n == q * d + r
    ensures n / d == q && n % d == r
  {
    var e := q - n / d;
    assert n == (n / d) * d + n % d;
    assert e * d == n % d - r;
    assert e == 0 by {
      assert 0 - d < e * d < d;
      assert e >= 1 ==> e * d >= d;
      assert e <= -1 ==> e * d <= 0 - d;
    }
  }

  lemma MulMono(a: int, b: int, c: nat)
    requires a <= b
    ensures a * c <= b * c
  {
  }

  /** A quotient rounded up exceeds `pos` exactly when the dividend exceeds `pos * p`. */
  lemma CeilDivIff(n: nat, p: nat, pos: nat)
    requires p > 0
    ensures pos < (n + p - 1) / p <==> pos * p < n
  {
    var q := (n + p - 1) / p;
    var r := (n + p - 1) % p;
    assert n + p - 1 == q * p + r;
    if pos < q {
      MulMono(pos, q - 1, p);
    } else {
      MulMono(q, pos, p);
    }
  }

  lemma DivLe(n: nat, d: int)
    requires d > 0
    ensures n / d <= n
  {
    var q, r := n / d, n % d;
    assert n == q * d + r;
    MulMono(1, d, q);
  }

  lemma Distribute(q: nat, d: nat, r: nat, e: nat)
    ensures (q * d + r) * e == q * (d * e) + r * e
  {
    assert (q * d) * e == q * (d * e);
  }

  lemma QuotientBelow(x: nat, d: nat, e: nat)
    requires d > 0 && x < d * e
    ensures x / d < e
  {
    var q, r := x / d, x % d;
    assert x == q * d + r;
    if q >= e {
      MulMono(e, q, d);
      assert false;
    }
  }

  lemma QuotientAbove(v: nat, d: nat, e: nat)
    requires d > 0 && d * e <= v
    ensures e <= v / d
  {
    var q := v / d;
    assert v == q * d + v % d;
    if q < e {
      MulMono(q + 1, e, d);
      Distribute(q, 1, 1, d);
      assert false;
    }
  }
}
