/** Sums of a function over a finite set. */
module SetTotals {

  ghost function Total<T>(f: T -> int, s: set<T>): int {
    if s == {} then 0 else var x :| x in s; f(x) + Total(f, s - {x})
  }

  lemma {:induction false} TotalRemove<T>(f: T -> int, s: set<T>, x: T)
    requires x in s
    ensures Total(f, s) == f(x) + Total(f, s - {x})
  {
    var y :| y in s && Total(f, s) == f(y) + Total(f, s - {y});
    if y != x {
      TotalRemove(f, s - {y}, x);
      TotalRemove(f, s - {x}, y);
      assert s - {y} - {x} == s - {x} - {y};
    }
  }

  lemma TotalAdd<T>(f: T -> int, s: set<T>, x: T)
    requires x !in s
    ensures Total(f, s + {x}) == Total(f, s) + f(x)
  {
    TotalRemove(f, s + {x}, x);
    assert s + {x} - {x} == s;
  }

  lemma {:induction false} TotalUnion<T>(f: T -> int, a: set<T>, b: set<T>)
    requires a !! b
    ensures Total(f, a + b) == Total(f, a) + Total(f, b)
    decreases |b|
  {
    if b == {} {
      assert a + b == a;
    } else {
      var x :| x in b;
      TotalUnion(f, a, b - {x});
      assert a + b - {x} == a + (b - {x});
      TotalRemove(f, a + b, x);
      TotalRemove(f, b, x);
    }
  }

  lemma {:induction false} TotalNat<T>(f: T -> int, s: set<T>)
    requires forall x :: x in s ==> f(x) >= 0
    ensures Total(f, s) >= 0
  {
    if s != {} {
      var x :| x in s;
      TotalNat(f, s - {x});
      TotalRemove(f, s, x);
    }
  }

  lemma TotalMono<T>(f: T -> int, a: set<T>, b: set<T>)
    requires a <= b && forall x :: x in b ==> f(x) >= 0
    ensures Total(f, a) <= Total(f, b)
  {
    TotalUnion(f, a, b - a);
    TotalNat(f, b - a);
    assert a + (b - a) == b;
  }

  lemma {:induction false} TotalConst<T>(f: T -> int, s: set<T>, c: int)
    requires forall x :: x in s ==> f(x) == c
    ensures Total(f, s) == |s| * c
  {
    if s != {} {
      var x :| x in s;
      TotalConst(f, s - {x}, c);
      TotalRemove(f, s, x);
      assert |s| * c == (|s| - 1) * c + c;
    }
  }

  /** Leaving out any one of at least two elements gives zero if and only if all values are zero. */
  lemma AllButOneIff<T>(f: T -> int, s: set<T>)
    requires |s| >= 2
    ensures (forall x :: x in s ==> Total(f, s - {x}) == 0) <==> forall x :: x in s ==> f(x) == 0
  {
    if forall x :: x in s ==> f(x) == 0 {
      forall x | x in s ensures Total(f, s - {x}) == 0 {
        TotalConst(f, s - {x}, 0);
      }
    }
    if forall x :: x in s ==> Total(f, s - {x}) == 0 {
      var c := Total(f, s);
      forall x | x in s ensures f(x) == c {
        TotalRemove(f, s, x);
      }
      TotalConst(f, s, c);
      OnlyZero(|s|, c);
    }
  }

  lemma OnlyZero(n: nat, c: int)
    requires n >= 2 && c == n * c
    ensures c == 0
  {
    assert (n - 1) * c == n * c - c;
  }
}
