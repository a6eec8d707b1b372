/**
 * The minute lottery's draw and its reward split (src/lottery.cpp): a partial shuffle of the
 * eligible ids, and the division of the subsidy among the winners.
 */
module LotteryDraw {
  import opened Powers

  // ----- The draw

  ghost predicate Distinct<T(!new)>(s: seq<T>) {
    forall i, j :: 0 <= i < j < |s| ==> s[i] != s[j]
  }

  /** One number for each draw, below the number of ids left at that draw. */
  predicate Draws(ds: seq<nat>, n: nat) {
    |ds| <= n && forall i :: 0 <= i < |ds| ==> ds[i] < n - i
  }

  /** What is left of the pool once position `d` is drawn: the front id takes its place. */
  function Rest<T>(pool: seq<T>, d: nat): (rest: seq<T>)
    requires d < |pool|
    ensures |rest| == |pool| - 1
  {
    pool[d := pool[0]][1..]
  }

  /** The ids drawn by the numbers `ds`, in order. */
  function Select<T>(pool: seq<T>, ds: seq<nat>): (winners: seq<T>)
    requires Draws(ds, |pool|)
    ensures |winners| == |ds|
    decreases |ds|
  {
    if ds == [] then [] else DrawsTail(ds, |pool|); [pool[ds[0]]] + Select(Rest(pool, ds[0]), ds[1..])
  }

  lemma DrawsTail(ds: seq<nat>, n: nat)
    requires Draws(ds, n) && ds != []
    ensures Draws(ds[1..], n - 1)
  {
    var t := ds[1..];
    forall i | 0 <= i < |t| ensures t[i] < n - 1 - i {
      assert t[i] == ds[i + 1];
    }
  }

  /** The numbers that draw `w` from the pool. */
  function Unselect<T(==)>(pool: seq<T>, w: seq<T>): (ds: seq<nat>)
    decreases |w|
  {
    if w == [] || w[0] !in pool then []
    else var d := IndexOf(pool, w[0]); [d] + Unselect(Rest(pool, d), w[1..])
  }

  function IndexOf<T(==)>(s: seq<T>, x: T): (i: nat)
    requires x in s
    ensures i < |s| && s[i] == x
  {
    if s[0] == x then 0 else 1 + IndexOf(s[1..], x)
  }

  lemma RestOf<T(!new)>(pool: seq<T>, d: nat)
    requires Distinct(pool) && d < |pool|
    ensures Distinct(Rest(pool, d)) && pool[d] !in Rest(pool, d)
    ensures forall x :: x in pool && x != pool[d] ==> x in Rest(pool, d)
    ensures forall x :: x in Rest(pool, d) ==> x in pool
  {
    var p, rest := pool[d := pool[0]], Rest(pool, d);
    forall x | x in pool && x != pool[d] ensures x in rest {
      var i :| 0 <= i < |pool| && pool[i] == x;
      if i == 0 {
        assert rest[d - 1] == p[d];
      } else {
        assert rest[i - 1] == p[i];
      }
    }
    forall x | x in rest ensures x in pool {
      var i :| 0 <= i < |rest| && rest[i] == x;
      assert rest[i] == p[i + 1];
    }
    forall i, j | 0 <= i < j < |rest| ensures rest[i] != rest[j] {
      assert rest[i] == p[i + 1] && rest[j] == p[j + 1];
    }
    forall i | 0 <= i < |rest| ensures rest[i] != pool[d] {
      assert rest[i] == p[i + 1];
    }
  }

  /** The winners are distinct members of the pool. */
  lemma {:induction false} WinnersAreMembers<T(!new)>(pool: seq<T>, ds: seq<nat>)
    requires Distinct(pool) && Draws(ds, |pool|)
    ensures Distinct(Select(pool, ds)) && forall x :: x in Select(pool, ds) ==> x in pool
    decreases |ds|
  {
    if ds != [] {
      DrawsTail(ds, |pool|);
      RestOf(pool, ds[0]);
      WinnersAreMembers(Rest(pool, ds[0]), ds[1..]);
    }
  }

  /** Different draws give different winner lists. */
  lemma {:induction false} DrawIsInjective<T(!new)>(pool: seq<T>, ds: seq<nat>)
    requires Distinct(pool) && Draws(ds, |pool|)
    ensures Unselect(pool, Select(pool, ds)) == ds
    decreases |ds|
  {
    if ds != [] {
      DrawsTail(ds, |pool|);
      RestOf(pool, ds[0]);
      DrawIsInjective(Rest(pool, ds[0]), ds[1..]);
      assert IndexOf(pool, pool[ds[0]]) == ds[0];
    }
  }

  /** Every ordered selection of distinct members is drawn by some numbers. */
  lemma {:induction false} DrawIsOnto<T(!new)>(pool: seq<T>, w: seq<T>)
    requires Distinct(pool) && Distinct(w) && forall x :: x in w ==> x in pool
    ensures |Unselect(pool, w)| == |w| && Draws(Unselect(pool, w), |pool|) && Select(pool, Unselect(pool, w)) == w
    decreases |w|
  {
    if w != [] {
      var d := IndexOf(pool, w[0]);
      RestOf(pool, d);
      forall x | x in w[1..] ensures x in Rest(pool, d) {
        var i :| 0 <= i < |w[1..]| && w[1..][i] == x;
        assert w[i + 1] == x;
      }
      DrawIsOnto(Rest(pool, d), w[1..]);
      var ds, t := Unselect(pool, w), Unselect(Rest(pool, d), w[1..]);
      assert ds == [d] + t;
      forall i | 0 <= i < |ds| ensures ds[i] < |pool| - i {
        if i > 0 {
          assert ds[i] == t[i - 1];
        }
      }
      assert ds[1..] == t;
    }
  }

  /** The draw numbers that a stream of words yields. */
  function Numbers(stream: nat -> nat, n: nat, k: nat): (ds: seq<nat>)
    requires k <= n
    ensures |ds| == k && Draws(ds, n) && forall i :: 0 <= i < k ==> ds[i] == stream(i) % (n - i)
  {
    seq(k, i requires 0 <= i < k => stream(i) % (n - i))
  }

  /** The winners for `k` prizes. */
  function Winners<T>(ids: seq<T>, stream: nat -> nat, k: int): seq<T> {
    if ids == [] || k <= 0 then [] else if k >= |ids| then ids else Select(ids, Numbers(stream, |ids|, k))
  }

  /** For distinct ids, min(k, n) distinct members win. */
  lemma WinnersOf<T(!new)>(ids: seq<T>, stream: nat -> nat, k: int)
    requires Distinct(ids)
    ensures var w := Winners(ids, stream, k);
      && |w| == (if k <= 0 then 0 else if k < |ids| then k else |ids|)
      && Distinct(w) && forall x :: x in w ==> x in ids
  {
    if 0 < k < |ids| {
      WinnersAreMembers(ids, Numbers(stream, |ids|, k));
    }
  }

  lemma DrawsFrom(ds: seq<nat>, n: nat, i: nat)
    requires Draws(ds, n) && i <= |ds|
    ensures Draws(ds[i..], n - i)
  {
    var t := ds[i..];
    forall j | 0 <= j < |t| ensures t[j] < n - i - j {
      assert t[j] == ds[i + j];
    }
  }

  lemma SelectNone<T>(pool: seq<T>)
    ensures Draws([], |pool|) && Select(pool, []) == []
  {
  }

  /** One round of the in-place shuffle on the part of the pool not yet drawn. */
  lemma SwapStep<T>(before: seq<T>, after: seq<T>, ds: seq<nat>, i: nat, idx: nat, winners: seq<T>)
    requires |before| == |after| && Draws(ds, |before|) && i < |ds| && idx == ds[i] + i
    requires idx < |before| && after == before[i := before[idx]][idx := before[i]]
    requires Draws(ds[i..], |before| - i) && Draws(ds[i + 1..], |before| - (i + 1))
    ensures winners + Select(before[i..], ds[i..]) == (winners + [after[i]]) + Select(after[i + 1..], ds[i + 1..])
  {
    assert ds[i..][0] == ds[i] && ds[i..][1..] == ds[i + 1..];
    assert before[i..][ds[i]] == before[idx] == after[i];
    assert after[i + 1..] == Rest(before[i..], ds[i]);
    assert Select(before[i..], ds[i..]) == [after[i]] + Select(after[i + 1..], ds[i + 1..]);
  }

  method Swap<T>(a: array<T>, i: nat, j: nat)
    requires i < a.Length && j < a.Length
    modifies a
    ensures a[..] == old(a[..])[i := old(a[j])][j := old(a[i])]
  {
    a[i], a[j] := a[j], a[i];
  }

  /** The shuffle in place: position `i` is swapped with a random later one and read off. */
  method PartialShuffle<T>(pool: array<T>, stream: nat -> nat, k: nat) returns (winners: seq<T>)
    requires k <= pool.Length
    modifies pool
    ensures winners == Select(old(pool[..]), Numbers(stream, pool.Length, k))
  {
    hide Select, Draws, Numbers;
    winners := [];
    ghost var was, ds := pool[..], Numbers(stream, pool.Length, k);
    ghost var now := was;
    assert now[0..] == was && ds[0..] == ds;
    var i := 0;
    while i < k
      invariant 0 <= i <= k && now == pool[..] && Draws(ds[i..], pool.Length - i)
      invariant winners + Select(now[i..], ds[i..]) == Select(was, ds)
    {
      var remaining := pool.Length - i;
      var idx := stream(i) % remaining + i;
      Swap(pool, i, idx);
      DrawsFrom(ds, pool.Length, i + 1);
      SwapStep(now, pool[..], ds, i, idx, winners);
      now := pool[..];
      winners := winners + [pool[i]];
      i := i + 1;
    }
    assert ds[k..] == [];
    SelectNone(now[k..]);
    assert winners + [] == winners;
  }

  method SelectWinners<T>(sortedActive: seq<T>, stream: nat -> nat, k: int) returns (winners: seq<T>)
    ensures winners == Winners(sortedActive, stream, k)
  {
    if |sortedActive| == 0 || k <= 0 {
      return [];
    }
    if k >= |sortedActive| {
      return sortedActive;
    }
    var pool := new T[|sortedActive|](i requires 0 <= i < |sortedActive| => sortedActive[i]);
    assert pool[..] == sortedActive;
    winners := PartialShuffle(pool, stream, k);
  }

  // ----- The number of prizes and the split

  function WinnerCount(nHeight: int, interval: int): (k: int)
    ensures 1 <= k <= 1024
  {
    var h := if nHeight < 0 then 0 else nHeight;
    if interval <= 0 then 1
    else
      var halvings := h / interval;
      (if halvings > 1023 then 1023 else halvings) + 1
  }

  lemma DivStep(n: nat, d: int)
    requires d > 0
    ensures (n + d) / d == n / d + 1 && (n < d ==> n / d == 0)
  {
    var q, r := n / d, n % d;
    assert n + d == d * (q + 1) + r;
    DivisionIs(n + d, d, q + 1, r);
    if n < d {
      DivisionIs(n, d, 0, n);
    }
  }

  /** One more winner with every halving interval, up to 1024. */
  lemma WinnerCountSteps(nHeight: nat, interval: int)
    requires interval > 0
    ensures var k := WinnerCount(nHeight, interval);
      && WinnerCount(nHeight + interval, interval) == (if k == 1024 then 1024 else k + 1)
      && (nHeight < interval ==> k == 1)
  {
    DivStep(nHeight, interval);
  }

  function Sum(parts: seq<int>): int {
    if parts == [] then 0 else parts[0] + Sum(parts[1..])
  }

  lemma {:induction false} SumOfRamp(parts: seq<int>, base: int, extra: nat)
    requires extra <= |parts|
    requires forall i :: 0 <= i < |parts| ==> parts[i] == base + (if i < extra then 1 else 0)
    ensures Sum(parts) == |parts| * base + extra
  {
    if parts != [] {
      var rest := parts[1..];
      var extra' := if extra > 0 then extra - 1 else 0;
      assert forall i :: 0 <= i < |rest| ==> rest[i] == parts[i + 1];
      SumOfRamp(rest, base, extra');
    }
  }

  /** Shares that differ by at most one unit, larger ones first, and add up to the total. */
  ghost predicate FairSplit(parts: seq<int>, total: int, winners: nat) {
    && |parts| == winners && Sum(parts) == total
    && (forall i, j :: 0 <= i <= j < |parts| ==> parts[j] <= parts[i] <= parts[j] + 1)
  }

  /** The share of the `i`-th of `n` winners. */
  function Share(total: int, n: int, i: nat): int
    requires n > 0
  {
    total / n + (if i < total % n then 1 else 0)
  }

  function Split(total: int, winners: int): seq<int> {
    if winners <= 0 || total <= 0 then [] else seq(winners, i requires 0 <= i < winners => Share(total, winners, i))
  }

  lemma SplitIsFair(total: int, winners: int)
    requires total > 0 && winners > 0
    ensures FairSplit(Split(total, winners), total, winners)
  {
    SumOfRamp(Split(total, winners), total / winners, total % winners);
  }

  /** Where the shares step down. */
  lemma {:induction false} StepDown(parts: seq<int>) returns (extra: nat)
    requires parts != [] && forall i, j :: 0 <= i <= j < |parts| ==> parts[j] <= parts[i] <= parts[j] + 1
    ensures extra < |parts|
    ensures forall i :: 0 <= i < |parts| ==> parts[i] == parts[|parts| - 1] + (if i < extra then 1 else 0)
  {
    extra := 0;
    while extra < |parts| - 1 && parts[extra] == parts[|parts| - 1] + 1
      invariant extra <= |parts| - 1
      invariant forall i :: 0 <= i < extra ==> parts[i] == parts[|parts| - 1] + 1
    {
      extra := extra + 1;
    }
  }

  /** The split is the only fair one. */
  lemma FairSplitIsUnique(parts: seq<int>, total: int, winners: nat)
    requires FairSplit(parts, total, winners) && total > 0 && winners > 0
    ensures parts == Split(total, winners)
  {
    var extra := StepDown(parts);
    var base := parts[|parts| - 1];
    SumOfRamp(parts, base, extra);
    DivisionIs(total, winners, base, extra);
  }

  /** Equal shares, then one more unit for each of the first `total % winners`. */
  method SplitReward(total: int, winners: int) returns (parts: seq<int>)
    ensures parts == Split(total, winners)
    ensures total > 0 && winners > 0 ==> FairSplit(parts, total, winners)
  {
    parts := [];
    if winners <= 0 || total <= 0 {
      return;
    }
    parts := seq(winners, _ => total / winners);
    var rem := total % winners;
    var i := 0;
    while i < rem
      invariant 0 <= i <= rem && |parts| == winners
      invariant forall j :: 0 <= j < winners ==> parts[j] == total / winners + (if j < i then 1 else 0)
    {
      parts := parts[i := parts[i] + 1];
      i := i + 1;
    }
    SplitIsFair(total, winners);
  }
}
