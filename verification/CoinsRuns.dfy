/**
 * Whole runs of a cache stack against plain maps: one map of unspent coins per level, with no flags,
 * no entries and no write-back.
 */
module CoinsRuns {
  import opened Options
  import opened Coins

  /** Reads, drops and flushes may name any cache of the stack; writes go to the top one. */
  datatype Op =
    | Read(k: nat, o: OutPoint)
    | Drop(k: nat, o: OutPoint)
    | Add(o: OutPoint, coin: Coin, unspendable: bool, overwrite: bool)
    | Spend(o: OutPoint)
    | WriteBack(k: nat)
    | Push
    | Pop

  // ----- The plain model

  type Levels = seq<map<OutPoint, Coin>>

  function Get(m: map<OutPoint, Coin>, o: OutPoint): Option<Coin> {
    if o in m then Some(m[o]) else None
  }

  /** What the callers owe: existing caches, unspent coins, and announced overwrites. */
  predicate Allowed(a: Levels, op: Op) {
    match op
    case Read(k, o) => 0 < k < |a|
    case Drop(k, o) => 0 < k < |a|
    case Add(o, coin, unspendable, overwrite) =>
      |a| > 1 && !coin.IsSpent() && (unspendable || overwrite || o !in a[|a| - 1])
    case Spend(o) => |a| > 1
    case WriteBack(k) => 0 < k < |a|
    case Push => |a| > 0
    case Pop => |a| > 1
  }

  function PlainStep(a: Levels, op: Op): Levels
    requires Allowed(a, op)
  {
    var top := |a| - 1;
    match op
    case Read(k, o) => a
    case Drop(k, o) => a
    case Add(o, coin, unspendable, overwrite) => if unspendable then a else a[top := a[top][o := coin]]
    case Spend(o) => a[top := a[top] - {o}]
    case WriteBack(k) => a[k - 1 := a[k]]
    case Push => a + [a[top]]
    case Pop => a[..top]
  }

  function PlainAnswer(a: Levels, op: Op): Option<Coin>
    requires Allowed(a, op)
  {
    match op
    case Read(k, o) => Get(a[k], o)
    case Spend(o) => Get(a[|a| - 1], o)
    case _ => None
  }

  // ----- The cache stack

  /** The next stack and the coin handed to the caller; `None` stands for a missing cache or an exception. */
  ghost function Step(s: Stack, op: Op): Option<(Stack, Option<Coin>)> {
    var n := |s.layers|;
    match op
    case Read(k, o) =>
      if 0 < k <= n then
        var t := Fetch(s, k, o);
        var m := t.layers[k - 1].coins;
        Some((t, if o in m then m[o].coin.Seen() else None))
      else None
    case Drop(k, o) => if 0 < k <= n then Some((Uncache(s, k, o), None)) else None
    case Add(o, coin, unspendable, overwrite) =>
      if n > 0 && AddCoin(s, o, coin, unspendable, overwrite).Added?
      then Some((AddCoin(s, o, coin, unspendable, overwrite).s, None)) else None
    case Spend(o) => if n > 0 then Some((SpendCoin(s, o).s, SpendCoin(s, o).moved.Seen())) else None
    case WriteBack(k) =>
      if 0 < k <= n && (k > 1 ==> Mergeable(s.layers[k - 2].coins, s.layers[k - 1].coins))
      then Some((Flush(s, k), None)) else None
    case Push => Some((s.(layers := s.layers + [EMPTY_LAYER]), None))
    case Pop => if n > 0 then Some((s.(layers := s.layers[..n - 1]), None)) else None
  }

  ghost predicate Agrees(s: Stack, a: Levels) {
    && |a| == |s.layers| + 1
    && forall k, o :: 0 <= k < |a| ==> Lookup(s, k, o) == Get(a[k], o)
  }

  lemma AgreesAt(s: Stack, a: Levels, k: nat, o: OutPoint)
    requires Agrees(s, a) && k < |a|
    ensures Lookup(s, k, o) == Get(a[k], o)
  {
  }

  lemma SameViewsAgree(s: Stack, t: Stack, a: Levels)
    requires SameViews(s, t) && Agrees(s, a)
    ensures Agrees(t, a)
  {
    forall k, o | 0 <= k < |a| ensures Lookup(t, k, o) == Get(a[k], o) {
      SameLookup(s, t, k, o);
      AgreesAt(s, a, k, o);
    }
  }

  lemma ReadRefines(s: Stack, a: Levels, k: nat, o: OutPoint)
    requires Valid(s) && Agrees(s, a) && 0 < k < |a|
    ensures Refines(s, a, Read(k, o))
  {
    hide Valid, SameViews, Agrees, Fetch;
    assert |a| == |s.layers| + 1 by { AgreesAt(s, a, 0, o); AgreesSize(s, a); }
    FetchKeepsViews(s, k, o);
    SameViewsAgree(s, Fetch(s, k, o), a);
    AgreesAt(s, a, k, o);
  }

  lemma AgreesSize(s: Stack, a: Levels)
    requires Agrees(s, a)
    ensures |a| == |s.layers| + 1
  {
  }

  /** One operation succeeds, keeps the stack honest, and does to every view what it does to the plain maps. */
  ghost predicate Refines(s: Stack, a: Levels, op: Op)
    requires Allowed(a, op)
  {
    && Step(s, op).Some?
    && Valid(Step(s, op).value.0)
    && Agrees(Step(s, op).value.0, PlainStep(a, op))
    && Step(s, op).value.1 == PlainAnswer(a, op)
  }

  lemma TopChangedAgree(s: Stack, t: Stack, a: Levels, o: OutPoint, m: map<OutPoint, Coin>)
    requires Agrees(s, a) && |a| > 1 && TopChanged(s, t, o, Get(m, o))
    requires forall p :: p != o ==> Get(m, p) == Get(a[|a| - 1], p)
    ensures Agrees(t, a[|a| - 1 := m])
  {
    forall k, p | 0 <= k < |a| ensures Lookup(t, k, p) == Get(a[|a| - 1 := m][k], p) {
      AgreesAt(s, a, k, p);
    }
  }

  lemma AddRefines(s: Stack, a: Levels, op: Op)
    requires Valid(s) && Agrees(s, a) && op.Add? && Allowed(a, op)
    ensures Refines(s, a, op)
  {
    AgreesSize(s, a);
    if !op.unspendable {
      AgreesAt(s, a, |a| - 1, op.o);
      AddCoinContract(s, op.o, op.coin, op.overwrite);
      hide Valid, Agrees, AddCoin, TopChanged;
      TopChangedAgree(s, AddCoin(s, op.o, op.coin, false, op.overwrite).s, a, op.o, a[|a| - 1][op.o := op.coin]);
    }
  }

  lemma SpendRefines(s: Stack, a: Levels, o: OutPoint)
    requires Valid(s) && Agrees(s, a) && |a| > 1
    ensures Refines(s, a, Spend(o))
  {
    AgreesSize(s, a);
    AgreesAt(s, a, |a| - 1, o);
    SpendCoinRemoves(s, o);
    hide Valid, Agrees, SpendCoin, TopChanged;
    TopChangedAgree(s, SpendCoin(s, o).s, a, o, a[|a| - 1] - {o});
  }

  lemma FlushRefines(s: Stack, a: Levels, k: nat)
    requires Valid(s) && Agrees(s, a) && 0 < k < |a|
    ensures Refines(s, a, WriteBack(k))
  {
    AgreesSize(s, a);
    FlushKeepsViews(s, k);
    hide Valid, Flush, Mergeable;
    var t, b := Flush(s, k), a[k - 1 := a[k]];
    forall j, o | 0 <= j < |b| ensures Lookup(t, j, o) == Get(b[j], o) {
      AgreesAt(s, a, j, o);
      AgreesAt(s, a, k, o);
    }
  }

  lemma PushRefines(s: Stack, a: Levels)
    requires Valid(s) && Agrees(s, a)
    ensures Refines(s, a, Push)
  {
    var n := |s.layers|;
    var t, b := s.(layers := s.layers + [EMPTY_LAYER]), a + [a[n]];
    forall j, o | 0 <= j < |b| ensures Lookup(t, j, o) == Get(b[j], o) {
      BelowUnchanged(s, t, if j <= n then j else n, o);
      AgreesAt(s, a, if j <= n then j else n, o);
    }
    forall j | 0 < j <= |t.layers| ensures LayerOk(t, j) {
      LayerCarriesOver(s, t, j);
    }
  }

  lemma PopRefines(s: Stack, a: Levels)
    requires Valid(s) && Agrees(s, a) && |a| > 1
    ensures Refines(s, a, Pop)
  {
    var n := |s.layers|;
    var t, b := s.(layers := s.layers[..n - 1]), a[..n];
    forall j, o | 0 <= j < |b| ensures Lookup(t, j, o) == Get(b[j], o) {
      BelowUnchanged(s, t, j, o);
      AgreesAt(s, a, j, o);
    }
    forall j | 0 < j <= |t.layers| ensures LayerOk(t, j) {
      LayerCarriesOver(s, t, j);
    }
  }

  lemma LayerCarriesOver(s: Stack, t: Stack, j: nat)
    requires Valid(s) && 0 < j <= |t.layers| && s.db == t.db
    requires forall i :: 0 <= i < |t.layers| && i < |s.layers| ==> t.layers[i] == s.layers[i]
    requires j <= |s.layers| || (j == |s.layers| + 1 && t.layers[j - 1] == EMPTY_LAYER)
    ensures LayerOk(t, j)
  {
    if j <= |s.layers| {
      ValidLayer(s, j);
      var below := j - 1;
      forall o ensures Lookup(t, below, o) == Lookup(s, below, o) {
        BelowUnchanged(s, t, below, o);
      }
    } else {
      assert UsageOf(map[]) == 0;
    }
  }

  lemma StepRefines(s: Stack, a: Levels, op: Op)
    requires Valid(s) && Agrees(s, a) && Allowed(a, op)
    ensures Refines(s, a, op)
  {
    AgreesSize(s, a);
    hide Refines, Valid, Agrees;
    match op
    case Read(k, o) => ReadRefines(s, a, k, o);
    case Drop(k, o) => DropRefines(s, a, k, o);
    case Add(o, coin, unspendable, overwrite) => AddRefines(s, a, op);
    case Spend(o) => SpendRefines(s, a, o);
    case WriteBack(k) => FlushRefines(s, a, k);
    case Push => PushRefines(s, a);
    case Pop => PopRefines(s, a);
  }

  lemma DropRefines(s: Stack, a: Levels, k: nat, o: OutPoint)
    requires Valid(s) && Agrees(s, a) && 0 < k < |a|
    ensures Refines(s, a, Drop(k, o))
  {
    AgreesSize(s, a);
    UncacheKeepsViews(s, k, o);
    hide Valid, SameViews, Agrees, Uncache;
    SameViewsAgree(s, Uncache(s, k, o), a);
  }

  // ----- Runs

  predicate AllAllowed(a: Levels, ops: seq<Op>)
    decreases |ops|
  {
    ops == [] || (Allowed(a, ops[0]) && AllAllowed(PlainStep(a, ops[0]), ops[1..]))
  }

  function PlainRun(a: Levels, ops: seq<Op>): (Levels, seq<Option<Coin>>)
    requires AllAllowed(a, ops)
    decreases |ops|
  {
    if ops == [] then (a, [])
    else
      var (b, answers) := PlainRun(PlainStep(a, ops[0]), ops[1..]);
      (b, [PlainAnswer(a, ops[0])] + answers)
  }

  ghost function Run(s: Stack, ops: seq<Op>): Option<(Stack, seq<Option<Coin>>)>
    decreases |ops|
  {
    if ops == [] then Some((s, []))
    else
      var step := Step(s, ops[0]);
      if step.None? then None
      else
        var rest := Run(step.value.0, ops[1..]);
        if rest.None? then None else Some((rest.value.0, [step.value.1] + rest.value.1))
  }

  /**
   * Every run of any length over a stack of any depth goes through without an exception, ends in an
   * honest stack showing exactly the plain maps' coins at every level, and answers every read and
   * every spend as the plain maps do.
   */
  lemma {:induction false} RunRefines(s: Stack, a: Levels, ops: seq<Op>)
    requires Valid(s) && Agrees(s, a) && AllAllowed(a, ops)
    ensures Run(s, ops).Some?
    ensures Valid(Run(s, ops).value.0) && Agrees(Run(s, ops).value.0, PlainRun(a, ops).0)
    ensures Run(s, ops).value.1 == PlainRun(a, ops).1
    decreases |ops|
  {
    if ops != [] {
      StepRefines(s, a, ops[0]);
      hide Step, PlainStep, Valid, Agrees, Allowed;
      RunRefines(Step(s, ops[0]).value.0, PlainStep(a, ops[0]), ops[1..]);
    }
  }

  /** A bare database is an honest stack: the plain map is its unspent records. */
  lemma StartAgrees(db: map<OutPoint, Coin>, best: Hash)
    ensures Valid(Stack(db, best, []))
    ensures Agrees(Stack(db, best, []), [map o | o in db && !db[o].IsSpent() :: db[o]])
  {
  }

  // ----- Best blocks

  /** The best block seen at level `k`: a cache with no hash of its own asks below. */
  function BestBlock(s: Stack, k: nat): Hash
    requires k <= |s.layers|
  {
    if k == 0 then s.dbBest
    else if s.layers[k - 1].best != NULL_HASH then s.layers[k - 1].best
    else BestBlock(s, k - 1)
  }

  /**
   * A flush hands its own hash down even when it has none, so the best block seen from the flushed
   * cache survives exactly when the cache had one, or the level below had none of its own to lose.
   */
  lemma FlushBestBlock(s: Stack, k: nat)
    requires 0 < k <= |s.layers|
    requires k > 1 ==> Mergeable(s.layers[k - 2].coins, s.layers[k - 1].coins)
    ensures BestBlock(Flush(s, k), k) == BestBlock(s, k) <==>
            || s.layers[k - 1].best != NULL_HASH
            || (if k == 1 then s.dbBest == NULL_HASH else BestBlock(s, k - 1) == BestBlock(s, k - 2))
  {
    if k == 1 {
      assert Flush(s, 1).dbBest == s.layers[0].best == Flush(s, 1).layers[0].best;
    } else {
      FlushParts(s, k);
      hide Flush;
      BestBelow(s, Flush(s, k), k - 2);
    }
  }

  /** An empty cache that never looked for the best block loses that of the cache below. */
  lemma FlushLosesBestBlock()
    ensures var s := Stack(map[], 1, [EMPTY_LAYER.(best := 2), EMPTY_LAYER]);
      Valid(s) && BestBlock(s, 2) == 2 && BestBlock(Flush(s, 2), 2) == 1
  {
    var s := Stack(map[], 1, [EMPTY_LAYER.(best := 2), EMPTY_LAYER]);
    assert Valid(s);
    FlushParts(s, 2);
    hide Flush;
    BestBelow(s, Flush(s, 2), 0);
  }

  lemma {:induction false} BestBelow(s: Stack, t: Stack, k: nat)
    requires k <= |s.layers| && k <= |t.layers| && s.dbBest == t.dbBest
    requires forall j :: 0 <= j < k ==> s.layers[j] == t.layers[j]
    ensures BestBlock(s, k) == BestBlock(t, k)
  {
    if k > 0 {
      BestBelow(s, t, k - 1);
    }
  }
}
