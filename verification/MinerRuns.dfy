/** Package selection as a machine over its rounds, and a run that leaves out a package that fits (src/miner.cpp). */
module MinerRuns {
  import opened SetTotals
  import opened Miner

  const MAX_CONSECUTIVE_FAILURES := 1000

  /** What stays the same: the pool with its cached totals and their order, the largest weight and the least fee rate. */
  datatype Env = Env(pool: Pool, cached: map<TxId, Entry>, maxWeight: int, order: seq<TxId>, rate: nat)

  /** Between two rounds: the place in the order, corrected entries, failures, and the block. */
  datatype Round = Round(mi: nat, m: map<TxId, Entry>, failed: set<TxId>, misses: nat,
                         vtx: seq<TxId>, inBlock: set<TxId>, c: Counters)

  const START := Round(0, map[], {}, 0, [], {}, EMPTY_BLOCK)

  ghost predicate EnvOk(env: Env) {
    && PoolOk(env.pool) && CachedOk(env.pool, env.cached)
    && Elements(env.order) == env.pool.txs.Keys && ByScore(env.cached, env.order)
  }

  // ----- Correcting entries, in the order the package is walked

  function UpdateFor(p: Pool, cached: map<TxId, Entry>, added: set<TxId>, it: TxId, m: map<TxId, Entry>): map<TxId, Entry>
    requires p.anc.Keys == p.txs.Keys == cached.Keys && it in p.txs
  {
    map t | t in m.Keys + (Descendants(p, it) - added) ::
      if t in Descendants(p, it) - added then Corrected(p, cached, m, t, it) else m[t]
  }

  function UpdateAll(p: Pool, cached: map<TxId, Entry>, added: set<TxId>, walk: seq<TxId>, m: map<TxId, Entry>): map<TxId, Entry>
    requires p.anc.Keys == p.txs.Keys == cached.Keys && AllIn(p, walk)
  {
    if walk == [] then m
    else UpdateFor(p, cached, added, walk[|walk| - 1], UpdateAll(p, cached, added, walk[..|walk| - 1], m))
  }

  lemma UpdatedIs(p: Pool, cached: map<TxId, Entry>, added: set<TxId>, it: TxId, m: map<TxId, Entry>, m': map<TxId, Entry>)
    requires p.anc.Keys == p.txs.Keys == cached.Keys && it in p.txs && UpdatedFor(p, cached, added, it, m, m')
    ensures m' == UpdateFor(p, cached, added, it, m)
  {
    hide Corrected;
    assert m'.Keys == m.Keys + (Descendants(p, it) - added);
  }

  ghost predicate Updated(p: Pool, cached: map<TxId, Entry>, added: set<TxId>, m: map<TxId, Entry>, m': map<TxId, Entry>) {
    && p.anc.Keys == p.txs.Keys == cached.Keys
    && exists walk :: Walked(p, cached, added, walk, added, m, m')
  }

  /** The part `done` of the package has been walked. */
  ghost predicate Walked(p: Pool, cached: map<TxId, Entry>, added: set<TxId>, walk: seq<TxId>, done: set<TxId>,
                         m: map<TxId, Entry>, m': map<TxId, Entry>)
    requires p.anc.Keys == p.txs.Keys == cached.Keys
  {
    AllIn(p, walk) && Enumerates(walk, done) && m' == UpdateAll(p, cached, added, walk, m)
  }

  lemma NotWalked(p: Pool, cached: map<TxId, Entry>, added: set<TxId>, m: map<TxId, Entry>)
    requires p.anc.Keys == p.txs.Keys == cached.Keys
    ensures Walked(p, cached, added, [], {}, m, m)
  {
  }

  lemma WalkedOne(p: Pool, cached: map<TxId, Entry>, added: set<TxId>, walk: seq<TxId>, done: set<TxId>,
                  m: map<TxId, Entry>, m1: map<TxId, Entry>, it: TxId, m2: map<TxId, Entry>)
    requires p.anc.Keys == p.txs.Keys == cached.Keys && it in p.txs && it !in done
    requires Walked(p, cached, added, walk, done, m, m1) && UpdatedFor(p, cached, added, it, m1, m2)
    ensures Walked(p, cached, added, walk + [it], done + {it}, m, m2)
  {
    hide UpdateFor, UpdatedFor;
    UpdatedIs(p, cached, added, it, m1, m2);
    var longer := walk + [it];
    assert longer[..|longer| - 1] == walk;
    forall i | 0 <= i < |walk| ensures walk[i] != it {
      assert walk[i] in Elements(walk);
    }
    assert Elements(longer) == Elements(walk) + {it};
  }

  // ----- Rounds

  predicate Skips(s: Round, t: TxId) {
    t in s.m || t in s.inBlock || t in s.failed
  }

  /** The transaction to look at: the best corrected entry, or the next in order where that is not above it. */
  ghost predicate Chooses(env: Env, s: Round, t: TxId, modified: bool) {
    && (s.mi < |env.order| ==> env.order[s.mi] in env.cached && !Skips(s, env.order[s.mi]))
    && if modified
       then IsBest(s.m, t) && (s.mi < |env.order| ==> Above(s.m[t], t, env.cached[env.order[s.mi]], env.order[s.mi]))
       else s.mi < |env.order| && t == env.order[s.mi] && NoneAbove(s.m, env.cached[t], t)
  }

  ghost predicate NoneAbove(m: map<TxId, Entry>, e: Entry, t: TxId) {
    m == map[] || exists b :: IsBest(m, b) && !Above(m[b], b, e, t)
  }

  /** There is at most one choice. */
  lemma ChoiceIsUnique(env: Env, s: Round, t: TxId, modified: bool, u: TxId, other: bool)
    requires Chooses(env, s, t, modified) && Chooses(env, s, u, other)
    ensures t == u && modified == other
  {
    hide Above, Skips;
    if modified || other {
      var b := if modified then t else u;
      forall d | IsBest(s.m, d) ensures d == b {
        EitherAbove(s.m[b], b, s.m[d], d);
      }
    }
  }

  lemma EitherAbove(a: Entry, x: TxId, b: Entry, y: TxId)
    ensures x == y || Above(a, x, b, y) || Above(b, y, a, x)
  {
  }

  /** The totals looked at. */
  function Seen(env: Env, s: Round, t: TxId, modified: bool): Entry {
    if modified && t in s.m then s.m[t] else if t in env.cached then env.cached[t] else Entry(0, 0, 0)
  }

  ghost predicate Considers(env: Env, s: Round, t: TxId, modified: bool) {
    && Chooses(env, s, t, modified) && t in env.pool.anc && t in env.pool.txs
    && MeetsRate(env.rate, Seen(env, s, t, modified))
  }

  /** The place in the order after this choice. */
  function Next(s: Round, modified: bool): nat {
    if modified then s.mi else s.mi + 1
  }

  /** The transaction is left out; `fails` if it is not to be looked at again in order. */
  function LeavesOut(s: Round, t: TxId, modified: bool, fails: bool, misses: nat): Round {
    s.(mi := Next(s, modified), m := s.m - {t}, failed := if fails then s.failed + {t} else s.failed, misses := misses)
  }

  /** What is left of the package goes in. */
  ghost predicate Takes(env: Env, s: Round, t: TxId, modified: bool, s': Round)
    requires t in env.pool.anc
  {
    var package := Left(env.pool, s.inBlock, t);
    && (exists sorted :: SortedPackage(env.pool, package, sorted) && s'.vtx == s.vtx + sorted)
    && s'.inBlock == s.inBlock + package && Grown(env.pool, s.c, package, s'.c)
    && s'.mi == Next(s, modified) && s'.failed == s.failed && s'.misses == 0
    && Updated(env.pool, env.cached, package, s.m - package, s'.m)
  }

  ghost predicate Decides(env: Env, s: Round, t: TxId, modified: bool, s': Round)
    requires t in env.pool.anc
  {
    var e, package := Seen(env, s, t, modified), Left(env.pool, s.inBlock, t);
    if !TestPackage(env.maxWeight, s.c, e.size, e.sigops) then s' == LeavesOut(s, t, modified, modified, s.misses + 1)
    else if exists a :: a in package && a in env.pool.txs && env.pool.txs[a].blocked then s' == LeavesOut(s, t, modified, true, s.misses)
    else if exists a :: a in package && a in env.pool.txs && !Allowed(env.pool.txs[a]) then s' == LeavesOut(s, t, modified, modified, s.misses)
    else Takes(env, s, t, modified, s')
  }

  ghost predicate Skipping(env: Env, s: Round, s': Round) {
    s.mi < |env.order| && Skips(s, env.order[s.mi]) && s' == s.(mi := s.mi + 1)
  }

  ghost predicate Step(env: Env, s: Round, s': Round) {
    Skipping(env, s, s') || exists t, modified :: Considers(env, s, t, modified) && Decides(env, s, t, modified, s')
  }

  /** A run from the empty block. */
  ghost predicate IsRun(env: Env, run: seq<Round>) {
    run != [] && run[0] == START && forall i :: 0 <= i < |run| - 1 ==> Step(env, run[i], run[i + 1])
  }

  ghost predicate Reachable(env: Env, s: Round) {
    exists run :: IsRun(env, run) && run[|run| - 1] == s
  }

  /** Nothing is left to look at. */
  predicate Done(env: Env, s: Round) {
    s.mi == |env.order| && s.m == map[]
  }

  lemma StartReachable(env: Env)
    ensures Reachable(env, START)
  {
    assert IsRun(env, [START]);
  }

  lemma StepReachable(env: Env, s: Round, s': Round)
    requires Reachable(env, s) && Step(env, s, s')
    ensures Reachable(env, s')
  {
    hide Step;
    var run :| IsRun(env, run) && run[|run| - 1] == s;
    var more := run + [s'];
    forall i | 0 <= i < |more| - 1 ensures Step(env, more[i], more[i + 1]) {
      if i < |run| - 1 {
        assert more[i] == run[i] && more[i + 1] == run[i + 1];
      }
    }
    assert IsRun(env, more);
  }

  lemma SkipReachable(env: Env, s: Round)
    requires Reachable(env, s) && s.mi < |env.order| && Skips(s, env.order[s.mi])
    ensures Reachable(env, s.(mi := s.mi + 1))
  {
    hide Reachable;
    assert Skipping(env, s, s.(mi := s.mi + 1));
    StepReachable(env, s, s.(mi := s.mi + 1));
  }

  lemma DecideReachable(env: Env, s: Round, t: TxId, modified: bool, s': Round)
    requires Reachable(env, s) && Considers(env, s, t, modified) && Decides(env, s, t, modified, s')
    ensures Reachable(env, s')
  {
    hide Reachable, Considers, Decides;
    StepReachable(env, s, s');
  }

  // ----- The fees of what goes in

  /** The package of one choice: what was looked at, and the block before. */
  datatype Pick = Pick(t: TxId, e: Entry, before: set<TxId>, c: Counters)

  /**
   * What was true of a package when it went in: its totals covered what was left of it and passed the test, they were
   * exact unless it was hopeless, everything in it was allowed, and its fees met the rate.
   */
  ghost predicate PickOk(p: Pool, maxWeight: int, rate: nat, k: Pick) {
    && k.t in p.anc && k.t in p.txs && k.t !in k.before && CountersOk(p, maxWeight, k.before, k.c)
    && TestPackage(maxWeight, k.c, k.e.size, k.e.sigops) && EntryOk(p, k.before, k.t, k.e)
    && (EntryExact(p, k.before, k.t, k.e) || Hopeless(p, maxWeight, k.before, k.c, k.t))
    && (forall a :: a in Left(p, k.before, k.t) ==> a in p.txs && Allowed(p.txs[a]))
    && 1000 * (k.e.fees + 1) > rate * k.e.size && (rate > 0 ==> k.e.fees >= 1)
  }

  /** The block consists of the packages picked, one after the other. */
  ghost predicate Picked(p: Pool, maxWeight: int, rate: nat, picks: seq<Pick>, inBlock: set<TxId>) {
    if picks == [] then inBlock == {}
    else
      var k := picks[|picks| - 1];
      && PickOk(p, maxWeight, rate, k) && inBlock == k.before + Left(p, k.before, k.t)
      && Picked(p, maxWeight, rate, picks[..|picks| - 1], k.before)
  }

  ghost predicate AllPaid(p: Pool, maxWeight: int, rate: nat, inBlock: set<TxId>) {
    exists picks :: Picked(p, maxWeight, rate, picks, inBlock)
  }

  lemma NonePaid(p: Pool, maxWeight: int, rate: nat)
    ensures AllPaid(p, maxWeight, rate, {})
  {
    assert Picked(p, maxWeight, rate, [], {});
  }

  lemma OneMorePaid(p: Pool, maxWeight: int, rate: nat, k: Pick)
    requires AllPaid(p, maxWeight, rate, k.before) && PickOk(p, maxWeight, rate, k)
    ensures AllPaid(p, maxWeight, rate, k.before + Left(p, k.before, k.t))
  {
    hide PickOk;
    PickPays(p, maxWeight, rate, k);
    var picks :| Picked(p, maxWeight, rate, picks, k.before);
    var more := picks + [k];
    assert more[..|more| - 1] == picks;
    assert Picked(p, maxWeight, rate, more, k.before + Left(p, k.before, k.t));
  }

  /** In every run, whatever went in was chosen by totals whose fees met the rate. */
  lemma PackagesPay(env: Env, run: seq<Round>, i: nat) returns (t: TxId, modified: bool)
    requires IsRun(env, run) && i < |run| - 1 && run[i + 1].inBlock != run[i].inBlock
    ensures Chooses(env, run[i], t, modified) && t in env.pool.anc
    ensures run[i + 1].inBlock == run[i].inBlock + Left(env.pool, run[i].inBlock, t)
    ensures var e := Seen(env, run[i], t, modified);
      1000 * (e.fees + 1) > env.rate * e.size && (env.rate > 0 ==> e.fees >= 1)
  {
    hide MeetsRate, Decides, Chooses, Seen, Left;
    assert Step(env, run[i], run[i + 1]);
    t, modified :| Considers(env, run[i], t, modified) && Decides(env, run[i], t, modified, run[i + 1]);
    ConsideredPays(env, run[i], t, modified);
    DecidedIn(env, run[i], t, modified, run[i + 1]);
  }

  lemma ConsideredPays(env: Env, s: Round, t: TxId, modified: bool)
    requires Considers(env, s, t, modified)
    ensures Chooses(env, s, t, modified) && t in env.pool.anc
    ensures var e := Seen(env, s, t, modified);
      1000 * (e.fees + 1) > env.rate * e.size && (env.rate > 0 ==> e.fees >= 1)
  {
    hide Chooses, Seen;
  }

  lemma DecidedIn(env: Env, s: Round, t: TxId, modified: bool, s': Round)
    requires t in env.pool.anc && Decides(env, s, t, modified, s') && s'.inBlock != s.inBlock
    ensures s'.inBlock == s.inBlock + Left(env.pool, s.inBlock, t)
  {
    hide Seen, Left, Updated, Grown, SortedPackage, TestPackage, Allowed;
  }

  /** Weights are four times the sizes and nobody paid for priority. */
  predicate Plain(p: Pool) {
    forall t :: t in p.txs ==> p.txs[t].weight == WITNESS_SCALE_FACTOR * p.txs[t].size && p.txs[t].modFee == p.txs[t].fee
  }

  /** In a plain pool totals that passed the test are exact. */
  lemma PlainIsExact(p: Pool, maxWeight: int, rate: nat, k: Pick)
    requires PoolOk(p) && Plain(p) && PickOk(p, maxWeight, rate, k)
    ensures k.e.size == Total(SizeOf(p), Left(p, k.before, k.t)) && k.e.fees == Total(FeeOf(p), Left(p, k.before, k.t))
  {
    hide Total, Left;
    if Hopeless(p, maxWeight, k.before, k.c, k.t) && !EntryExact(p, k.before, k.t, k.e) {
      HopelessDoesNotFit(p, maxWeight, k.before, k.c, k.t);
      assert false;
    }
    PlainFees(p, k.before, k.t, k.e);
    SameTotal(ModFeeOf(p), FeeOf(p), Left(p, k.before, k.t));
  }

  lemma {:induction false} SameTotal(f: TxId -> int, g: TxId -> int, s: set<TxId>)
    requires forall x :: x in s ==> f(x) == g(x)
    ensures Total(f, s) == Total(g, s)
  {
    if s != {} {
      var x :| x in s;
      SameTotal(f, g, s - {x});
      TotalRemove(f, s, x);
      TotalRemove(g, s, x);
    }
  }

  /** In a plain pool the fees of the whole block meet the rate but for less than one unit a package. */
  lemma {:induction false} BlockPays(p: Pool, maxWeight: int, rate: nat, picks: seq<Pick>, inBlock: set<TxId>)
    requires PoolOk(p) && Plain(p) && Picked(p, maxWeight, rate, picks, inBlock)
    ensures 1000 * (Total(FeeOf(p), inBlock) + |picks|) >= rate * Total(SizeOf(p), inBlock)
    ensures rate > 0 ==> Total(FeeOf(p), inBlock) >= |picks|
  {
    hide Total, PickOk, Left, PoolOk, Plain;
    if picks == [] {
      TotalConst(FeeOf(p), {}, 0);
      TotalConst(SizeOf(p), {}, 0);
    } else {
      var k := picks[|picks| - 1];
      BlockPays(p, maxWeight, rate, picks[..|picks| - 1], k.before);
      PlainIsExact(p, maxWeight, rate, k);
      PickPays(p, maxWeight, rate, k);
      LeftDisjoint(p, k.before, k.t);
      TotalUnion(FeeOf(p), k.before, Left(p, k.before, k.t));
      TotalUnion(SizeOf(p), k.before, Left(p, k.before, k.t));
      RateSum(rate, Total(SizeOf(p), k.before), k.e.size);
    }
  }

  lemma LeftDisjoint(p: Pool, inBlock: set<TxId>, t: TxId)
    requires t in p.anc
    ensures Left(p, inBlock, t) !! inBlock
  {
  }

  lemma PickPays(p: Pool, maxWeight: int, rate: nat, k: Pick)
    requires PickOk(p, maxWeight, rate, k)
    ensures k.t in p.anc && 1000 * (k.e.fees + 1) > rate * k.e.size && (rate > 0 ==> k.e.fees >= 1)
  {
  }

  lemma RateSum(rate: nat, a: int, b: int)
    ensures rate * (a + b) == rate * a + rate * b
  {
  }

  // ----- The fee rate of what is not looked at

  /** No entry still to be looked at has a higher fee rate than the one chosen. */
  lemma ChosenIsHighest(env: Env, s: Round, t: TxId, modified: bool)
    requires EnvOk(env) && Chooses(env, s, t, modified) && t in env.cached && (forall x :: x in s.m ==> s.m[x].size > 0)
    requires forall x :: x in env.cached ==> env.cached[x].size > 0
    ensures var e := Seen(env, s, t, modified);
      && e.size > 0 && (forall x :: x in s.m ==> RateLe(s.m[x], e))
      && (forall j :: s.mi <= j < |env.order| ==> env.order[j] in env.cached && RateLe(env.cached[env.order[j]], e))
  {
    var e := Seen(env, s, t, modified);
    hide RateLe, Above, PoolOk, CachedOk;
    forall x | x in s.m ensures RateLe(s.m[x], e) {
      if modified {
        NotAbove(s.m[x], x, e, t);
      } else {
        var b :| IsBest(s.m, b) && !Above(s.m[b], b, e, t);
        NotAbove(s.m[x], x, s.m[b], b);
        NotAbove(s.m[b], b, e, t);
        RateTrans(s.m[x], s.m[b], e);
      }
    }
    forall j | s.mi <= j < |env.order| ensures env.order[j] in env.cached && RateLe(env.cached[env.order[j]], e) {
      var x, next := env.order[j], env.order[s.mi];
      InOrder(env, s.mi, j);
      if modified {
        IsAbove(e, t, env.cached[next], next);
        RateTrans(env.cached[x], env.cached[next], e);
      }
    }
  }

  lemma NotAbove(a: Entry, x: TxId, b: Entry, y: TxId)
    requires !Above(a, x, b, y)
    ensures RateLe(a, b)
  {
  }

  lemma IsAbove(a: Entry, x: TxId, b: Entry, y: TxId)
    requires Above(a, x, b, y)
    ensures RateLe(b, a)
  {
  }

  lemma InOrder(env: Env, i: nat, j: nat)
    requires ByScore(env.cached, env.order) && i <= j < |env.order|
    ensures env.order[i] in env.cached && env.order[j] in env.cached
    ensures RateLe(env.cached[env.order[j]], env.cached[env.order[i]])
  {
    hide Above;
    if i < j {
      NotAbove(env.cached[env.order[j]], env.order[j], env.cached[env.order[i]], env.order[i]);
    }
  }

  // ----- A run that leaves out a package that fits

  const PARENT := PLAIN.(fee := 1000, modFee := 1000)

  /** Two parents, the second a little heavier by size, and their child. */
  const TRIO := Pool(map[0 := PARENT, 1 := PLAIN.(size := 101, weight := 401), 2 := PARENT], map[0 := {}, 1 := {}, 2 := {0, 1}])

  const TRIO_CACHED: map<TxId, Entry> := map[0 := Entry(100, 1000, 0), 1 := Entry(101, 0, 0), 2 := Entry(301, 2000, 0)]

  const TRIO_ENV := Env(TRIO, TRIO_CACHED, 5204, [0, 2, 1], 0)

  lemma TotalOne(f: TxId -> int, x: TxId)
    ensures Total(f, {x}) == f(x) && Total(f, {}) == 0
  {
    TotalConst(f, {x}, f(x));
    TotalConst(f, {}, 0);
  }

  lemma TotalThree(f: TxId -> int)
    ensures Total(f, {0, 1, 2}) == f(0) + f(1) + f(2)
  {
    hide Total;
    TotalOne(f, 0);
    TotalAdd(f, {0}, 1);
    TotalAdd(f, {0, 1}, 2);
    assert {0} + {1} == {0, 1} && {0, 1} + {2} == {0, 1, 2};
  }

  lemma TrioPool()
    ensures PoolOk(TRIO) && TRIO.anc.Keys == TRIO.txs.Keys == TRIO_CACHED.Keys
    ensures Elements([0, 2, 1]) == TRIO.txs.Keys
  {
    TrioKeys();
    assert PoolOk(TRIO);
  }

  lemma TrioKeys()
    ensures TRIO.txs.Keys == TRIO.anc.Keys == TRIO_CACHED.Keys == {0, 1, 2} == Elements([0, 2, 1])
  {
  }

  lemma TrioTotals(f: TxId -> int)
    ensures Total(f, {} + {0}) == f(0) && Total(f, {} + {1}) == f(1) && Total(f, {0, 1} + {2}) == f(0) + f(1) + f(2)
  {
    hide Total;
    TotalOne(f, 0);
    TotalOne(f, 1);
    TotalThree(f);
    assert {} + {0} == {0} && {} + {1} == {1} && {0, 1} + {2} == {0, 1, 2};
  }

  lemma TrioCached()
    ensures CachedOk(TRIO, TRIO_CACHED)
  {
    hide Total;
    TrioPool();
    TrioTotals(SizeOf(TRIO));
    TrioTotals(ModFeeOf(TRIO));
    TrioTotals(SigOpsOf(TRIO));
    hide PoolOk;
  }

  lemma TrioOk()
    ensures EnvOk(TRIO_ENV)
  {
    TrioPool();
    TrioCached();
    hide PoolOk, CachedOk, Elements;
  }

  const S1 := Round(1, map[2 := Entry(201, 1000, 0)], {}, 0, [0], {0}, Counters(4400, 400, 1000, 1))
  const S2 := S1.(mi := 2)
  const S3 := S2.(m := map[], failed := {2}, misses := 1)
  const S4 := Round(3, map[2 := Entry(200, 2000, 0)], {2}, 0, [0, 1], {0, 1}, Counters(4801, 400, 1000, 2))
  const S5 := S4.(m := map[], misses := 1)

  /** A package of one transaction with no ancestors and one descendant goes in. */
  lemma TakesOne(env: Env, s: Round, t: TxId, d: TxId, s': Round)
    requires PoolOk(env.pool) && env.pool.anc.Keys == env.pool.txs.Keys == env.cached.Keys && t in env.pool.txs
    requires env.pool.anc[t] == {} && t !in s.inBlock && s.m == map[] && Descendants(env.pool, t) == {d}
    requires s' == Round(s.mi + 1, map[d := Corrected(env.pool, env.cached, map[], d, t)], s.failed, 0,
                         s.vtx + [t], s.inBlock + {t}, WithTx(env.pool, s.c, t))
    ensures Left(env.pool, s.inBlock, t) == {t} && Takes(env, s, t, false, s')
  {
    hide Updated, SortedPackage, Grown, PoolOk, Corrected;
    var package := Left(env.pool, s.inBlock, t);
    assert package == {t} && s.m - package == map[];
    OneSorted(env.pool, t);
    OneGrown(env.pool, s.c, t);
    OneUpdated(env.pool, env.cached, t, d);
  }

  lemma OneSorted(p: Pool, t: TxId)
    requires t in p.anc
    ensures SortedPackage(p, {t}, [t])
  {
    assert Elements([t]) == {t};
  }

  lemma OneGrown(p: Pool, c: Counters, t: TxId)
    ensures Grown(p, c, {t}, WithTx(p, c, t))
  {
    hide Total;
    TotalOne(WeightOf(p), t);
    TotalOne(SigOpsOf(p), t);
    TotalOne(FeeOf(p), t);
  }

  lemma OneUpdated(p: Pool, cached: map<TxId, Entry>, t: TxId, d: TxId)
    requires PoolOk(p) && p.anc.Keys == p.txs.Keys == cached.Keys && t in p.txs && Descendants(p, t) == {d}
    ensures d in cached && Updated(p, cached, {t}, map[], map[d := Corrected(p, cached, map[], d, t)])
  {
    hide Corrected;
    assert d in Descendants(p, t);
    assert d != t && {d} - {t} == {d};
    var m' := UpdateFor(p, cached, {t}, t, map[]);
    assert m' == map[d := Corrected(p, cached, map[], d, t)];
    hide UpdateFor;
    assert Elements([t]) == {t} && [t][..|[t]| - 1] == [];
    assert UpdateAll(p, cached, {t}, [], map[]) == map[];
    assert UpdateAll(p, cached, {t}, [t], map[]) == m';
    assert Walked(p, cached, {t}, [t], {t}, map[], m');
  }

  lemma DecidesTakes(env: Env, s: Round, t: TxId, s': Round)
    requires t in env.pool.anc && Considers(env, s, t, false) && Takes(env, s, t, false, s')
    requires TestPackage(env.maxWeight, s.c, Seen(env, s, t, false).size, Seen(env, s, t, false).sigops)
    requires forall a :: a in Left(env.pool, s.inBlock, t) && a in env.pool.txs ==> Allowed(env.pool.txs[a])
    ensures Step(env, s, s')
  {
    hide Considers, Takes, Seen;
    assert Decides(env, s, t, false, s');
  }

  lemma TrioFacts()
    ensures TRIO.anc[0] == TRIO.anc[1] == {} && Descendants(TRIO, 0) == Descendants(TRIO, 1) == {2}
    ensures Allowed(TRIO.txs[0]) && Allowed(TRIO.txs[1]) && Allowed(TRIO.txs[2])
    ensures Corrected(TRIO, TRIO_CACHED, map[], 2, 0) == Entry(201, 1000, 0)
    ensures Corrected(TRIO, TRIO_CACHED, map[], 2, 1) == Entry(200, 2000, 0)
    ensures WithTx(TRIO, START.c, 0) == S1.c && WithTx(TRIO, S3.c, 1) == S4.c
  {
  }

  lemma TrioConsiders()
    ensures Considers(TRIO_ENV, START, 0, false) && Considers(TRIO_ENV, S3, 1, false)
  {
  }

  lemma TrioFirst()
    ensures Step(TRIO_ENV, START, S1)
  {
    hide Takes, Step, Considers, Corrected, PoolOk, Descendants, Allowed, WithTx;
    TrioPool();
    TrioFacts();
    TrioConsiders();
    TakesOne(TRIO_ENV, START, 0, 2, S1);
    DecidesTakes(TRIO_ENV, START, 0, S1);
  }

  lemma TrioMisses()
    ensures Step(TRIO_ENV, S1, S2) && Step(TRIO_ENV, S2, S3)
  {
    assert Skipping(TRIO_ENV, S1, S2);
    assert IsBest(S2.m, 2) && S2.m - {2} == map[] && S2.failed + {2} == {2};
    assert Considers(TRIO_ENV, S2, 2, true);
    assert Decides(TRIO_ENV, S2, 2, true, S3);
  }

  lemma TrioSecond()
    ensures Step(TRIO_ENV, S3, S4)
  {
    hide Takes, Step, Considers, Corrected, PoolOk, Descendants, Allowed, WithTx;
    TrioPool();
    TrioFacts();
    TrioConsiders();
    assert S3.vtx + [1] == [0, 1] && S3.inBlock + {1} == {0, 1};
    TakesOne(TRIO_ENV, S3, 1, 2, S4);
    DecidesTakes(TRIO_ENV, S3, 1, S4);
  }

  lemma TrioEnds()
    ensures Step(TRIO_ENV, S4, S5)
  {
    assert IsBest(S4.m, 2) && S4.m - {2} == map[] && S4.failed + {2} == {2};
    assert Considers(TRIO_ENV, S4, 2, true);
    assert Decides(TRIO_ENV, S4, 2, true, S5);
  }

  /**
   * The child does not fit with one parent in the block.  When the other goes in, its entry is made anew
   * from the cached totals, which still count both parents; so it fails again, although it would fit.
   */
  lemma FittingIsLeftOut()
    ensures EnvOk(TRIO_ENV) && Reachable(TRIO_ENV, S5) && Done(TRIO_ENV, S5)
    ensures var left := Left(TRIO, S5.inBlock, 2);
      && 2 !in S5.inBlock && (forall a :: a in left ==> a in TRIO.txs && Allowed(TRIO.txs[a]))
      && TestPackage(TRIO_ENV.maxWeight, S5.c, Total(SizeOf(TRIO), left), Total(SigOpsOf(TRIO), left))
  {
    TrioOk();
    TrioFirst();
    TrioMisses();
    TrioSecond();
    TrioEnds();
    hide Step, Reachable, EnvOk, Total;
    StartReachable(TRIO_ENV);
    StepReachable(TRIO_ENV, START, S1);
    StepReachable(TRIO_ENV, S1, S2);
    StepReachable(TRIO_ENV, S2, S3);
    StepReachable(TRIO_ENV, S3, S4);
    StepReachable(TRIO_ENV, S4, S5);
    assert Left(TRIO, S5.inBlock, 2) == {2};
    TotalOne(SizeOf(TRIO), 2);
    TotalOne(SigOpsOf(TRIO), 2);
  }
}
