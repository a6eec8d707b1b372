/** The block assembler: greedy selection of packages and of identity claims (src/miner.cpp). */
module MinerLoop {
  import opened SetTotals
  import opened Miner
  import opened MinerRuns

  /** A prefix of a list without repetitions, one element longer. */
  lemma PrefixElements(s: seq<TxId>, i: nat)
    requires i < |s| && forall a, b :: 0 <= a < b < |s| ==> s[a] != s[b]
    ensures Elements(s[..i + 1]) == Elements(s[..i]) + {s[i]} && s[i] !in Elements(s[..i])
    ensures |Elements(s[..i + 1])| == |Elements(s[..i])| + 1
  {
    assert s[..i + 1] == s[..i] + [s[i]];
  }

  lemma MinCountExists(p: Pool, s: set<TxId>)
    requires s != {} && s <= p.anc.Keys
    ensures exists x :: IsMinCount(p, s, x)
  {
    var y :| y in s;
    if s == {y} {
      assert IsMinCount(p, s, y);
    } else {
      MinCountExists(p, s - {y});
      var x :| IsMinCount(p, s - {y}, x);
      var z := if Count(p, x) < Count(p, y) || (Count(p, x) == Count(p, y) && x < y) then x else y;
      forall w | w in s ensures Count(p, z) < Count(p, w) || (Count(p, z) == Count(p, w) && z <= w) {
        assert w == y || w in s - {y};
      }
      assert IsMinCount(p, s, z);
    }
  }

  /** First in a package: fewest ancestors, ties broken by hash. */
  predicate IsMinCount(p: Pool, s: set<TxId>, x: TxId)
    requires s <= p.anc.Keys
  {
    x in s && forall y :: y in s ==> Count(p, x) < Count(p, y) || (Count(p, x) == Count(p, y) && x <= y)
  }

  lemma EmptyBlock(p: Pool, w: int)
    requires PoolOk(p)
    ensures BlockOk(p, [], {}) && CountersOk(p, w, {}, Counters(RESERVED_WEIGHT, RESERVED_SIGOPS, 0, 0))
  {
  }

  class BlockAssembler {
    const pool: Pool
    const cached: map<TxId, Entry>
    const maxWeight: int
    var vtx: seq<TxId>
    var inBlock: set<TxId>
    var nBlockWeight: int
    var nBlockSigOpsCost: int
    var nFees: int
    var nBlockTx: int

    constructor (p: Pool, c: map<TxId, Entry>, w: int)
      requires PoolOk(p) && CachedOk(p, c)
      ensures Valid() && pool == p && cached == c && maxWeight == w && vtx == []
    {
      hide PoolOk, CachedOk, BlockOk, CountersOk;
      EmptyBlock(p, w);
      pool, cached, maxWeight := p, c, w;
      vtx, inBlock := [], {};
      nBlockWeight, nBlockSigOpsCost, nFees, nBlockTx := RESERVED_WEIGHT, RESERVED_SIGOPS, 0, 0;
    }

    function State(): Counters
      reads this
    {
      Counters(nBlockWeight, nBlockSigOpsCost, nFees, nBlockTx)
    }

    /** The block is in dependency order, its counters are exact and within the limits. */
    ghost predicate Valid()
      reads this
    {
      && PoolOk(pool) && CachedOk(pool, cached) && BlockOk(pool, vtx, inBlock)
      && CountersOk(pool, maxWeight, inBlock, State())
    }

    method AddToBlock(t: TxId)
      requires t in pool.txs
      modifies this
      ensures vtx == old(vtx) + [t] && inBlock == old(inBlock) + {t}
      ensures State() == WithTx(pool, old(State()), t)
    {
      vtx := vtx + [t];
      nBlockWeight := nBlockWeight + pool.txs[t].weight;
      nBlockTx := nBlockTx + 1;
      nBlockSigOpsCost := nBlockSigOpsCost + pool.txs[t].sigops;
      nFees := nFees + pool.txs[t].fee;
      inBlock := inBlock + {t};
    }

    /** Removes from a set what is already in the block. */
    method OnlyUnconfirmed(testSet: set<TxId>) returns (r: set<TxId>)
      ensures r == testSet - inBlock
    {
      r := testSet;
      var todo := testSet;
      while todo != {}
        invariant forall x :: x in r <==> x in testSet && (x in todo || x !in inBlock)
        decreases |todo|
      {
        var t :| t in todo;
        if t in inBlock {
          r := r - {t};
        }
        todo := todo - {t};
      }
    }

    method SortForBlock(package: set<TxId>) returns (sorted: seq<TxId>)
      requires package <= pool.anc.Keys
      ensures SortedPackage(pool, package, sorted)
    {
      sorted := [];
      var todo := package;
      while todo != {}
        invariant todo <= package && forall x :: x in sorted <==> x in package && x !in todo
        invariant forall i, j :: 0 <= i < j < |sorted| ==> sorted[i] != sorted[j]
        invariant forall i, j :: 0 <= i < j < |sorted| ==> CountLe(pool, sorted[i], sorted[j])
        invariant forall i, y :: 0 <= i < |sorted| && y in todo ==> CountLe(pool, sorted[i], y)
        decreases |todo|
      {
        MinCountExists(pool, todo);
        var x :| IsMinCount(pool, todo, x);
        assert x !in sorted;
        sorted := sorted + [x];
        todo := todo - {x};
      }
    }

    /** Corrects the entries of the descendants of one transaction now in the block. */
    method UpdateDescendants(it: TxId, added: set<TxId>, m: map<TxId, Entry>) returns (m': map<TxId, Entry>)
      requires pool.anc.Keys == pool.txs.Keys == cached.Keys && it in pool.txs
      ensures UpdatedFor(pool, cached, added, it, m, m')
    {
      hide Corrected;
      m' := m;
      var descendants := Descendants(pool, it) - added;
      var todo := descendants;
      while todo != {}
        invariant todo <= descendants
        invariant forall t :: t in m' <==> t in m || t in descendants - todo
        invariant forall t :: t in m' ==> m'[t] == if t in descendants - todo then Corrected(pool, cached, m, t, it) else m[t]
        decreases |todo|
      {
        var d :| d in todo;
        CorrectedSame(pool, cached, m, m', d, it);
        m' := m'[d := Corrected(pool, cached, m', d, it)];
        todo := todo - {d};
      }
    }

    method UpdatePackagesForAdded(added: set<TxId>, m: map<TxId, Entry>, ghost base: set<TxId>, ghost failed: set<TxId>)
      returns (m': map<TxId, Entry>)
      requires PoolOk(pool) && CachedOk(pool, cached) && added <= pool.txs.Keys && added !! base && m.Keys !! added
      requires forall t :: t in base && t in pool.anc ==> pool.anc[t] !! added
      requires ModOk(pool, base, m) && AllExact(pool, base, added, failed, m)
      ensures ModOk(pool, base + added, m') && AllExact(pool, base + added, {}, failed, m')
      ensures Reached(pool, added, m, m') && Updated(pool, cached, added, m, m')
    {
      hide PoolOk, CachedOk, ModOk, AllExact, UpdatedFor, Between, Reached, ReachedSoFar, Walked;
      NothingReached(pool, added, m);
      assert Between(base, added, added, base) by { AllLeft(base, added); }
      assert pool.anc.Keys == pool.txs.Keys == cached.Keys by { Keys(pool, cached); }
      m' := m;
      var todo := added;
      ghost var now, walk: seq<TxId> := base, [];
      NotWalked(pool, cached, added, m);
      assert added - todo == {};
      while todo != {}
        invariant Walked(pool, cached, added, walk, added - todo, m, m')
        invariant todo <= added && Between(base, added, todo, now) && m'.Keys !! added
        invariant ModOk(pool, now, m') && AllExact(pool, now, added, failed, m')
        invariant ReachedSoFar(pool, added, todo, m, m')
        decreases |todo|
      {
        var it :| it in todo;
        var next := UpdateDescendants(it, added, m');
        ReachedOne(pool, cached, added, todo, it, m, m', next);
        NotBelow(pool, base, added, now, it, todo);
        UpdateKeeps(pool, cached, now, added, failed, it, m', next);
        WalkedOne(pool, cached, added, walk, added - todo, m, m', it, next);
        assert added - (todo - {it}) == added - todo + {it};
        walk := walk + [it];
        m' := next;
        OneMore(base, added, todo, now, it);
        todo := todo - {it};
        now := now + {it};
      }
      assert now == base + added by { NoneLeft(base, added, now); }
      ExactAll(pool, now, added, failed, m');
      AllReached(pool, added, m, m');
      assert added - todo == added;
    }

    /** Moves the sorted package into the block and out of the corrected entries. */
    method AddSorted(sorted: seq<TxId>, m: map<TxId, Entry>) returns (m': map<TxId, Entry>)
      requires Elements(sorted) <= pool.txs.Keys && forall i, j :: 0 <= i < j < |sorted| ==> sorted[i] != sorted[j]
      modifies this
      ensures vtx == old(vtx) + sorted && inBlock == old(inBlock) + Elements(sorted)
      ensures m' == m - Elements(sorted)
      ensures Grown(pool, old(State()), Elements(sorted), State())
    {
      hide Total, WithTx, Grown, Elements, Moved;
      m' := m;
      var i := 0;
      ghost var done: set<TxId>, start := {}, inBlock;
      NothingGrown(pool, State());
      NothingMoved(m, inBlock);
      while i < |sorted|
        invariant 0 <= i <= |sorted| && done == Elements(sorted[..i])
        invariant vtx == old(vtx) + sorted[..i]
        invariant Moved(start, m, done, inBlock, m')
        invariant Grown(pool, old(State()), done, State())
      {
        PrefixElements(sorted, i);
        InPool(pool, sorted, i);
        GrownOne(pool, old(State()), done, State(), sorted[i], WithTx(pool, State(), sorted[i]));
        MovedOne(start, m, done, inBlock, m', sorted[i]);
        AddToBlock(sorted[i]);
        m' := m' - {sorted[i]};
        done := done + {sorted[i]};
        i := i + 1;
      }
      assert sorted[..|sorted|] == sorted;
      AllMoved(start, m, done, inBlock, m');
    }

    /** Adds what is left of the package of `t`, whose totals `e` passed the test. */
    method AddPackage(t: TxId, package: set<TxId>, ghost e: Entry, m: map<TxId, Entry>, ghost failed: set<TxId>)
      returns (m': map<TxId, Entry>)
      requires Valid() && t in pool.txs && t !in inBlock && EntryOk(pool, inBlock, t, e) && package == Left(pool, inBlock, t)
      requires TestPackage(maxWeight, State(), e.size, e.sigops)
      requires ModOk(pool, inBlock, m) && AllExact(pool, inBlock, {}, failed, m)
      modifies this
      ensures Valid() && ModOk(pool, inBlock, m') && AllExact(pool, inBlock, {}, failed, m')
      ensures inBlock == old(inBlock) + package && Grown(pool, old(State()), package, State())
      ensures exists sorted :: SortedPackage(pool, package, sorted) && vtx == old(vtx) + sorted
      ensures Reached(pool, package, m - package, m') && Updated(pool, cached, package, m - package, m')
    {
      hide Updated, Grown, Total, WeightOf, SigOpsOf, FeeOf, EntryOk, TestPackage, AllExact, ModOk, CachedOk, PoolOk, BlockOk, SortedPackage, Reached;
      ghost var base, was := inBlock, State();
      Keys(pool, cached);
      PackageInPool(pool, base, t, package);
      var sorted := SortForBlock(package);
      Sorted(pool, package, sorted);
      TestedFits(pool, maxWeight, State(), base, t, e);
      PackageFits(pool, vtx, base, t, sorted);
      PackageClosed(pool, vtx, base, package);
      var rest := AddSorted(sorted, m);
      FitsGrown(pool, maxWeight, was, package, State());
      CountersGrow(pool, maxWeight, base, was, package, State());
      Trimmed(pool, base, failed, package, m, rest);
      m' := UpdatePackagesForAdded(package, rest, base, failed);
    }

    /** No transaction of the package lacks its proof, is not final or has a premature witness. */
    method PackageAllowed(package: set<TxId>) returns (blocked: bool, fits: bool)
      requires package <= pool.txs.Keys
      ensures blocked <==> exists a :: a in package && pool.txs[a].blocked
      ensures fits <==> forall a :: a in package ==> pool.txs[a].final && pool.txs[a].witnessOk
      ensures !blocked && fits <==> forall a :: a in package ==> Allowed(pool.txs[a])
    {
      blocked, fits := false, true;
      var todo := package;
      while todo != {}
        invariant todo <= package
        invariant blocked <==> exists a :: a in package - todo && pool.txs[a].blocked
        invariant fits <==> forall a :: a in package - todo ==> pool.txs[a].final && pool.txs[a].witnessOk
        decreases |todo|
      {
        var a :| a in todo;
        assert package - (todo - {a}) == package - todo + {a};
        blocked := blocked || pool.txs[a].blocked;
        fits := fits && pool.txs[a].final && pool.txs[a].witnessOk;
        todo := todo - {a};
      }
      assert package - todo == package;
    }

    /** The entry with the best score. */
    method FindBest(m: map<TxId, Entry>) returns (b: TxId)
      requires m != map[] && forall x :: x in m ==> m[x].size > 0
      ensures IsBest(m, b)
    {
      hide Above;
      var todo := m.Keys;
      b :| b in todo;
      NotItself(m[b], b);
      todo := todo - {b};
      while todo != {}
        invariant todo <= m.Keys && b in m && forall x :: x in m && x !in todo ==> !Above(m[x], x, m[b], b)
        decreases |todo|
      {
        var x :| x in todo;
        if Above(m[x], x, m[b], b) {
          forall y | y in m && y !in todo ensures !Above(m[y], y, m[x], x) {
            AboveTrans(m[y], y, m[b], b, m[x], x);
          }
          b := x;
          NotItself(m[b], b);
        }
        todo := todo - {x};
      }
    }

    /**
     * Considers packages until none is left, the fee rate drops below the minimum or too many fail in
     * an almost full block.  `order` is the pool by score, `rate` the least fee rate.  When it runs to the
     * end, everything left out is hopeless; when it stops for a low fee, everything left out is hopeless
     * or has, by its corrected totals, a fee rate below the least one.
     */
    method AddPackageTxs(order: seq<TxId>, rate: nat) returns (stop: Stop)
      requires Valid() && vtx == [] && inBlock == {} && Elements(order) == pool.txs.Keys && ByScore(cached, order)
      modifies this
      ensures Valid() && CleanBlock(pool, inBlock)
      ensures Ends(Env(pool, cached, maxWeight, order, rate), vtx, inBlock, State(), stop)
      ensures stop == Finished ==> AllHopeless(pool, maxWeight, inBlock, State())
      ensures stop == FeeTooLow ==> HopelessOrLow(pool, maxWeight, inBlock, State(), rate)
      ensures stop == GaveUp ==> nBlockWeight > maxWeight - 4000
      ensures AllPaid(pool, maxWeight, rate, inBlock)
    {
      hide PoolOk, CachedOk, ModOk, AllExact, EntryOk, EntryExact, TestPackage, BlockOk, CountersOk, Accounted, Hopeless, Reached,
           CleanBlock, Allowed, Reachable, Considers, Decides, Chooses, Updated, Grown, ByScore, EnvOk, IsBest, Above, Elements, GetFee,
           HopelessOrLow, AllHopeless, SortedPackage, AllPaid, MeetsRate, LowChoice, Left, Ends, Seen;
      ghost var env := Env(pool, cached, maxWeight, order, rate);
      EnvIs(env);
      NoneIn(pool);
      var m: map<TxId, Entry>, failedTx: set<TxId> := map[], {};
      Initially(pool);
      m := UpdatePackagesForAdded(inBlock, m, {}, failedTx);
      NoneReached(pool, m);
      assert {} + inBlock == inBlock;
      var mi, nConsecutiveFailed := 0, 0;
      AllToCome(pool, maxWeight, inBlock, State(), m, order);
      StartReachable(env);
      EmptyCounters(pool, maxWeight, inBlock, State());
      NonePaid(pool, maxWeight, rate);
      while mi < |order| || m != map[]
        invariant 0 <= mi <= |order| && nConsecutiveFailed >= 0 && Valid() && CleanBlock(pool, inBlock)
        invariant ModOk(pool, inBlock, m) && AllExact(pool, inBlock, {}, failedTx, m)
        invariant Accounted(pool, maxWeight, inBlock, State(), failedTx, m, Elements(order[mi..]))
        invariant Reachable(env, Round(mi, m, failedTx, nConsecutiveFailed, vtx, inBlock, State()))
        invariant AllPaid(pool, maxWeight, rate, inBlock)
        decreases pool.txs.Keys - inBlock, |order| - mi, m.Keys
      {
        ghost var s := Round(mi, m, failedTx, nConsecutiveFailed, vtx, inBlock, State());
        Keys(pool, cached);
        if mi < |order| {
          RestAfter(order, mi);
          InPool(pool, order, mi);
          if order[mi] in m || order[mi] in inBlock || order[mi] in failedTx {
            AccountedSkips(pool, maxWeight, inBlock, State(), failedTx, m, Elements(order[mi..]), order[mi], Elements(order[mi + 1..]));
            SkipReachable(env, s);
            mi := mi + 1;
            continue;
          }
        }
        var iter, usingModified := Choose(order, mi, m, env, s);
        if !usingModified {
          mi := mi + 1;
        }
        var e := if usingModified then m[iter] else cached[iter];
        Considered(pool, cached, inBlock, failedTx, m, iter, usingModified);
        assert iter !in inBlock;
        FeeMeets(pool, inBlock, iter, e, rate);
        if e.fees < GetFee(rate, e.size) {
          LowFee(env, s, iter, usingModified, e);
          EndsHere(env, s, FeeTooLow);
          return FeeTooLow;
        }
        IsConsidered(env, s, iter, usingModified);
        if !TestPackage(maxWeight, State(), e.size, e.sigops) {
          MissKeeps(env, s, iter, usingModified, e);
          if usingModified {
            Dropped(pool, inBlock, failedTx, m, iter);
            m, failedTx := m - {iter}, failedTx + {iter};
          } else {
            WithoutNone(m, iter);
          }
          nConsecutiveFailed := nConsecutiveFailed + 1;
          if nConsecutiveFailed > MAX_CONSECUTIVE_FAILURES && nBlockWeight > maxWeight - 4000 {
            EndsHere(env, Round(mi, m, failedTx, nConsecutiveFailed, vtx, inBlock, State()), GaveUp);
            return GaveUp;
          }
          continue;
        }
        var ancestors := OnlyUnconfirmed(pool.anc[iter]);
        var package := ancestors + {iter};
        LeftIs(pool, inBlock, iter, package);
        PackageInPool(pool, inBlock, iter, package);
        var proofBlocked, fits := PackageAllowed(package);
        if proofBlocked || !fits {
          RefusalKeeps(env, s, iter, usingModified, package, proofBlocked);
          if usingModified || proofBlocked {
            Dropped(pool, inBlock, failedTx, m, iter);
          }
          if usingModified {
            m := m - {iter};
          } else {
            WithoutNone(m, iter);
          }
          if usingModified || proofBlocked {
            failedTx := failedTx + {iter};
          }
          continue;
        }
        nConsecutiveFailed := 0;
        CleanMore(pool, inBlock, package);
        PackagePaid(env, s, iter, e);
        m := AddPackage(iter, package, e, m, failedTx);
        TakenKeeps(env, s, iter, usingModified, package, Round(mi, m, failedTx, 0, vtx, inBlock, State()));
      }
      AllAccounted(pool, maxWeight, inBlock, State(), failedTx, order[mi..]);
      EndsHere(env, Round(mi, m, failedTx, nConsecutiveFailed, vtx, inBlock, State()), Finished);
      return Finished;
    }

    /** The next transaction in order, or the best corrected entry where that is above it. */
    method Choose(order: seq<TxId>, mi: nat, m: map<TxId, Entry>, ghost env: Env, ghost s: Round) returns (iter: TxId, usingModified: bool)
      requires PoolOk(pool) && CachedOk(pool, cached) && ModOk(pool, s.inBlock, m) && s.mi == mi && s.m == m
      requires env.order == order && env.cached == cached && mi <= |order| && (mi < |order| || m != map[])
      requires mi < |order| ==> order[mi] in cached && !Skips(s, order[mi])
      ensures Chooses(env, s, iter, usingModified)
      ensures if usingModified then iter in m else mi < |order| && iter == order[mi]
    {
      hide PoolOk, CachedOk, ModOk, Above;
      PositiveEntries(pool, s.inBlock, m);
      usingModified := mi == |order|;
      if mi < |order| {
        iter := order[mi];
        if m != map[] {
          var b := FindBest(m);
          if Above(m[b], b, cached[iter], iter) {
            iter, usingModified := b, true;
          }
        }
      } else {
        iter := FindBest(m);
      }
    }

    /** The block without its order: exact counters within the limits. */
    ghost predicate Counted()
      reads this
    {
      && PoolOk(pool) && CountersOk(pool, maxWeight, inBlock, State())
      && Elements(vtx) == inBlock <= pool.txs.Keys && |vtx| == |inBlock|
    }

    method TryClaim(t: TxId)
      requires Counted() && t in pool.txs
      modifies this
      ensures Counted()
      ensures if TakesClaim(pool, maxWeight, old(vtx), old(State()), t)
              then vtx == old(vtx) + [t] && State() == WithTx(pool, old(State()), t)
              else vtx == old(vtx) && State() == old(State())
    {
      hide PoolOk, CountersOk, TestPackage, Elements, WithTx;
      var tx := pool.txs[t];
      InElements(vtx, t);
      if t in inBlock || !tx.claim || tx.blocked || !TestPackage(maxWeight, State(), tx.size, tx.sigops) || !tx.final {
        return;
      }
      ClaimFits(pool, maxWeight, inBlock, State(), t, WithTx(pool, State(), t));
      Appended(vtx, t);
      AddToBlock(t);
    }

    /** Adds identity claims the selection by fee rate passed over; ancestors are not looked at. */
    method AddZeroFeeIdentityClaims(order: seq<TxId>)
      requires Valid() && Elements(order) == pool.txs.Keys
      modifies this
      ensures Counted() && (vtx, State()) == Claims(pool, maxWeight, old(vtx), old(State()), order)
    {
      hide PoolOk, CachedOk, CountersOk, TakesClaim, WithTx, Elements, Claims, BlockOk;
      BlockSize(pool, vtx, inBlock);
      var i := 0;
      assert order[0..] == order;
      while i < |order|
        invariant 0 <= i <= |order| && Counted()
        invariant Claims(pool, maxWeight, vtx, State(), order[i..]) == Claims(pool, maxWeight, old(vtx), old(State()), order)
      {
        ClaimsStep(pool, maxWeight, vtx, State(), order, i);
        InPool(pool, order, i);
        TryClaim(order[i]);
        i := i + 1;
      }
      ClaimsStep(pool, maxWeight, vtx, State(), order, i);
    }
  }

  lemma ClaimsStep(p: Pool, maxWeight: int, vtx: seq<TxId>, c: Counters, order: seq<TxId>, i: nat)
    requires i <= |order|
    ensures Claims(p, maxWeight, vtx, c, order[i..]) ==
      if i == |order| then (vtx, c)
      else if TakesClaim(p, maxWeight, vtx, c, order[i])
      then Claims(p, maxWeight, vtx + [order[i]], WithTx(p, c, order[i]), order[i + 1..])
      else Claims(p, maxWeight, vtx, c, order[i + 1..])
  {
    if i < |order| {
      assert order[i..][0] == order[i] && order[i..][1..] == order[i + 1..];
    }
  }

  lemma InElements(vtx: seq<TxId>, t: TxId)
    ensures t in vtx <==> t in Elements(vtx)
  {
  }

  /** Why the selection ended. */
  datatype Stop = Finished | FeeTooLow | GaveUp

  /**
   * The block is that of a run of rounds, and the selection ended for its reason: nothing is left to look at, the
   * entry chosen next does not pay enough, or too many packages in a row missed a limit.
   */
  ghost predicate Ends(env: Env, vtx: seq<TxId>, inBlock: set<TxId>, c: Counters, stop: Stop) {
    exists s :: Reachable(env, s) && s.vtx == vtx && s.inBlock == inBlock && s.c == c && EndsFor(env, s, stop)
  }

  ghost predicate EndsFor(env: Env, s: Round, stop: Stop) {
    match stop
    case Finished => Done(env, s)
    case FeeTooLow => LowChoice(env, s)
    case GaveUp => s.misses > MAX_CONSECUTIVE_FAILURES
  }

  /** The entry chosen next does not meet the rate. */
  ghost predicate LowChoice(env: Env, s: Round) {
    exists t, modified :: Chooses(env, s, t, modified) && !MeetsRate(env.rate, Seen(env, s, t, modified))
  }

  /** The selection never stops at an entry that is at the rate and pays at least one unit. */
  lemma AtRateGoesOn(env: Env, s: Round, t: TxId, modified: bool)
    requires Chooses(env, s, t, modified) && LowChoice(env, s)
    ensures var e := Seen(env, s, t, modified); e.fees < 1 || 1000 * e.fees < env.rate * e.size
  {
    hide Chooses, Seen;
    var u, other :| Chooses(env, s, u, other) && !MeetsRate(env.rate, Seen(env, s, u, other));
    ChoiceIsUnique(env, s, t, modified, u, other);
    var e := Seen(env, s, t, modified);
    if e.fees >= 1 && !BelowRate(env.rate, e) {
      AtRateMeets(env.rate, e);
    }
  }

  lemma FeeMeets(p: Pool, inBlock: set<TxId>, t: TxId, e: Entry, rate: nat)
    requires PoolOk(p) && t in p.txs && t in p.anc && t !in inBlock && EntryOk(p, inBlock, t, e)
    ensures e.fees >= GetFee(rate, e.size) <==> MeetsRate(rate, e)
  {
    hide MeetsRate, GetFee;
    PositiveLeft(p, inBlock, t);
    GetFeeIff(rate, e);
  }

  lemma PackagePaid(env: Env, s: Round, t: TxId, e: Entry)
    requires t in env.pool.anc && t in env.pool.txs && t !in s.inBlock && CountersOk(env.pool, env.maxWeight, s.inBlock, s.c)
    requires TestPackage(env.maxWeight, s.c, e.size, e.sigops) && EntryOk(env.pool, s.inBlock, t, e) && MeetsRate(env.rate, e)
    requires (t !in s.failed ==> EntryExact(env.pool, s.inBlock, t, e)) && s.mi <= |env.order|
    requires Accounted(env.pool, env.maxWeight, s.inBlock, s.c, s.failed, s.m, Elements(env.order[s.mi..]))
    requires forall a :: a in Left(env.pool, s.inBlock, t) ==> a in env.pool.txs && Allowed(env.pool.txs[a])
    requires AllPaid(env.pool, env.maxWeight, env.rate, s.inBlock)
    ensures AllPaid(env.pool, env.maxWeight, env.rate, s.inBlock + Left(env.pool, s.inBlock, t))
  {
    var k := Pick(t, e, s.inBlock, s.c);
    assert PickOk(env.pool, env.maxWeight, env.rate, k) by {
      hide Hopeless, EntryExact, EntryOk, CountersOk, Left, Elements, TestPackage, Allowed, AllPaid;
    }
    hide PickOk, AllPaid, Left;
    OneMorePaid(env.pool, env.maxWeight, env.rate, k);
  }

  ghost predicate AllHopeless(p: Pool, maxWeight: int, inBlock: set<TxId>, c: Counters) {
    forall t :: t in p.txs && t !in inBlock ==> t in p.anc && Hopeless(p, maxWeight, inBlock, c, t)
  }

  /** What is outside is hopeless, or what is left of its package pays below the rate by its corrected totals. */
  ghost predicate HopelessOrLow(p: Pool, maxWeight: int, inBlock: set<TxId>, c: Counters, rate: nat) {
    forall t :: t in p.txs && t !in inBlock ==>
      t in p.anc && (Hopeless(p, maxWeight, inBlock, c, t) || exists e :: EntryExact(p, inBlock, t, e) && BelowRate(rate, e))
  }

  lemma NotItself(e: Entry, x: TxId)
    ensures !Above(e, x, e, x)
  {
  }

  lemma PositiveEntries(p: Pool, inBlock: set<TxId>, m: map<TxId, Entry>)
    requires PoolOk(p) && ModOk(p, inBlock, m)
    ensures forall x :: x in m ==> m[x].size > 0
  {
    forall x | x in m ensures m[x].size > 0 {
      PositiveLeft(p, inBlock, x);
    }
  }

  lemma PositiveLeft(p: Pool, inBlock: set<TxId>, t: TxId)
    requires PoolOk(p) && t in p.txs && t !in inBlock
    ensures Total(SizeOf(p), Left(p, inBlock, t)) > 0
  {
    var left := Left(p, inBlock, t);
    TotalRemove(SizeOf(p), left, t);
    TotalNat(SizeOf(p), left - {t});
  }

  lemma PositiveCached(p: Pool, cached: map<TxId, Entry>)
    requires PoolOk(p) && CachedOk(p, cached)
    ensures forall x :: x in cached ==> cached[x].size > 0
  {
    forall x | x in cached ensures cached[x].size > 0 {
      PositiveLeft(p, {}, x);
      assert Left(p, {}, x) == p.anc[x] + {x};
    }
  }

  lemma EnvIs(env: Env)
    requires PoolOk(env.pool) && CachedOk(env.pool, env.cached)
    requires Elements(env.order) == env.pool.txs.Keys && ByScore(env.cached, env.order)
    ensures EnvOk(env)
  {
  }

  lemma NoneIn(p: Pool)
    ensures CleanBlock(p, {})
  {
  }

  lemma NoneReached(p: Pool, m: map<TxId, Entry>)
    requires Reached(p, {}, map[], m)
    ensures m == map[]
  {
  }

  lemma EmptyCounters(p: Pool, maxWeight: int, inBlock: set<TxId>, c: Counters)
    requires CountersOk(p, maxWeight, inBlock, c) && inBlock == {}
    ensures c == EMPTY_BLOCK
  {
  }

  lemma AllToCome(p: Pool, maxWeight: int, inBlock: set<TxId>, c: Counters, m: map<TxId, Entry>, order: seq<TxId>)
    requires Elements(order) == p.txs.Keys
    ensures Accounted(p, maxWeight, inBlock, c, {}, m, Elements(order[0..]))
  {
    hide Hopeless;
    assert order[0..] == order;
  }

  lemma RestAfter(order: seq<TxId>, mi: nat)
    requires mi < |order|
    ensures Elements(order[mi..]) - {order[mi]} <= Elements(order[mi + 1..]) && order[mi] in Elements(order[mi..])
  {
    assert order[mi..] == [order[mi]] + order[mi + 1..];
  }

  lemma RestWithout(order: seq<TxId>, mi: nat, next: nat, t: TxId, modified: bool)
    requires mi <= next <= |order| && if modified then next == mi else next == mi + 1 && t == order[mi]
    ensures Elements(order[mi..]) - {t} <= Elements(order[next..])
  {
    if !modified {
      RestAfter(order, mi);
    }
  }

  lemma FitsGrown(p: Pool, maxWeight: int, c: Counters, package: set<TxId>, c': Counters)
    requires Grown(p, c, package, c') && c.weight + Total(WeightOf(p), package) < maxWeight
    requires c.sigops + Total(SigOpsOf(p), package) < MAX_BLOCK_SIGOPS_COST
    ensures c'.weight < maxWeight && c'.sigops < MAX_BLOCK_SIGOPS_COST
  {
  }

  lemma IsConsidered(env: Env, s: Round, t: TxId, modified: bool)
    requires Chooses(env, s, t, modified) && t in env.pool.anc && t in env.pool.txs && t in env.cached && (modified ==> t in s.m)
    requires MeetsRate(env.rate, if modified then s.m[t] else env.cached[t])
    ensures Considers(env, s, t, modified) && Seen(env, s, t, modified) == if modified then s.m[t] else env.cached[t]
  {
    hide Chooses, MeetsRate;
  }

  /** A package that misses a limit is hopeless: by its exact totals, or because it failed before. */
  lemma MissHopeless(p: Pool, maxWeight: int, inBlock: set<TxId>, c: Counters, failed: set<TxId>, m: map<TxId, Entry>,
                     rest: set<TxId>, t: TxId, e: Entry)
    requires PoolOk(p) && t in p.txs && t in p.anc && t !in inBlock && (t !in failed ==> EntryExact(p, inBlock, t, e))
    requires Accounted(p, maxWeight, inBlock, c, failed, m, rest) && !TestPackage(maxWeight, c, e.size, e.sigops)
    ensures Hopeless(p, maxWeight, inBlock, c, t)
  {
    hide Hopeless, EntryExact, TestPackage, PoolOk;
    if t !in failed {
      MissIsHopeless(p, maxWeight, inBlock, c, t, e);
    }
  }

  lemma MissKeeps(env: Env, s: Round, t: TxId, modified: bool, e: Entry)
    requires PoolOk(env.pool) && t in env.pool.txs && t in env.pool.anc && t !in s.inBlock
    requires (t !in s.failed ==> EntryExact(env.pool, s.inBlock, t, e)) && s.mi <= |env.order|
    requires Accounted(env.pool, env.maxWeight, s.inBlock, s.c, s.failed, s.m, Elements(env.order[s.mi..]))
    requires Reachable(env, s) && Considers(env, s, t, modified) && e == Seen(env, s, t, modified)
    requires !TestPackage(env.maxWeight, s.c, e.size, e.sigops) && (!modified ==> s.mi < |env.order| && t == env.order[s.mi])
    ensures var s' := LeavesOut(s, t, modified, modified, s.misses + 1);
      && s'.mi <= |env.order| && Reachable(env, s')
      && Accounted(env.pool, env.maxWeight, s.inBlock, s.c, s'.failed, s'.m, Elements(env.order[s'.mi..]))
  {
    hide PoolOk, EntryExact, Accounted, Hopeless, Reachable, Considers, Seen, TestPackage, Elements;
    var next := Next(s, modified);
    MissHopeless(env.pool, env.maxWeight, s.inBlock, s.c, s.failed, s.m, Elements(env.order[s.mi..]), t, e);
    RestWithout(env.order, s.mi, next, t, modified);
    AccountedRejects(env.pool, env.maxWeight, s.inBlock, s.c, s.failed, s.m, Elements(env.order[s.mi..]), t,
                     if modified then s.failed + {t} else s.failed, s.m - {t}, Elements(env.order[next..]));
    MissReachable(env, s, t, modified);
  }

  lemma RefusalKeeps(env: Env, s: Round, t: TxId, modified: bool, package: set<TxId>, proofBlocked: bool)
    requires t in env.pool.anc && s.mi <= |env.order|
    requires Accounted(env.pool, env.maxWeight, s.inBlock, s.c, s.failed, s.m, Elements(env.order[s.mi..]))
    requires Reachable(env, s) && Considers(env, s, t, modified) && (!modified ==> s.mi < |env.order| && t == env.order[s.mi])
    requires TestPackage(env.maxWeight, s.c, Seen(env, s, t, modified).size, Seen(env, s, t, modified).sigops)
    requires package == Left(env.pool, s.inBlock, t) && package <= env.pool.txs.Keys
    requires proofBlocked <==> exists a :: a in package && env.pool.txs[a].blocked
    requires exists a :: a in package && !Allowed(env.pool.txs[a])
    ensures var s' := LeavesOut(s, t, modified, modified || proofBlocked, s.misses);
      && s'.mi <= |env.order| && Reachable(env, s')
      && Accounted(env.pool, env.maxWeight, s.inBlock, s.c, s'.failed, s'.m, Elements(env.order[s'.mi..]))
  {
    hide Accounted, Hopeless, Reachable, Considers, Seen, TestPackage, Elements, Left, Allowed;
    var next := Next(s, modified);
    MayNotGoIn(env.pool, env.maxWeight, s.inBlock, s.c, t, package);
    RestWithout(env.order, s.mi, next, t, modified);
    AccountedRejects(env.pool, env.maxWeight, s.inBlock, s.c, s.failed, s.m, Elements(env.order[s.mi..]), t,
                     if modified || proofBlocked then s.failed + {t} else s.failed, s.m - {t}, Elements(env.order[next..]));
    RefusedReachable(env, s, t, modified, package, proofBlocked);
  }

  lemma MayNotGoIn(p: Pool, maxWeight: int, inBlock: set<TxId>, c: Counters, t: TxId, package: set<TxId>)
    requires t in p.anc && package == Left(p, inBlock, t) && package <= p.txs.Keys
    requires exists a :: a in package && !Allowed(p.txs[a])
    ensures Hopeless(p, maxWeight, inBlock, c, t)
  {
  }

  /** Where the chosen entry misses the least fee, so does by its rate everything that is not hopeless. */
  lemma LowFee(env: Env, s: Round, t: TxId, modified: bool, e: Entry)
    requires EnvOk(env) && Chooses(env, s, t, modified) && s.mi <= |env.order| && t in env.cached && (modified ==> t in s.m)
    requires e == (if modified then s.m[t] else env.cached[t]) && !MeetsRate(env.rate, e)
    requires ModOk(env.pool, s.inBlock, s.m) && AllExact(env.pool, s.inBlock, {}, s.failed, s.m)
    requires Accounted(env.pool, env.maxWeight, s.inBlock, s.c, s.failed, s.m, Elements(env.order[s.mi..]))
    ensures HopelessOrLow(env.pool, env.maxWeight, s.inBlock, s.c, env.rate) && LowChoice(env, s)
  {
    var p := env.pool;
    LowChosen(env, s, t, modified, e);
    hide PoolOk, CachedOk, ModOk, Chooses, Hopeless, EntryExact, RateLe, MeetsRate, LowChoice, BelowRate, ByScore, AllExact, Accounted, Seen, Elements;
    Keys(p, env.cached);
    PositiveEntries(p, s.inBlock, s.m);
    PositiveCached(p, env.cached);
    ChosenIsHighest(env, s, t, modified);
    assert Seen(env, s, t, modified) == e by { SeenIs(env, s, t, modified); }
    forall x | x in p.txs && x !in s.inBlock
      ensures x in p.anc && (Hopeless(p, env.maxWeight, s.inBlock, s.c, x) || exists d :: EntryExact(p, s.inBlock, x, d) && BelowRate(env.rate, d))
    {
      if !Hopeless(p, env.maxWeight, s.inBlock, s.c, x) {
        var d := StillToCome(env, s, x);
        LowerStill(env.rate, e, d);
      }
    }
  }

  lemma LowChosen(env: Env, s: Round, t: TxId, modified: bool, e: Entry)
    requires Chooses(env, s, t, modified) && t in env.cached && (modified ==> t in s.m)
    requires e == (if modified then s.m[t] else env.cached[t]) && !MeetsRate(env.rate, e)
    ensures LowChoice(env, s)
  {
    hide Chooses, MeetsRate;
    assert !MeetsRate(env.rate, Seen(env, s, t, modified));
  }

  lemma SeenIs(env: Env, s: Round, t: TxId, modified: bool)
    requires t in env.cached && (modified ==> t in s.m)
    ensures Seen(env, s, t, modified) == if modified then s.m[t] else env.cached[t]
  {
  }

  /** What is not hopeless has an exact entry, corrected or cached, still to come. */
  lemma StillToCome(env: Env, s: Round, x: TxId) returns (d: Entry)
    requires PoolOk(env.pool) && CachedOk(env.pool, env.cached) && s.mi <= |env.order|
    requires x in env.pool.txs && x in env.pool.anc && x !in s.inBlock && AllExact(env.pool, s.inBlock, {}, s.failed, s.m)
    requires Accounted(env.pool, env.maxWeight, s.inBlock, s.c, s.failed, s.m, Elements(env.order[s.mi..]))
    requires !Hopeless(env.pool, env.maxWeight, s.inBlock, s.c, x)
    ensures EntryExact(env.pool, s.inBlock, x, d)
    ensures (x in s.m && d == s.m[x]) || (exists j :: s.mi <= j < |env.order| && env.order[j] == x && x in env.cached && d == env.cached[x])
  {
    hide PoolOk, CachedOk, Hopeless, EntryExact;
    assert ExactOk(env.pool, s.inBlock, s.failed, s.m, x);
    if x in s.m {
      d := s.m[x];
    } else {
      Keys(env.pool, env.cached);
      d := env.cached[x];
      CachedExact(env.pool, env.cached, s.inBlock, x);
      var rest := env.order[s.mi..];
      var j :| 0 <= j < |rest| && rest[j] == x;
      assert env.order[s.mi + j] == x;
    }
  }

  /** Cached totals are exact while no ancestor is in the block. */
  lemma CachedExact(p: Pool, cached: map<TxId, Entry>, inBlock: set<TxId>, t: TxId)
    requires CachedOk(p, cached) && t in p.txs && t !in inBlock && p.anc[t] !! inBlock
    ensures EntryExact(p, inBlock, t, cached[t])
  {
    hide Total;
    assert Left(p, inBlock, t) == p.anc[t] + {t} && Included(p, inBlock, t) == {};
  }

  lemma MissReachable(env: Env, s: Round, t: TxId, modified: bool)
    requires Reachable(env, s) && Considers(env, s, t, modified)
    requires !TestPackage(env.maxWeight, s.c, Seen(env, s, t, modified).size, Seen(env, s, t, modified).sigops)
    ensures Reachable(env, LeavesOut(s, t, modified, modified, s.misses + 1))
  {
    assert t in env.pool.anc;
    hide Reachable, Considers, Seen, TestPackage, LeavesOut;
    DecideReachable(env, s, t, modified, LeavesOut(s, t, modified, modified, s.misses + 1));
  }

  lemma RefusedReachable(env: Env, s: Round, t: TxId, modified: bool, package: set<TxId>, proofBlocked: bool)
    requires Reachable(env, s) && Considers(env, s, t, modified) && t in env.pool.anc
    requires TestPackage(env.maxWeight, s.c, Seen(env, s, t, modified).size, Seen(env, s, t, modified).sigops)
    requires package == Left(env.pool, s.inBlock, t) && package <= env.pool.txs.Keys
    requires proofBlocked <==> exists a :: a in package && env.pool.txs[a].blocked
    requires exists a :: a in package && !Allowed(env.pool.txs[a])
    ensures Reachable(env, LeavesOut(s, t, modified, modified || proofBlocked, s.misses))
  {
    hide Reachable, Considers, Seen, TestPackage, LeavesOut, Left, Allowed;
    DecideReachable(env, s, t, modified, LeavesOut(s, t, modified, modified || proofBlocked, s.misses));
  }

  lemma TakenReachable(env: Env, s: Round, t: TxId, modified: bool, package: set<TxId>, s': Round)
    requires Reachable(env, s) && Considers(env, s, t, modified) && t in env.pool.anc
    requires TestPackage(env.maxWeight, s.c, Seen(env, s, t, modified).size, Seen(env, s, t, modified).sigops)
    requires package == Left(env.pool, s.inBlock, t) && package <= env.pool.txs.Keys
    requires forall a :: a in package ==> Allowed(env.pool.txs[a])
    requires exists sorted :: SortedPackage(env.pool, package, sorted) && s'.vtx == s.vtx + sorted
    requires s'.inBlock == s.inBlock + package && Grown(env.pool, s.c, package, s'.c)
    requires s'.mi == Next(s, modified) && s'.failed == s.failed && s'.misses == 0
    requires Updated(env.pool, env.cached, package, s.m - package, s'.m)
    ensures Reachable(env, s')
  {
    hide Reachable, Considers, Seen, TestPackage, Left, Updated, Grown, SortedPackage;
    DecideReachable(env, s, t, modified, s');
  }

  lemma TakenKeeps(env: Env, s: Round, t: TxId, modified: bool, package: set<TxId>, s': Round)
    requires PoolOk(env.pool) && Reachable(env, s) && Considers(env, s, t, modified) && t in env.pool.anc && t !in s.inBlock
    requires s.mi <= |env.order| && (!modified ==> s.mi < |env.order| && t == env.order[s.mi])
    requires Accounted(env.pool, env.maxWeight, s.inBlock, s.c, s.failed, s.m, Elements(env.order[s.mi..]))
    requires TestPackage(env.maxWeight, s.c, Seen(env, s, t, modified).size, Seen(env, s, t, modified).sigops)
    requires package == Left(env.pool, s.inBlock, t) && package <= env.pool.txs.Keys
    requires forall a :: a in package ==> Allowed(env.pool.txs[a])
    requires exists sorted :: SortedPackage(env.pool, package, sorted) && s'.vtx == s.vtx + sorted
    requires s'.inBlock == s.inBlock + package && Grown(env.pool, s.c, package, s'.c)
    requires s'.mi == Next(s, modified) && s'.failed == s.failed && s'.misses == 0
    requires Updated(env.pool, env.cached, package, s.m - package, s'.m) && Reached(env.pool, package, s.m - package, s'.m)
    ensures s'.mi <= |env.order| && Reachable(env, s')
    ensures Accounted(env.pool, env.maxWeight, s'.inBlock, s'.c, s'.failed, s'.m, Elements(env.order[s'.mi..]))
  {
    assert t in package && package !! s.inBlock;
    hide PoolOk, Accounted, Reachable, Considers, Seen, TestPackage, Elements, Left, Allowed, SortedPackage, Grown, Updated, Reached;
    TakenReachable(env, s, t, modified, package, s');
    Pending(env.pool, package, s.m, s'.m);
    RestWithout(env.order, s.mi, s'.mi, t, modified);
    TakenAccounted(env.pool, env.maxWeight, s.inBlock, s.c, s.failed, s.m, Elements(env.order[s.mi..]), package, s'.c, s'.m, t,
                   Elements(env.order[s'.mi..]));
  }

  lemma EndsHere(env: Env, s: Round, stop: Stop)
    requires Reachable(env, s) && EndsFor(env, s, stop)
    ensures Ends(env, s.vtx, s.inBlock, s.c, stop)
  {
    hide Reachable, EndsFor;
  }

  lemma LeftIs(p: Pool, inBlock: set<TxId>, t: TxId, package: set<TxId>)
    requires t in p.anc && t !in inBlock && package == (p.anc[t] - inBlock) + {t}
    ensures package == Left(p, inBlock, t) && t in package
  {
  }

  lemma WithoutNone(m: map<TxId, Entry>, t: TxId)
    requires t !in m
    ensures m - {t} == m
  {
  }

  lemma Pending(p: Pool, package: set<TxId>, m: map<TxId, Entry>, m': map<TxId, Entry>)
    requires Reached(p, package, m - package, m')
    ensures m.Keys - package <= m'.Keys
  {
  }

  /** After a package went in, what did not is still accounted for, and its transaction need not be looked at again. */
  lemma TakenAccounted(p: Pool, maxWeight: int, inBlock: set<TxId>, c: Counters, failed: set<TxId>, m: map<TxId, Entry>,
                       rest: set<TxId>, package: set<TxId>, c': Counters, m': map<TxId, Entry>, t: TxId, rest': set<TxId>)
    requires PoolOk(p) && Accounted(p, maxWeight, inBlock, c, failed, m, rest) && package !! inBlock && package <= p.txs.Keys
    requires Grown(p, c, package, c') && (forall a :: a in package ==> Allowed(p.txs[a])) && m.Keys - package <= m'.Keys
    requires t in package && rest - {t} <= rest'
    ensures Accounted(p, maxWeight, inBlock + package, c', failed, m', rest')
  {
    hide Hopeless, PoolOk, Allowed, Total;
    AccountedGrows(p, maxWeight, inBlock, c, failed, m, rest, package, c', m');
  }

  lemma AllAccounted(p: Pool, maxWeight: int, inBlock: set<TxId>, c: Counters, failed: set<TxId>, rest: seq<TxId>)
    requires PoolOk(p) && Accounted(p, maxWeight, inBlock, c, failed, map[], Elements(rest)) && rest == []
    ensures AllHopeless(p, maxWeight, inBlock, c)
  {
    hide Hopeless;
  }

  lemma Initially(p: Pool)
    requires PoolOk(p)
    ensures ModOk(p, {}, map[]) && AllExact(p, {}, {}, {}, map[])
  {
  }

  /** The entry under consideration is of a transaction outside the block, and covers its package. */
  lemma Considered(p: Pool, cached: map<TxId, Entry>, inBlock: set<TxId>, failed: set<TxId>, m: map<TxId, Entry>, t: TxId, usingModified: bool)
    requires PoolOk(p) && CachedOk(p, cached) && ModOk(p, inBlock, m) && AllExact(p, inBlock, {}, failed, m)
    requires if usingModified then t in m else t in p.txs && t !in m && t !in inBlock && t !in failed
    ensures t in p.txs && t in p.anc && t in cached && t !in inBlock
    ensures EntryOk(p, inBlock, t, if usingModified then m[t] else cached[t])
    ensures t !in failed ==> EntryExact(p, inBlock, t, if usingModified then m[t] else cached[t])
  {
    hide Total;
    if !usingModified {
      CachedCovers(p, cached, inBlock, t);
      assert ExactOk(p, inBlock, failed, m, t);
      assert Left(p, inBlock, t) == p.anc[t] + {t} && Included(p, inBlock, t) == {};
    }
  }

  /** Dropping the entry of a transaction that failed. */
  lemma Dropped(p: Pool, inBlock: set<TxId>, failed: set<TxId>, m: map<TxId, Entry>, t: TxId)
    requires ModOk(p, inBlock, m) && AllExact(p, inBlock, {}, failed, m)
    ensures ModOk(p, inBlock, m - {t}) && AllExact(p, inBlock, {}, failed + {t}, m - {t})
  {
    hide Total, EntryOk, EntryExact;
  }

  lemma ClaimFits(p: Pool, maxWeight: int, inBlock: set<TxId>, c: Counters, t: TxId, c': Counters)
    requires PoolOk(p) && CountersOk(p, maxWeight, inBlock, c) && t in p.txs && t !in inBlock
    requires TestPackage(maxWeight, c, p.txs[t].size, p.txs[t].sigops)
    requires c' == WithTx(p, c, t)
    ensures CountersOk(p, maxWeight, inBlock + {t}, c')
  {
    hide Total;
    TotalAdd(WeightOf(p), inBlock, t);
    TotalAdd(SigOpsOf(p), inBlock, t);
    TotalAdd(FeeOf(p), inBlock, t);
  }

  lemma Appended(vtx: seq<TxId>, t: TxId)
    ensures Elements(vtx + [t]) == Elements(vtx) + {t}
  {
  }

  lemma {:induction false} DistinctSize(vtx: seq<TxId>)
    requires forall i, j :: 0 <= i < j < |vtx| ==> vtx[i] != vtx[j]
    ensures |Elements(vtx)| == |vtx|
  {
    if vtx != [] {
      var k := |vtx| - 1;
      DistinctSize(vtx[..k]);
      PrefixElements(vtx, k);
      assert vtx[..k + 1] == vtx;
    }
  }

  lemma BlockSize(p: Pool, vtx: seq<TxId>, inBlock: set<TxId>)
    requires BlockOk(p, vtx, inBlock)
    ensures Elements(vtx) == inBlock <= p.txs.Keys && |vtx| == |inBlock|
  {
    DistinctSize(vtx);
  }

  /** The transactions `done` have moved from the corrected entries into the block. */
  ghost predicate Moved(start: set<TxId>, m: map<TxId, Entry>, done: set<TxId>, inBlock: set<TxId>, m': map<TxId, Entry>) {
    inBlock == start + done && m' == m - done
  }

  lemma NothingMoved(m: map<TxId, Entry>, start: set<TxId>)
    ensures Moved(start, m, {}, start, m)
  {
  }

  lemma MovedOne(start: set<TxId>, m: map<TxId, Entry>, done: set<TxId>, inBlock: set<TxId>, m': map<TxId, Entry>, t: TxId)
    requires Moved(start, m, done, inBlock, m')
    ensures Moved(start, m, done + {t}, inBlock + {t}, m' - {t})
  {
    assert m - done - {t} == m - (done + {t});
  }

  lemma AllMoved(start: set<TxId>, m: map<TxId, Entry>, done: set<TxId>, inBlock: set<TxId>, m': map<TxId, Entry>)
    requires Moved(start, m, done, inBlock, m')
    ensures inBlock == start + done && m' == m - done
  {
  }

  lemma InPool(p: Pool, sorted: seq<TxId>, i: nat)
    requires Elements(sorted) <= p.txs.Keys && i < |sorted|
    ensures sorted[i] in p.txs
  {
    assert sorted[i] in Elements(sorted);
  }

  lemma NothingGrown(p: Pool, c: Counters)
    ensures Grown(p, c, {}, c) && Elements([]) == {}
  {
  }

  lemma GrownOne(p: Pool, c: Counters, package: set<TxId>, c': Counters, t: TxId, c'': Counters)
    requires Grown(p, c, package, c') && t !in package
    requires c'' == WithTx(p, c', t)
    ensures Grown(p, c, package + {t}, c'')
  {
    hide Total, WeightOf, SigOpsOf, FeeOf;
    TotalAdd(WeightOf(p), package, t);
    TotalAdd(SigOpsOf(p), package, t);
    TotalAdd(FeeOf(p), package, t);
  }

  lemma PackageInPool(p: Pool, base: set<TxId>, t: TxId, package: set<TxId>)
    requires PoolOk(p) && t in p.txs && package == Left(p, base, t)
    ensures package <= p.txs.Keys && package !! base
  {
  }

  lemma Sorted(p: Pool, package: set<TxId>, sorted: seq<TxId>)
    requires SortedPackage(p, package, sorted)
    ensures Elements(sorted) == package && forall i, j :: 0 <= i < j < |sorted| ==> sorted[i] != sorted[j]
  {
  }

  /** Nothing in the block descends from a package outside it. */
  lemma PackageClosed(p: Pool, vtx: seq<TxId>, base: set<TxId>, package: set<TxId>)
    requires PoolOk(p) && BlockOk(p, vtx, base) && package !! base
    ensures forall t :: t in base && t in p.anc ==> p.anc[t] !! package
  {
    hide PoolOk, BlockOk;
    forall t | t in base && t in p.anc ensures p.anc[t] !! package {
      BlockIsClosed(p, vtx, base, t);
    }
  }

  lemma Trimmed(p: Pool, base: set<TxId>, failed: set<TxId>, package: set<TxId>, m: map<TxId, Entry>, m': map<TxId, Entry>)
    requires ModOk(p, base, m) && AllExact(p, base, {}, failed, m) && m' == m - package
    ensures ModOk(p, base, m') && AllExact(p, base, package, failed, m') && m'.Keys !! package
  {
    hide Total, EntryOk, EntryExact;
  }

  lemma Keys(p: Pool, cached: map<TxId, Entry>)
    requires PoolOk(p) && CachedOk(p, cached)
    ensures p.anc.Keys == p.txs.Keys == cached.Keys
  {
  }

  lemma CorrectedSame(p: Pool, cached: map<TxId, Entry>, m: map<TxId, Entry>, m': map<TxId, Entry>, d: TxId, it: TxId)
    requires d in cached && it in p.txs && (d in m' <==> d in m) && (d in m ==> m'[d] == m[d])
    ensures Corrected(p, cached, m', d, it) == Corrected(p, cached, m, d, it)
  {
  }

  /** The block while a package is accounted for: all of it but `todo`. */
  ghost predicate Between(base: set<TxId>, added: set<TxId>, todo: set<TxId>, now: set<TxId>) {
    now == base + (added - todo)
  }

  /** Entries exist for the old ones and for every descendant of what was added. */
  ghost predicate Reached(p: Pool, added: set<TxId>, m: map<TxId, Entry>, m': map<TxId, Entry>) {
    forall t :: t in m' <==> t in m || (t in p.txs && t in p.anc && t !in added && !(p.anc[t] !! added))
  }

  ghost predicate ReachedSoFar(p: Pool, added: set<TxId>, todo: set<TxId>, m: map<TxId, Entry>, m': map<TxId, Entry>) {
    forall t :: t in m' <==> t in m || (t in p.txs && t in p.anc && t !in added && !(p.anc[t] !! added - todo))
  }

  lemma NothingReached(p: Pool, added: set<TxId>, m: map<TxId, Entry>)
    ensures ReachedSoFar(p, added, added, m, m)
  {
    assert added - added == {};
  }

  lemma AllReached(p: Pool, added: set<TxId>, m: map<TxId, Entry>, m': map<TxId, Entry>)
    requires ReachedSoFar(p, added, {}, m, m')
    ensures Reached(p, added, m, m')
  {
    assert added - {} == added;
  }

  lemma ReachedOne(p: Pool, cached: map<TxId, Entry>, added: set<TxId>, todo: set<TxId>, it: TxId,
                   m: map<TxId, Entry>, m': map<TxId, Entry>, next: map<TxId, Entry>)
    requires p.anc.Keys == p.txs.Keys == cached.Keys && it in p.txs && it in todo && todo <= added
    requires ReachedSoFar(p, added, todo, m, m') && UpdatedFor(p, cached, added, it, m', next)
    ensures ReachedSoFar(p, added, todo - {it}, m, next)
  {
    hide Corrected;
    assert added - (todo - {it}) == (added - todo) + {it};
    forall t ensures t in next <==> t in m || (t in p.txs && t in p.anc && t !in added && !(p.anc[t] !! added - (todo - {it}))) {
      if t in p.anc {
        assert !(p.anc[t] !! (added - todo) + {it}) <==> !(p.anc[t] !! added - todo) || it in p.anc[t];
      }
    }
  }

  lemma AllLeft(base: set<TxId>, added: set<TxId>)
    ensures Between(base, added, added, base)
  {
  }

  lemma NoneLeft(base: set<TxId>, added: set<TxId>, now: set<TxId>)
    requires Between(base, added, {}, now)
    ensures now == base + added
  {
  }

  lemma OneMore(base: set<TxId>, added: set<TxId>, todo: set<TxId>, now: set<TxId>, it: TxId)
    requires it in todo && todo <= added && Between(base, added, todo, now)
    ensures Between(base, added, todo - {it}, now + {it})
  {
  }

  lemma NotBelow(p: Pool, base: set<TxId>, added: set<TxId>, now: set<TxId>, it: TxId, todo: set<TxId>)
    requires it in todo && todo <= added && Between(base, added, todo, now) && added !! base
    requires forall t :: t in base && t in p.anc ==> p.anc[t] !! added
    ensures it !in now && forall t :: t in now && t !in added && t in p.anc ==> it !in p.anc[t]
  {
  }

  lemma ExactAll(p: Pool, inBlock: set<TxId>, added: set<TxId>, failed: set<TxId>, m: map<TxId, Entry>)
    requires AllExact(p, inBlock, added, failed, m) && added <= inBlock
    ensures AllExact(p, inBlock, {}, failed, m)
  {
  }
}
