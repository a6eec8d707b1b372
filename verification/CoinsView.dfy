/**
 * The cache stack as the program runs it: each operation updates entries, flags, the memory counter
 * and the best-block hash of the caches in place (src/coins.cpp).
 */
module CoinsView {
  import opened Options
  import opened Coins
  import CoinsRuns

  lemma MergeOneMore(us: CoinMap, part: CoinMap, o: OutPoint, e: Entry)
    requires Mergeable(us, part) && o !in part && Merge(At(us, o), e).Keep?
    ensures Mergeable(us, part[o := e])
    ensures At(MergeAll(us, part), o) == At(us, o)
    ensures MergeAll(us, part[o := e]) == SetAt(MergeAll(us, part), o, Merge(At(us, o), e).e)
  {
    var next := part[o := e];
    forall p ensures p != o ==> MergedAt(us, next, p) == MergedAt(us, part, p) {
    }
    var a, b := MergeAll(us, next), SetAt(MergeAll(us, part), o, Merge(At(us, o), e).e);
    hide Merge;
    assert MergedAt(us, next, o) == Merge(At(us, o), e).e;
    forall p ensures At(a, p) == At(b, p) {
    }
    SameAt(a, b);
  }

  lemma SameAt(a: CoinMap, b: CoinMap)
    requires forall p :: At(a, p) == At(b, p)
    ensures a == b
  {
    forall p ensures p in a <==> p in b {
      assert At(a, p) == At(b, p);
    }
    forall p | p in a ensures a[p] == b[p] {
      assert At(a, p) == At(b, p);
    }
  }

  lemma MergeNothing(us: CoinMap)
    ensures Mergeable(us, map[]) && MergeAll(us, map[]) == us
  {
  }

  /** Cache `us` after part of a child's entries have been written into it. */
  ghost function Partial(us: Layer, part: CoinMap): Layer
    requires Mergeable(us.coins, part)
  {
    MergeLayer(us, Layer(part, 0, us.best))
  }

  lemma PartialStart(us: Layer)
    ensures Mergeable(us.coins, map[]) && Partial(us, map[]) == us
  {
    MergeNothing(us.coins);
  }

  lemma PartialStep(us: Layer, part: CoinMap, o: OutPoint, e: Entry)
    requires Mergeable(us.coins, part) && o !in part
    ensures At(Partial(us, part).coins, o) == At(us.coins, o)
    ensures var r := Merge(At(us.coins, o), e);
            r.Keep? ==>
              && Mergeable(us.coins, part[o := e])
              && Put(Partial(us, part), o, r.e) == Partial(us, part[o := e])
  {
    var r := Merge(At(us.coins, o), e);
    if r.Keep? {
      MergeOneMore(us.coins, part, o, e);
      UsageDelta(MergeAll(us.coins, part), o, r.e);
    }
  }

  /** The entries of `whole` already handled, and those still to come. */
  ghost predicate Split(whole: CoinMap, done: CoinMap, rest: CoinMap) {
    && (forall o :: o in whole <==> o in done || o in rest)
    && (forall o :: o in done ==> o !in rest && done[o] == whole[o])
    && (forall o :: o in rest ==> rest[o] == whole[o])
  }

  lemma SplitStart(whole: CoinMap)
    ensures Split(whole, map[], whole)
  {
  }

  lemma SplitAt(whole: CoinMap, done: CoinMap, rest: CoinMap, o: OutPoint)
    requires Split(whole, done, rest) && o in rest
    ensures o in whole && whole[o] == rest[o] && o !in done
  {
  }

  lemma SplitStep(whole: CoinMap, done: CoinMap, rest: CoinMap, o: OutPoint)
    requires Split(whole, done, rest) && o in rest
    ensures Split(whole, done[o := rest[o]], rest - {o}) && |rest - {o}| < |rest|
  {
    SizeLess(rest, o);
  }

  lemma SplitEnd(whole: CoinMap, done: CoinMap)
    requires Split(whole, done, map[])
    ensures done == whole
  {
  }

  lemma StillMisapplied(us: CoinMap, child: CoinMap, o: OutPoint)
    requires o in child && Merge(At(us, o), child[o]).Misapplied?
    ensures !Mergeable(us, child)
  {
  }

  class CacheStack {
    var db: map<OutPoint, Coin>
    var dbBest: Hash
    var layers: seq<Layer>

    ghost function State(): Stack
      reads this
    {
      Stack(db, dbBest, layers)
    }

    constructor (db: map<OutPoint, Coin>, best: Hash)
      ensures State() == Stack(db, best, []) && Valid(State())
    {
      this.db, dbBest, layers := db, best, [];
    }

    /** A new empty cache on top of the stack. */
    method Push()
      modifies this`layers
      ensures State() == old(State()).(layers := old(layers) + [EMPTY_LAYER])
    {
      layers := layers + [EMPTY_LAYER];
    }

    /** Destroys the top cache; changes it did not flush are forgotten. */
    method Pop()
      requires layers != []
      modifies this`layers
      ensures State() == old(State()).(layers := old(layers)[..|old(layers)| - 1])
    {
      layers := layers[..|layers| - 1];
    }

    /** Loads the entry for `o` into cache `k`; `found` says whether there is one now. */
    method FetchCoin(k: nat, o: OutPoint) returns (found: bool)
      requires 0 < k <= |layers|
      modifies this`layers
      ensures State() == Fetch(old(State()), k, o)
      ensures found <==> o in layers[k - 1].coins
      ensures forall j :: k <= j < |layers| ==> layers[j] == old(layers)[j]
      decreases k, 0
    {
      if o in layers[k - 1].coins {
        return true;
      }
      var have, coin;
      if k == 1 {
        have := o in db;
        coin := if have then db[o] else EMPTY_COIN;
      } else {
        have, coin := GetCoin(k - 1, o);
      }
      FetchStep(old(State()), k, o);
      hide Fetch;
      if !have {
        return false;
      }
      var l := layers[k - 1];
      layers := layers[k - 1 := Layer(l.coins[o := Entry(coin, false, coin.IsSpent())], l.usage + coin.Usage(), l.best)];
      return true;
    }

    /** Reports the unspent coin for `o`, if the view has one. */
    method GetCoin(k: nat, o: OutPoint) returns (have: bool, coin: Coin)
      requires 0 < k <= |layers|
      modifies this`layers
      ensures State() == Fetch(old(State()), k, o)
      ensures have <==> o in layers[k - 1].coins && !layers[k - 1].coins[o].coin.IsSpent()
      ensures have ==> coin == layers[k - 1].coins[o].coin
      ensures forall j :: k <= j < |layers| ==> layers[j] == old(layers)[j]
      ensures old(Valid(State())) ==> (if have then Some(coin) else None) == old(Lookup(State(), k, o))
      decreases k, 1
    {
      var found := FetchCoin(k, o);
      if old(Valid(State())) {
        FetchKeepsViews(old(State()), k, o);
      }
      if found {
        coin := layers[k - 1].coins[o].coin;
        return !coin.IsSpent(), coin;
      }
      return false, EMPTY_COIN;
    }

    method HaveCoin(k: nat, o: OutPoint) returns (have: bool)
      requires 0 < k <= |layers|
      modifies this`layers
      ensures State() == Fetch(old(State()), k, o)
      ensures old(Valid(State())) ==> (have <==> old(Lookup(State(), k, o)).Some?)
    {
      var found := FetchCoin(k, o);
      if old(Valid(State())) {
        FetchKeepsViews(old(State()), k, o);
      }
      have := found && !layers[k - 1].coins[o].coin.IsSpent();
    }

    /** Adds a coin to the top cache; throws when an unannounced overwrite hits a cached coin. */
    method AddCoin(o: OutPoint, coin: Coin, unspendable: bool, possibleOverwrite: bool) returns (thrown: bool)
      requires layers != [] && !coin.IsSpent()
      modifies this`layers
      ensures (if thrown then Thrown(State()) else Added(State())) ==
              Coins.AddCoin(old(State()), o, coin, unspendable, possibleOverwrite)
    {
      if unspendable {
        return false;
      }
      var k := |layers|;
      var l := layers[k - 1];
      var inserted := o !in l.coins;
      var e := if inserted then Entry(EMPTY_COIN, false, false) else l.coins[o];
      if !inserted {
        l := l.(usage := l.usage - e.coin.Usage());
        layers := layers[k - 1 := l];
      }
      var fresh' := false;
      if !possibleOverwrite {
        if !e.coin.IsSpent() {
          return true;
        }
        fresh' := !e.isDirty;
      }
      e := Entry(coin, true, e.isFresh || fresh');
      layers := layers[k - 1 := l.(coins := l.coins[o := e], usage := l.usage + coin.Usage())];
      return false;
    }

    /** Spends a coin from the top cache and moves it out. */
    method SpendCoin(o: OutPoint) returns (found: bool, moved: Coin)
      requires layers != []
      modifies this`layers
      ensures SpendResult(State(), found, moved) == Coins.SpendCoin(old(State()), o)
    {
      hide Fetch;
      var k := |layers|;
      var have := FetchCoin(k, o);
      if IsDummyPrevout(o) && !have {
        return true, EMPTY_COIN;
      }
      if !have {
        return false, EMPTY_COIN;
      }
      var l := layers[k - 1];
      var e := l.coins[o];
      l := l.(usage := l.usage - e.coin.Usage());
      moved := e.coin;
      if e.isFresh {
        l := l.(coins := l.coins - {o});
      } else {
        l := l.(coins := l.coins[o := Entry(EMPTY_COIN, true, e.isFresh)]);
      }
      layers := layers[k - 1 := l];
      found := true;
    }

    /** Drops an unmodified entry of cache `k`. */
    method Uncache(k: nat, o: OutPoint)
      requires 0 < k <= |layers|
      modifies this`layers
      ensures State() == Coins.Uncache(old(State()), k, o)
    {
      var l := layers[k - 1];
      if o in l.coins && !l.coins[o].isDirty && !l.coins[o].isFresh {
        layers := layers[k - 1 := l.(usage := l.usage - l.coins[o].coin.Usage(), coins := l.coins - {o})];
      }
    }

    /** Writes one child entry into cache `j`. */
    method WriteEntry(j: nat, o: OutPoint, e: Entry) returns (thrown: bool)
      requires 0 < j <= |layers|
      modifies this`layers
      ensures thrown <==> Merge(At(old(layers)[j - 1].coins, o), e).Misapplied?
      ensures thrown ==> layers == old(layers)
      ensures !thrown ==>
                State() == PutAt(old(State()), j, o, Merge(At(old(layers)[j - 1].coins, o), e).e)
    {
      thrown := false;
      var us := layers[j - 1];
      if e.isDirty {
        if o !in us.coins {
          if !(e.isFresh && e.coin.IsSpent()) {
            us := us.(coins := us.coins[o := Entry(e.coin, true, e.isFresh)], usage := us.usage + e.coin.Usage());
          }
        } else {
          var old' := us.coins[o];
          if e.isFresh && !old'.coin.IsSpent() {
            return true;
          }
          if old'.isFresh && e.coin.IsSpent() {
            us := us.(usage := us.usage - old'.coin.Usage(), coins := us.coins - {o});
          } else {
            us := us.(usage := us.usage - old'.coin.Usage() + e.coin.Usage(),
                      coins := us.coins[o := Entry(e.coin, true, old'.isFresh)]);
          }
        }
      }
      assert SetAt(us.coins, o, At(us.coins, o)) == us.coins;
      assert o !in old(layers)[j - 1].coins ==> old(layers)[j - 1].coins - {o} == old(layers)[j - 1].coins;
      layers := layers[j - 1 := us];
      assert layers[j - 1] == Put(old(layers)[j - 1], o, Merge(At(old(layers)[j - 1].coins, o), e).e);
    }

    /** Takes over the entries of a child cache, one at a time, in any order. */
    method BatchWrite(j: nat, mapCoins0: CoinMap, best: Hash) returns (thrown: bool)
      requires 0 < j <= |layers|
      modifies this`layers
      ensures thrown <==> !Mergeable(old(layers)[j - 1].coins, mapCoins0)
      ensures !thrown ==> layers == old(layers)[j - 1 := MergeLayer(old(layers)[j - 1], Layer(mapCoins0, 0, best))]
    {
      hide Partial, Mergeable, Merge, PutAt, Split;
      var mapCoins := mapCoins0;
      ghost var us := layers[j - 1];
      ghost var part: CoinMap := map[];
      PartialStart(us);
      SplitStart(mapCoins0);
      while mapCoins != map[]
        invariant Mergeable(us.coins, part)
        invariant Split(mapCoins0, part, mapCoins)
        invariant layers == old(layers)[j - 1 := Partial(us, part)]
        decreases |mapCoins|
      {
        var o :| o in mapCoins;
        var e := mapCoins[o];
        SplitAt(mapCoins0, part, mapCoins, o);
        PartialStep(us, part, o, e);
        ghost var before := State();
        thrown := WriteEntry(j, o, e);
        if thrown {
          StillMisapplied(us.coins, mapCoins0, o);
          return;
        }
        PutAtIs(before, j, o, Merge(At(us.coins, o), e).e);
        SplitStep(mapCoins0, part, mapCoins, o);
        part := part[o := e];
        mapCoins := mapCoins - {o};
      }
      thrown := false;
      SplitEnd(mapCoins0, part);
      layers := layers[j - 1 := layers[j - 1].(best := best)];
      PartialEnd(us, mapCoins0, best);
    }

    /** Writes cache `k` into the level below, then empties it. */
    method Flush(k: nat) returns (thrown: bool)
      requires 0 < k <= |layers|
      modifies this
      ensures thrown <==> k > 1 && !Mergeable(old(layers)[k - 2].coins, old(layers)[k - 1].coins)
      ensures !thrown ==> State() == Coins.Flush(old(State()), k)
      ensures old(Valid(State())) ==> !thrown && Valid(State())
    {
      if old(Valid(State())) {
        FlushKeepsViews(old(State()), k);
      }
      hide Valid, MergeAll, Mergeable, MergeIntoDb;
      var child := layers[k - 1];
      thrown := false;
      if k == 1 {
        db, dbBest := MergeIntoDb(db, child.coins), child.best;
      } else {
        thrown := BatchWrite(k - 1, child.coins, child.best);
        if thrown {
          return;
        }
      }
      layers := layers[k - 1 := child.(coins := map[], usage := 0)];
    }

    /** The best block seen at level `k`; every cache asked on the way remembers the answer. */
    method GetBestBlock(k: nat) returns (best: Hash)
      requires k <= |layers|
      modifies this`layers
      ensures best == old(CoinsRuns.BestBlock(State(), k))
      ensures |layers| == |old(layers)|
      ensures forall j :: 0 <= j < |layers| ==>
                layers[j] == old(layers)[j].(best := layers[j].best) &&
                (j >= k ==> layers[j] == old(layers)[j])
      ensures forall j :: 0 <= j <= |layers| ==> CoinsRuns.BestBlock(State(), j) == old(CoinsRuns.BestBlock(State(), j))
    {
      if k == 0 {
        return dbBest;
      }
      if layers[k - 1].best == NULL_HASH {
        best := GetBestBlock(k - 1);
        forall j | 0 <= j <= |layers| {
          BestRemembered(State(), k, j);
        }
        layers := layers[k - 1 := layers[k - 1].(best := best)];
      } else {
        best := layers[k - 1].best;
      }
    }
  }

  lemma PutAtIs(s: Stack, k: nat, o: OutPoint, e: Option<Entry>)
    requires 0 < k <= |s.layers|
    ensures PutAt(s, k, o, e).layers == s.layers[k - 1 := Put(s.layers[k - 1], o, e)]
  {
  }

  lemma PartialEnd(us: Layer, child: CoinMap, best: Hash)
    requires Mergeable(us.coins, child)
    ensures Partial(us, child).(best := best) == MergeLayer(us, Layer(child, 0, best))
  {
  }

  /** A cache that remembers the answer of the level below shows every level the same best block. */
  lemma {:induction false} BestRemembered(s: Stack, k: nat, j: nat)
    requires 0 < k <= |s.layers| && j <= |s.layers| && s.layers[k - 1].best == NULL_HASH
    ensures var t := s.(layers := s.layers[k - 1 := s.layers[k - 1].(best := CoinsRuns.BestBlock(s, k - 1))]);
            CoinsRuns.BestBlock(t, j) == CoinsRuns.BestBlock(s, j)
    decreases j
  {
    if j > 0 {
      BestRemembered(s, k, j - 1);
    }
  }

  lemma UsageDelta(m: CoinMap, o: OutPoint, e: Option<Entry>)
    ensures UsageOf(SetAt(m, o, e)) == UsageOf(m) - Usage(At(m, o)) + Usage(e)
  {
    UsageAfterPut(Layer(m, UsageOf(m), NULL_HASH), o, e);
  }
}
