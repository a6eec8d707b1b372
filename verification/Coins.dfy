/**
 * A stack of write-back coin caches over a coin database (src/coins.h, src/coins.cpp).
 *
 * Level 0 is the database, level `k > 0` is the `k`-th cache above it.  The view at a level answers
 * from its own cache entry if it has one, and from the level below otherwise.
 */
module Coins {
  import opened Options

  type Hash = nat
  const NULL_HASH: Hash := 0
  type Script = seq<bv8>

  datatype OutPoint = OutPoint(hash: Hash, n: nat)

  datatype Coin = Coin(value: int, script: Script, coinbase: bool, height: nat) {
    predicate IsSpent() {
      value == -1
    }

    /** Heap bytes held by the script: none up to 28 bytes, then whole 16-byte units. */
    function Usage(): nat {
      if |script| <= 28 then 0 else (|script| + 31) / 16 * 16
    }

    /** What a reader of a view sees. */
    function Seen(): Option<Coin> {
      if IsSpent() then None else Some(this)
    }
  }

  const EMPTY_COIN := Coin(-1, [], false, 0)

  datatype Entry = Entry(coin: Coin, isDirty: bool, isFresh: bool)

  type CoinMap = map<OutPoint, Entry>

  datatype Layer = Layer(coins: CoinMap, usage: int, best: Hash)

  const EMPTY_LAYER := Layer(map[], 0, NULL_HASH)

  datatype Stack = Stack(db: map<OutPoint, Coin>, dbBest: Hash, layers: seq<Layer>)

  /** The coin a reader sees at level `k`. */
  function Lookup(s: Stack, k: nat, o: OutPoint): Option<Coin>
    requires k <= |s.layers|
  {
    if k == 0 then
      if o in s.db then s.db[o].Seen() else None
    else if o in s.layers[k - 1].coins then
      s.layers[k - 1].coins[o].coin.Seen()
    else
      Lookup(s, k - 1, o)
  }

  // ----- The invariant

  ghost function UsageOf(m: CoinMap): nat
    decreases |m|
  {
    if m == map[] then 0 else
      var o :| o in m;
      assert |m - {o}| < |m| by { SizeLess(m, o); }
      m[o].coin.Usage() + UsageOf(m - {o})
  }

  lemma SizeLess(m: CoinMap, o: OutPoint)
    requires o in m
    ensures |m - {o}| == |m| - 1
  {
    assert (m - {o}).Keys == m.Keys - {o};
    assert |m - {o}| == |(m - {o}).Keys| && |m| == |m.Keys|;
  }

  lemma {:induction false} UsageWithout(m: CoinMap, o: OutPoint)
    requires o in m
    ensures UsageOf(m) == m[o].coin.Usage() + UsageOf(m - {o})
    decreases |m|
  {
    var p :| p in m && UsageOf(m) == m[p].coin.Usage() + UsageOf(m - {p});
    if p != o {
      SizeLess(m, p);
      SizeLess(m, o);
      UsageWithout(m - {p}, o);
      UsageWithout(m - {o}, p);
      assert m - {p} - {o} == m - {o} - {p};
    }
  }

  /** An entry is honest about the view `below` it. */
  predicate EntryOk(below: Option<Coin>, e: Entry) {
    && (e.isFresh ==> below == None)
    && (!e.isDirty ==> e.coin.Seen() == below)
  }

  ghost predicate LayerOk(s: Stack, k: nat)
    requires 0 < k <= |s.layers|
  {
    var l := s.layers[k - 1];
    && l.usage == UsageOf(l.coins)
    && forall o :: o in l.coins ==> EntryOk(Lookup(s, k - 1, o), l.coins[o])
  }

  ghost predicate Valid(s: Stack) {
    forall k :: 0 < k <= |s.layers| ==> LayerOk(s, k)
  }

  // ----- Changing one entry of one layer

  function Usage(e: Option<Entry>): nat {
    if e.Some? then e.value.coin.Usage() else 0
  }

  function At(m: CoinMap, o: OutPoint): Option<Entry> {
    if o in m then Some(m[o]) else None
  }

  function SetAt(m: CoinMap, o: OutPoint, e: Option<Entry>): CoinMap {
    if e.Some? then m[o := e.value] else m - {o}
  }

  /** Sets or erases the entry for `o`, with its memory accounted for. */
  function Put(l: Layer, o: OutPoint, e: Option<Entry>): Layer {
    Layer(SetAt(l.coins, o, e), l.usage - Usage(At(l.coins, o)) + Usage(e), l.best)
  }

  function PutAt(s: Stack, k: nat, o: OutPoint, e: Option<Entry>): Stack
    requires 0 < k <= |s.layers|
  {
    s.(layers := s.layers[k - 1 := Put(s.layers[k - 1], o, e)])
  }

  lemma UsageAfterPut(l: Layer, o: OutPoint, e: Option<Entry>)
    requires l.usage == UsageOf(l.coins)
    ensures Put(l, o, e).usage == UsageOf(Put(l, o, e).coins)
  {
    var m, m' := l.coins, SetAt(l.coins, o, e);
    if o in m {
      UsageWithout(m, o);
    } else {
      assert m - {o} == m;
    }
    if e.Some? {
      UsageWithout(m', o);
      assert m' - {o} == m - {o};
    }
  }

  /** Levels below a changed layer see the same coins. */
  lemma {:induction false} BelowUnchanged(s: Stack, t: Stack, k: nat, o: OutPoint)
    requires k <= |s.layers| && k <= |t.layers| && s.db == t.db
    requires forall j :: 0 <= j < k ==> s.layers[j].coins == t.layers[j].coins
    ensures Lookup(s, k, o) == Lookup(t, k, o)
  {
    if k > 0 {
      BelowUnchanged(s, t, k - 1, o);
    }
  }

  /** Levels above a layer that looks the same see the same coins. */
  lemma {:induction false} AboveUnchanged(s: Stack, t: Stack, k: nat, n: nat, o: OutPoint)
    requires k <= n <= |s.layers| && n <= |t.layers|
    requires Lookup(s, k, o) == Lookup(t, k, o)
    requires forall j :: k <= j < n ==> s.layers[j].coins == t.layers[j].coins
    ensures Lookup(s, n, o) == Lookup(t, n, o)
    decreases n
  {
    if k < n {
      AboveUnchanged(s, t, k, n - 1, o);
    }
  }

  /** Every level of `s` and `t` shows the same coins. */
  ghost predicate SameViews(s: Stack, t: Stack) {
    && |s.layers| == |t.layers|
    && forall k, o :: 0 <= k <= |s.layers| ==> Lookup(s, k, o) == Lookup(t, k, o)
  }

  /** `t` differs from `s` at most in the contents and accounting of layer `k`. */
  ghost predicate OnlyLayer(s: Stack, t: Stack, k: nat)
    requires 0 < k <= |s.layers|
  {
    && |t.layers| == |s.layers| && t.db == s.db
    && forall j :: 0 <= j < |s.layers| && j != k - 1 ==> t.layers[j] == s.layers[j]
  }

  lemma LevelsUnchanged(s: Stack, t: Stack, k: nat)
    requires 0 < k <= |s.layers| && OnlyLayer(s, t, k)
    ensures forall j, o :: 0 <= j < k ==> Lookup(t, j, o) == Lookup(s, j, o)
    ensures (forall o :: Lookup(t, k, o) == Lookup(s, k, o)) ==> SameViews(s, t)
  {
    forall j, o | 0 <= j < k ensures Lookup(t, j, o) == Lookup(s, j, o) {
      BelowUnchanged(s, t, j, o);
    }
    if forall o :: Lookup(t, k, o) == Lookup(s, k, o) {
      forall j, o | 0 <= j <= |s.layers| ensures Lookup(t, j, o) == Lookup(s, j, o) {
        if j >= k {
          AboveUnchanged(s, t, k, j, o);
        }
      }
    }
  }

  /** The layer's new entry is honest, so the layer is. */
  lemma PutLayerOk(s: Stack, k: nat, o: OutPoint, e: Option<Entry>)
    requires 0 < k <= |s.layers| && LayerOk(s, k)
    requires e.Some? ==> EntryOk(Lookup(s, k - 1, o), e.value)
    ensures LayerOk(PutAt(s, k, o, e), k)
  {
    var t := PutAt(s, k, o, e);
    UsageAfterPut(s.layers[k - 1], o, e);
    LevelsUnchanged(s, t, k);
  }

  lemma PutLookup(s: Stack, k: nat, o: OutPoint, e: Option<Entry>)
    requires 0 < k <= |s.layers|
    ensures forall p :: Lookup(PutAt(s, k, o, e), k, p) ==
                        if p != o then Lookup(s, k, p)
                        else if e.Some? then e.value.coin.Seen() else Lookup(s, k - 1, o)
  {
    LevelsUnchanged(s, PutAt(s, k, o, e), k);
  }

  /** Replacing an entry by an honest one that shows the same coin changes no view. */
  lemma PutSameView(s: Stack, k: nat, o: OutPoint, e: Option<Entry>)
    requires Valid(s) && 0 < k <= |s.layers|
    requires e.Some? ==> EntryOk(Lookup(s, k - 1, o), e.value)
    requires Lookup(s, k, o) == if e.Some? then e.value.coin.Seen() else Lookup(s, k - 1, o)
    ensures Valid(PutAt(s, k, o, e)) && SameViews(s, PutAt(s, k, o, e))
  {
    var t := PutAt(s, k, o, e);
    PutLookup(s, k, o, e);
    LevelsUnchanged(s, t, k);
    forall j | 0 < j <= |t.layers| ensures LayerOk(t, j) {
      assert LayerOk(s, j);
      if j == k {
        PutLayerOk(s, k, o, e);
      }
    }
  }

  /** Replacing an entry of the top layer by an honest one keeps the stack valid. */
  lemma PutTop(s: Stack, o: OutPoint, e: Option<Entry>)
    requires Valid(s) && |s.layers| > 0
    requires e.Some? ==> EntryOk(Lookup(s, |s.layers| - 1, o), e.value)
    ensures Valid(PutAt(s, |s.layers|, o, e))
  {
    var n := |s.layers|;
    var t := PutAt(s, n, o, e);
    LevelsUnchanged(s, t, n);
    forall j | 0 < j <= |t.layers| ensures LayerOk(t, j) {
      assert LayerOk(s, j);
      if j == n {
        PutLayerOk(s, n, o, e);
      }
    }
  }

  // ----- Reading

  /**
   * Loads the entry for `o` into cache `k`, filling the caches below on the way.  A database record
   * of a spent coin is loaded as a fresh entry.
   */
  function Fetch(s: Stack, k: nat, o: OutPoint): (t: Stack)
    requires 0 < k <= |s.layers|
    ensures |t.layers| == |s.layers|
    decreases k
  {
    if o in s.layers[k - 1].coins then s
    else if k == 1 then
      if o !in s.db then s
      else PutAt(s, 1, o, Some(Entry(s.db[o], false, s.db[o].IsSpent())))
    else
      var t := Fetch(s, k - 1, o);
      var m := t.layers[k - 2].coins;
      if o !in m || m[o].coin.IsSpent() then t
      else PutAt(t, k, o, Some(Entry(m[o].coin, false, m[o].coin.IsSpent())))
  }

  /** The entry cache `k` holds for `o` shows the coin the view had; no entry means no coin. */
  predicate Shows(s: Stack, k: nat, o: OutPoint, c: Option<Coin>)
    requires 0 < k <= |s.layers|
  {
    var m := s.layers[k - 1].coins;
    if o in m then m[o].coin.Seen() == c else c == None
  }

  /** Loading an entry changes no view at any level. */
  lemma {:induction false} FetchKeepsViews(s: Stack, k: nat, o: OutPoint)
    requires Valid(s) && 0 < k <= |s.layers|
    ensures Valid(Fetch(s, k, o)) && SameViews(s, Fetch(s, k, o)) && Shows(Fetch(s, k, o), k, o, Lookup(s, k, o))
    ensures forall j :: k <= j < |s.layers| ==> Fetch(s, k, o).layers[j] == s.layers[j]
    ensures Fetch(s, k, o).db == s.db
    decreases k
  {
    hide Valid, SameViews, PutAt, Fetch;
    FetchStep(s, k, o);
    if o in s.layers[k - 1].coins {
      SameViewsRefl(s);
    } else if k == 1 {
      SameViewsRefl(s);
      if o in s.db {
        var e := Entry(s.db[o], false, s.db[o].IsSpent());
        PutSameView(s, 1, o, Some(e));
        PutAtFacts(s, 1, o, Some(e));
      }
    } else {
      var t := Fetch(s, k - 1, o);
      FetchKeepsViews(s, k - 1, o);
      SameLookup(s, t, k - 1, o);
      SameLookup(s, t, k, o);
      var m := t.layers[k - 2].coins;
      if o in m && !m[o].coin.IsSpent() {
        var e := Entry(m[o].coin, false, false);
        PutSameView(t, k, o, Some(e));
        PutAtFacts(t, k, o, Some(e));
        SameViewsTrans(s, t, PutAt(t, k, o, Some(e)));
      }
    }
  }

  lemma FetchStep(s: Stack, k: nat, o: OutPoint)
    requires 0 < k <= |s.layers|
    ensures o in s.layers[k - 1].coins ==> Fetch(s, k, o) == s
    ensures o !in s.layers[k - 1].coins && k == 1 ==>
              Fetch(s, k, o) ==
              if o in s.db then PutAt(s, 1, o, Some(Entry(s.db[o], false, s.db[o].IsSpent()))) else s
    ensures o !in s.layers[k - 1].coins && k > 1 ==>
              var t := Fetch(s, k - 1, o);
              var m := t.layers[k - 2].coins;
              Fetch(s, k, o) ==
              if o in m && !m[o].coin.IsSpent() then PutAt(t, k, o, Some(Entry(m[o].coin, false, false))) else t
  {
  }

  lemma PutAtFacts(s: Stack, k: nat, o: OutPoint, e: Option<Entry>)
    requires 0 < k <= |s.layers|
    ensures PutAt(s, k, o, e).db == s.db && |PutAt(s, k, o, e).layers| == |s.layers|
    ensures PutAt(s, k, o, e).layers[k - 1].coins == SetAt(s.layers[k - 1].coins, o, e)
    ensures forall j :: 0 <= j < |s.layers| && j != k - 1 ==> PutAt(s, k, o, e).layers[j] == s.layers[j]
  {
  }

  lemma SameViewsRefl(s: Stack)
    ensures SameViews(s, s)
  {
  }

  lemma SameLookup(s: Stack, t: Stack, k: nat, o: OutPoint)
    requires SameViews(s, t) && k <= |s.layers|
    ensures Lookup(s, k, o) == Lookup(t, k, o)
  {
  }

  lemma SameViewsTrans(s: Stack, t: Stack, u: Stack)
    requires SameViews(s, t) && SameViews(t, u)
    ensures SameViews(s, u)
  {
    forall k, o | 0 <= k <= |s.layers| ensures Lookup(s, k, o) == Lookup(u, k, o) {
      SameLookup(s, t, k, o);
      SameLookup(t, u, k, o);
    }
  }

  // ----- Dropping a clean entry

  function Uncache(s: Stack, k: nat, o: OutPoint): Stack
    requires 0 < k <= |s.layers|
  {
    var m := s.layers[k - 1].coins;
    if o in m && !m[o].isDirty && !m[o].isFresh then PutAt(s, k, o, None) else s
  }

  lemma UncacheKeepsViews(s: Stack, k: nat, o: OutPoint)
    requires Valid(s) && 0 < k <= |s.layers|
    ensures Valid(Uncache(s, k, o)) && SameViews(s, Uncache(s, k, o))
  {
    assert LayerOk(s, k);
    var m := s.layers[k - 1].coins;
    if o in m && !m[o].isDirty && !m[o].isFresh {
      assert EntryOk(Lookup(s, k - 1, o), m[o]);
      PutSameView(s, k, o, None);
    }
  }

  // ----- Adding a coin to the top cache

  datatype AddResult = Added(s: Stack) | Thrown(s: Stack)

  /** `unspendable` says whether the coin's script can never be spent; such coins are not stored. */
  function AddCoin(s: Stack, o: OutPoint, coin: Coin, unspendable: bool, overwrite: bool): AddResult
    requires |s.layers| > 0
  {
    var k := |s.layers|;
    var l := s.layers[k - 1];
    var e := if o in l.coins then l.coins[o] else Entry(EMPTY_COIN, false, false);
    if unspendable then
      Added(s)
    else if !overwrite && !e.coin.IsSpent() then
      Thrown(s.(layers := s.layers[k - 1 := l.(usage := l.usage - e.coin.Usage())]))
    else
      Added(PutAt(s, k, o, Some(Entry(coin, true, e.isFresh || (!overwrite && !e.isDirty)))))
  }

  /** The views after a write of `c` for `o` at the top level: nothing else moved. */
  ghost predicate TopChanged(s: Stack, t: Stack, o: OutPoint, c: Option<Coin>) {
    && |s.layers| == |t.layers| > 0
    && forall k, p :: 0 <= k <= |s.layers| ==>
         Lookup(t, k, p) == if k == |s.layers| && p == o then c else Lookup(s, k, p)
  }

  lemma PutTopView(s: Stack, o: OutPoint, e: Option<Entry>)
    requires |s.layers| > 0
    ensures TopChanged(s, PutAt(s, |s.layers|, o, e), o,
                       if e.Some? then e.value.coin.Seen() else Lookup(s, |s.layers| - 1, o))
  {
    PutLookup(s, |s.layers|, o, e);
    LevelsUnchanged(s, PutAt(s, |s.layers|, o, e), |s.layers|);
  }

  /**
   * Adding keeps the stack honest exactly when the caller keeps the contract: an overwrite is
   * announced, or the view has no unspent coin there.
   */
  lemma AddCoinContract(s: Stack, o: OutPoint, coin: Coin, overwrite: bool)
    requires Valid(s) && |s.layers| > 0 && !coin.IsSpent()
    ensures AddCoin(s, o, coin, false, overwrite).Added? && Valid(AddCoin(s, o, coin, false, overwrite).s) <==>
            overwrite || Lookup(s, |s.layers|, o) == None
    ensures AddCoin(s, o, coin, false, overwrite).Added? ==>
              TopChanged(s, AddCoin(s, o, coin, false, overwrite).s, o, Some(coin))
  {
    var n := |s.layers|;
    var m := s.layers[n - 1].coins;
    assert LayerOk(s, n);
    var e := if o in m then m[o] else Entry(EMPTY_COIN, false, false);
    var e' := Entry(coin, true, e.isFresh || (!overwrite && !e.isDirty));
    if o in m {
      assert EntryOk(Lookup(s, n - 1, o), m[o]);
    }
    PutTopView(s, o, Some(e'));
    if overwrite || Lookup(s, n, o) == None {
      PutTop(s, o, Some(e'));
    } else if AddCoin(s, o, coin, false, overwrite).Added? {
      var t := PutAt(s, n, o, Some(e'));
      LevelsUnchanged(s, t, n);
      assert !EntryOk(Lookup(t, n - 1, o), t.layers[n - 1].coins[o]);
      assert !LayerOk(t, n);
    }
  }

  // ----- Spending from the top cache

  /** Inputs of identity claims name an output that never exists. */
  predicate IsDummyPrevout(o: OutPoint) {
    o.n == 0x58494431 && o.hash != NULL_HASH
  }

  /** The new stack, the value returned, and the coin moved out. */
  datatype SpendResult = SpendResult(s: Stack, found: bool, moved: Coin)

  function SpendCoin(s: Stack, o: OutPoint): SpendResult
    requires |s.layers| > 0
  {
    var k := |s.layers|;
    var t := Fetch(s, k, o);
    var m := t.layers[k - 1].coins;
    if o !in m then SpendResult(t, IsDummyPrevout(o), EMPTY_COIN)
    else SpendResult(PutAt(t, k, o, if m[o].isFresh then None else Some(Entry(EMPTY_COIN, true, false))), true, m[o].coin)
  }

  lemma SpendCoinRemoves(s: Stack, o: OutPoint)
    requires Valid(s) && |s.layers| > 0
    ensures Valid(SpendCoin(s, o).s) && TopChanged(s, SpendCoin(s, o).s, o, None)
    ensures SpendCoin(s, o).moved.Seen() == Lookup(s, |s.layers|, o)
    ensures Lookup(s, |s.layers|, o).Some? ==> SpendCoin(s, o).found
  {
    var n := |s.layers|;
    var t := Fetch(s, n, o);
    FetchKeepsViews(s, n, o);
    hide Fetch, Valid;
    var m := t.layers[n - 1].coins;
    if o in m {
      ValidLayer(t, n);
      assert EntryOk(Lookup(t, n - 1, o), m[o]);
      var e := if m[o].isFresh then None else Some(Entry(EMPTY_COIN, true, false));
      PutTop(t, o, e);
      PutTopView(t, o, e);
    }
  }

  lemma ValidLayer(s: Stack, k: nat)
    requires Valid(s) && 0 < k <= |s.layers|
    ensures LayerOk(s, k)
  {
  }

  /**
   * What the caller is told: true for a coin, for an identity-claim input, and also for an entry the
   * cache (or, under a single cache, the database) still keeps of a coin already spent.
   */
  lemma SpendCoinReturns(s: Stack, o: OutPoint)
    requires Valid(s) && |s.layers| > 0
    ensures SpendCoin(s, o).found <==>
            || Lookup(s, |s.layers|, o).Some?
            || IsDummyPrevout(o)
            || o in s.layers[|s.layers| - 1].coins
            || (|s.layers| == 1 && o in s.db)
  {
    var n := |s.layers|;
    FetchStep(s, n, o);
    FetchKeepsViews(s, n, o);
    if n > 1 {
      FetchKeepsViews(s, n - 1, o);
    }
  }

  // ----- Writing one cache back into the level below

  /** What the level below keeps for one outpoint once the child's entry is written; `Misapplied` is a logic error. */
  datatype Merged = Keep(e: Option<Entry>) | Misapplied

  function Merge(us: Option<Entry>, e: Entry): Merged {
    if !e.isDirty then Keep(us)
    else if us.None? then
      Keep(if e.isFresh && e.coin.IsSpent() then None else Some(Entry(e.coin, true, e.isFresh)))
    else if e.isFresh && !us.value.coin.IsSpent() then Misapplied
    else if us.value.isFresh && e.coin.IsSpent() then Keep(None)
    else Keep(Some(Entry(e.coin, true, us.value.isFresh)))
  }

  /** No child entry is marked fresh over a coin the parent cache holds. */
  predicate Mergeable(us: CoinMap, child: CoinMap) {
    forall o :: o in child ==> Merge(At(us, o), child[o]).Keep?
  }

  function MergedAt(us: CoinMap, child: CoinMap, o: OutPoint): Option<Entry>
    requires Mergeable(us, child)
  {
    if o in child then Merge(At(us, o), child[o]).e else At(us, o)
  }

  function MergeAll(us: CoinMap, child: CoinMap): CoinMap
    requires Mergeable(us, child)
  {
    map o | o in us.Keys + child.Keys && MergedAt(us, child, o).Some? :: MergedAt(us, child, o).value
  }

  /** The database keeps the coins that are not spent. */
  function MergeIntoDb(db: map<OutPoint, Coin>, child: CoinMap): map<OutPoint, Coin> {
    map o | o in db.Keys + child.Keys &&
            (if o in child && child[o].isDirty then !child[o].coin.IsSpent() else o in db) ::
      if o in child && child[o].isDirty then child[o].coin else db[o]
  }

  /** Writes cache `k` into the level below and empties it; the best block goes along as it is. */
  ghost function Flush(s: Stack, k: nat): (t: Stack)
    requires 0 < k <= |s.layers|
    requires k > 1 ==> Mergeable(s.layers[k - 2].coins, s.layers[k - 1].coins)
    ensures |t.layers| == |s.layers|
  {
    var child := s.layers[k - 1];
    var emptied := child.(coins := map[], usage := 0);
    if k == 1 then
      Stack(MergeIntoDb(s.db, child.coins), child.best, s.layers[0 := emptied])
    else
      s.(layers := s.layers[k - 2 := MergeLayer(s.layers[k - 2], child)][k - 1 := emptied])
  }

  ghost function MergeLayer(l: Layer, child: Layer): Layer
    requires Mergeable(l.coins, child.coins)
  {
    var m := MergeAll(l.coins, child.coins);
    Layer(m, l.usage - UsageOf(l.coins) + UsageOf(m), child.best)
  }

  /** A child entry that is honest about the parent cache merges without a logic error. */
  lemma NeverMisapplied(s: Stack, k: nat)
    requires Valid(s) && 1 < k <= |s.layers|
    ensures Mergeable(s.layers[k - 2].coins, s.layers[k - 1].coins)
  {
    var us, child := s.layers[k - 2].coins, s.layers[k - 1].coins;
    ValidLayer(s, k);
    forall o | o in child ensures Merge(At(us, o), child[o]).Keep? {
      assert EntryOk(Lookup(s, k - 1, o), child[o]);
    }
  }

  /** One outpoint's share of a flush: the level below comes to show what the flushed level showed. */
  lemma MergeShows(below: Option<Coin>, us: Option<Entry>, e: Entry)
    requires us.Some? ==> EntryOk(below, us.value)
    requires EntryOk(if us.Some? then us.value.coin.Seen() else below, e)
    ensures Merge(us, e).Keep?
    ensures var r := Merge(us, e).e;
            && (if r.Some? then r.value.coin.Seen() else below) == e.coin.Seen()
            && (r.Some? ==> EntryOk(below, r.value))
  {
  }

  lemma FlushLower(s: Stack, k: nat, o: OutPoint)
    requires Valid(s) && 1 < k <= |s.layers|
    requires Mergeable(s.layers[k - 2].coins, s.layers[k - 1].coins)
    ensures Lookup(Flush(s, k), k - 2, o) == Lookup(s, k - 2, o)
    ensures Lookup(Flush(s, k), k - 1, o) == Lookup(s, k, o)
    ensures var m := Flush(s, k).layers[k - 2].coins;
            o in m ==> EntryOk(Lookup(s, k - 2, o), m[o])
  {
    var t := Flush(s, k);
    var us, child := s.layers[k - 2].coins, s.layers[k - 1].coins;
    BelowUnchanged(s, t, k - 2, o);
    ValidLayer(s, k);
    ValidLayer(s, k - 1);
    if o in us {
      assert EntryOk(Lookup(s, k - 2, o), us[o]);
    }
    if o in child {
      assert EntryOk(Lookup(s, k - 1, o), child[o]);
      MergeShows(Lookup(s, k - 2, o), At(us, o), child[o]);
    }
    hide Flush, Valid, LayerOk;
    FlushParts(s, k);
  }

  lemma FlushParts(s: Stack, k: nat)
    requires 1 < k <= |s.layers|
    requires Mergeable(s.layers[k - 2].coins, s.layers[k - 1].coins)
    ensures Flush(s, k).db == s.db
    ensures Flush(s, k).layers[k - 2] == MergeLayer(s.layers[k - 2], s.layers[k - 1])
    ensures Flush(s, k).layers[k - 1] == Layer(map[], 0, s.layers[k - 1].best)
    ensures forall j :: 0 <= j < |s.layers| && j != k - 1 && j != k - 2 ==> Flush(s, k).layers[j] == s.layers[j]
  {
  }

  lemma FlushToDb(s: Stack, o: OutPoint)
    requires Valid(s) && |s.layers| > 0
    ensures Lookup(Flush(s, 1), 0, o) == Lookup(s, 1, o)
  {
    ValidLayer(s, 1);
    var child := s.layers[0].coins;
    if o in child {
      assert EntryOk(Lookup(s, 0, o), child[o]);
    }
  }

  /** The levels a flush of cache `k` may change: only the one below it. */
  ghost predicate FlushedViews(s: Stack, t: Stack, k: nat)
    requires 0 < k <= |s.layers|
  {
    && |s.layers| == |t.layers|
    && forall j, o :: 0 <= j <= |s.layers| ==>
         Lookup(t, j, o) == if j == k - 1 then Lookup(s, k, o) else Lookup(s, j, o)
  }

  lemma FlushViews(s: Stack, k: nat)
    requires Valid(s) && 0 < k <= |s.layers|
    requires k > 1 ==> Mergeable(s.layers[k - 2].coins, s.layers[k - 1].coins)
    ensures FlushedViews(s, Flush(s, k), k)
  {
    var t := Flush(s, k);
    hide Valid, MergeAll, MergeIntoDb;
    forall j, o | 0 <= j <= |s.layers|
      ensures Lookup(t, j, o) == if j == k - 1 then Lookup(s, k, o) else Lookup(s, j, o)
    {
      if k == 1 {
        FlushToDb(s, o);
      } else {
        FlushLower(s, k, o);
      }
      if j < k - 1 {
        BelowUnchanged(s, t, j, o);
      } else if j >= k {
        assert Lookup(t, k, o) == Lookup(t, k - 1, o);
        AboveUnchanged(s, t, k, j, o);
      }
    }
  }

  /**
   * Flushing any cache of the stack never finds a misapplied FRESH flag, keeps the stack honest, and
   * changes no view except the level written to, which comes to show what the flushed cache showed.
   */
  lemma FlushKeepsViews(s: Stack, k: nat)
    requires Valid(s) && 0 < k <= |s.layers|
    ensures k > 1 ==> Mergeable(s.layers[k - 2].coins, s.layers[k - 1].coins)
    ensures Valid(Flush(s, k)) && FlushedViews(s, Flush(s, k), k)
  {
    if k > 1 {
      NeverMisapplied(s, k);
    }
    var t := Flush(s, k);
    FlushViews(s, k);
    hide Mergeable, MergeAll, MergeIntoDb, Valid;
    forall j | 0 < j <= |t.layers| ensures LayerOk(t, j) {
      FlushLayerOk(s, k, j);
    }
    assert Valid(t) by { AllLayers(t); }
  }

  lemma AllLayers(t: Stack)
    requires forall j :: 0 < j <= |t.layers| ==> LayerOk(t, j)
    ensures Valid(t)
  {
  }

  lemma FlushLayerOk(s: Stack, k: nat, j: nat)
    requires Valid(s) && 0 < k <= |s.layers| && 0 < j <= |s.layers|
    requires k > 1 ==> Mergeable(s.layers[k - 2].coins, s.layers[k - 1].coins)
    requires FlushedViews(s, Flush(s, k), k)
    ensures LayerOk(Flush(s, k), j)
  {
    var t := Flush(s, k);
    ValidLayer(s, j);
    hide Valid, MergeAll, MergeIntoDb, Mergeable;
    if k > 1 {
      FlushParts(s, k);
    }
    if j == k {
      assert UsageOf(map[]) == 0;
    } else if j == k - 1 {
      var m := t.layers[j - 1].coins;
      forall o | o in m ensures EntryOk(Lookup(t, j - 1, o), m[o]) {
        FlushLower(s, k, o);
      }
    }
  }
}
