/**
 * Package selection for a block (src/miner.cpp): the memory pool as a finite ancestor-closed graph,
 * the block under construction, and what adding a package keeps.
 */
module Miner {
  import opened SetTotals

  const WITNESS_SCALE_FACTOR := 4
  const MAX_BLOCK_SIGOPS_COST := 80_000
  const RESERVED_WEIGHT := 4000
  const RESERVED_SIGOPS := 400

  type TxId = nat

  /**
   * A transaction of the pool: `final` and `witnessOk` say that it may go into this block, `blocked`
   * that an identity claim lacks its proof, `claim` that it is an identity claim.
   */
  datatype Tx = Tx(size: nat, weight: nat, sigops: nat, fee: int, modFee: int, final: bool, witnessOk: bool, blocked: bool, claim: bool)

  /** The pool, with the unconfirmed ancestors of each transaction. */
  datatype Pool = Pool(txs: map<TxId, Tx>, anc: map<TxId, set<TxId>>)

  /**
   * Ancestors are in the pool, a transaction is not its own ancestor, and ancestry is transitive; sizes
   * are positive, and a weight is at most four times the size.
   */
  ghost predicate PoolOk(p: Pool) {
    && p.anc.Keys == p.txs.Keys
    && (forall t :: t in p.txs ==> p.anc[t] <= p.txs.Keys && t !in p.anc[t])
    && (forall t, a :: t in p.txs && a in p.anc[t] ==> p.anc[a] <= p.anc[t])
    && (forall t :: t in p.txs ==> 0 < p.txs[t].size && p.txs[t].weight <= WITNESS_SCALE_FACTOR * p.txs[t].size)
  }

  function SizeOf(p: Pool): TxId -> int {
    t => if t in p.txs then p.txs[t].size else 0
  }

  function WeightOf(p: Pool): TxId -> int {
    t => if t in p.txs then p.txs[t].weight else 0
  }

  function SigOpsOf(p: Pool): TxId -> int {
    t => if t in p.txs then p.txs[t].sigops else 0
  }

  function FeeOf(p: Pool): TxId -> int {
    t => if t in p.txs then p.txs[t].fee else 0
  }

  function ModFeeOf(p: Pool): TxId -> int {
    t => if t in p.txs then p.txs[t].modFee else 0
  }

  /** What prioritisation added to the fee. */
  function PriorityOf(p: Pool): TxId -> int {
    t => if t in p.txs then p.txs[t].modFee - p.txs[t].fee else 0
  }

  /** Totals of a transaction with its ancestors, as the pool caches them or as they were corrected. */
  datatype Entry = Entry(size: int, fees: int, sigops: int)

  /** The cached totals are exact. */
  ghost predicate CachedOk(p: Pool, cached: map<TxId, Entry>) {
    cached.Keys == p.txs.Keys && p.anc.Keys == p.txs.Keys &&
    forall t :: t in cached ==>
      cached[t] == Entry(Total(SizeOf(p), p.anc[t] + {t}), Total(ModFeeOf(p), p.anc[t] + {t}), Total(SigOpsOf(p), p.anc[t] + {t}))
  }

  // ----- The block

  /** What of a package is not yet in the block. */
  function Left(p: Pool, inBlock: set<TxId>, t: TxId): set<TxId>
    requires t in p.anc
  {
    p.anc[t] + {t} - inBlock
  }

  function Elements(vtx: seq<TxId>): set<TxId> {
    set x | x in vtx
  }

  /** Every transaction once, after all its ancestors. */
  ghost predicate Ordered(p: Pool, vtx: seq<TxId>) {
    && (forall i :: 0 <= i < |vtx| ==> vtx[i] in p.anc && p.anc[vtx[i]] <= Elements(vtx[..i]))
    && (forall i, j :: 0 <= i < j < |vtx| ==> vtx[i] != vtx[j])
  }

  /** The running counters of the block. */
  datatype Counters = Counters(weight: int, sigops: int, fees: int, txs: int)

  /** The counters are the sums over the block; a non-empty block is within the limits. */
  ghost predicate CountersOk(p: Pool, maxWeight: int, inBlock: set<TxId>, c: Counters) {
    && c.weight == RESERVED_WEIGHT + Total(WeightOf(p), inBlock)
    && c.sigops == RESERVED_SIGOPS + Total(SigOpsOf(p), inBlock)
    && c.fees == Total(FeeOf(p), inBlock) && c.txs == |inBlock|
    && (inBlock != {} ==> c.weight < maxWeight && c.sigops < MAX_BLOCK_SIGOPS_COST)
  }

  ghost predicate BlockOk(p: Pool, vtx: seq<TxId>, inBlock: set<TxId>) {
    Ordered(p, vtx) && Elements(vtx) == inBlock && inBlock <= p.txs.Keys
  }

  /** A block is closed under ancestors. */
  lemma BlockIsClosed(p: Pool, vtx: seq<TxId>, inBlock: set<TxId>, t: TxId)
    requires PoolOk(p) && BlockOk(p, vtx, inBlock) && t in inBlock
    ensures p.anc[t] <= inBlock
  {
    var i :| 0 <= i < |vtx| && vtx[i] == t;
    assert Elements(vtx[..i]) <= Elements(vtx);
  }

  /** Ancestor counts, by which packages are sorted. */
  function Count(p: Pool, t: TxId): nat
    requires t in p.anc
  {
    |p.anc[t]| + 1
  }

  lemma SubsetSize(a: set<TxId>, b: set<TxId>, x: TxId)
    requires a <= b && x in b && x !in a
    ensures |a| < |b|
  {
    assert b == a + (b - a);
    assert x in b - a;
  }

  /** An ancestor has a smaller count. */
  lemma CountGrows(p: Pool, a: TxId, t: TxId)
    requires PoolOk(p) && t in p.txs && a in p.anc[t]
    ensures Count(p, a) < Count(p, t)
  {
    SubsetSize(p.anc[a], p.anc[t], a);
  }

  /** A package in the order of ancestor counts. */
  ghost predicate SortedPackage(p: Pool, package: set<TxId>, sorted: seq<TxId>) {
    && Elements(sorted) == package && package <= p.anc.Keys
    && (forall i, j :: 0 <= i < j < |sorted| ==> sorted[i] != sorted[j])
    && (forall i, j :: 0 <= i < j < |sorted| ==> CountLe(p, sorted[i], sorted[j]))
  }

  predicate CountLe(p: Pool, a: TxId, b: TxId) {
    a in p.anc && b in p.anc && Count(p, a) <= Count(p, b)
  }

  /** Appending what is left of a package, sorted, keeps the block in order. */
  lemma PackageFits(p: Pool, vtx: seq<TxId>, inBlock: set<TxId>, t: TxId, sorted: seq<TxId>)
    requires PoolOk(p) && BlockOk(p, vtx, inBlock) && t in p.txs && t !in inBlock
    requires SortedPackage(p, Left(p, inBlock, t), sorted)
    ensures BlockOk(p, vtx + sorted, inBlock + Left(p, inBlock, t))
  {
    var all := vtx + sorted;
    forall i | 0 <= i < |all| ensures all[i] in p.anc && p.anc[all[i]] <= Elements(all[..i]) {
      if i < |vtx| {
        assert all[..i] == vtx[..i];
      } else {
        AncestorsBefore(p, vtx, inBlock, t, sorted, i - |vtx|);
        assert all[..i] == vtx + sorted[..i - |vtx|];
      }
    }
    forall i, j | 0 <= i < j < |all| ensures all[i] != all[j] {
      if i < |vtx| <= j {
        assert vtx[i] in Elements(vtx) && sorted[j - |vtx|] in Elements(sorted);
      }
    }
    assert Elements(all) == Elements(vtx) + Elements(sorted);
  }

  lemma AncestorsBefore(p: Pool, vtx: seq<TxId>, inBlock: set<TxId>, t: TxId, sorted: seq<TxId>, k: nat)
    requires PoolOk(p) && Elements(vtx) == inBlock && t in p.txs && k < |sorted|
    requires SortedPackage(p, Left(p, inBlock, t), sorted)
    ensures sorted[k] in p.anc && p.anc[sorted[k]] <= Elements(vtx + sorted[..k])
  {
    var x := sorted[k];
    assert x in Elements(sorted);
    forall a | a in p.anc[x] ensures a in Elements(vtx + sorted[..k]) {
      if a in inBlock {
        assert a in vtx;
      } else {
        assert a in p.anc[t] + {t};
        assert a in Elements(sorted);
        var i :| 0 <= i < |sorted| && sorted[i] == a;
        CountGrows(p, a, x);
        assert !CountLe(p, x, a);
        assert i < k;
        assert sorted[..k][i] == a;
      }
    }
  }

  // ----- Corrected totals

  /** Corrected entries are for transactions outside the block and never too small. */
  ghost predicate ModOk(p: Pool, inBlock: set<TxId>, m: map<TxId, Entry>) {
    forall t :: t in m ==> t in p.txs && t in p.anc && t !in inBlock && EntryOk(p, inBlock, t, m[t])
  }

  /** Size and signature operations of an entry cover what is left of its package. */
  ghost predicate EntryOk(p: Pool, inBlock: set<TxId>, t: TxId, e: Entry)
    requires t in p.anc
  {
    e.size >= Total(SizeOf(p), Left(p, inBlock, t)) && e.sigops >= Total(SigOpsOf(p), Left(p, inBlock, t))
  }

  lemma CachedCovers(p: Pool, cached: map<TxId, Entry>, inBlock: set<TxId>, t: TxId)
    requires CachedOk(p, cached) && t in p.txs
    ensures EntryOk(p, inBlock, t, cached[t])
  {
    hide Total;
    TotalMono(SizeOf(p), Left(p, inBlock, t), p.anc[t] + {t});
    TotalMono(SigOpsOf(p), Left(p, inBlock, t), p.anc[t] + {t});
  }

  /** One more ancestor of `t` in the block: what is left shrinks by exactly it. */
  lemma LeftShrinks(p: Pool, inBlock: set<TxId>, t: TxId, it: TxId, f: TxId -> int)
    requires t in p.anc && it in p.anc[t] + {t} && it !in inBlock
    ensures Total(f, Left(p, inBlock + {it}, t)) == Total(f, Left(p, inBlock, t)) - f(it)
  {
    TotalRemove(f, Left(p, inBlock, t), it);
    assert Left(p, inBlock + {it}, t) == Left(p, inBlock, t) - {it};
  }

  /** The entry of a descendant once `it` is in the block (`m` and the cached totals before). */
  function Corrected(p: Pool, cached: map<TxId, Entry>, m: map<TxId, Entry>, t: TxId, it: TxId): Entry
    requires t in cached && it in p.txs
  {
    var tx := p.txs[it];
    if t in m then Entry(m[t].size - tx.size, m[t].fees - tx.fee, m[t].sigops - tx.sigops)
    else Entry(cached[t].size - tx.size, cached[t].fees - tx.modFee, cached[t].sigops - tx.sigops)
  }

  /** Ancestors in the block. */
  function Included(p: Pool, inBlock: set<TxId>, t: TxId): set<TxId>
    requires t in p.anc
  {
    p.anc[t] * inBlock
  }

  /**
   * Corrected fees are those of what is left of the package, but for the priorities of all included
   * ancestors except `first`, the one that was accounted for first.
   */
  ghost predicate FeesOff(p: Pool, inBlock: set<TxId>, t: TxId, fees: int, first: TxId)
    requires t in p.anc
  {
    && first in Included(p, inBlock, t)
    && fees == Total(ModFeeOf(p), Left(p, inBlock, t)) + Total(PriorityOf(p), Included(p, inBlock, t) - {first})
  }

  ghost predicate FeesKnown(p: Pool, inBlock: set<TxId>, t: TxId, fees: int)
    requires t in p.anc
  {
    if Included(p, inBlock, t) == {} then fees == Total(ModFeeOf(p), Left(p, inBlock, t))
    else exists first :: FeesOff(p, inBlock, t, fees, first)
  }

  /** Size and signature operations of an entry are exactly those of what is left of its package, and its fees are known. */
  ghost predicate EntryExact(p: Pool, inBlock: set<TxId>, t: TxId, e: Entry)
    requires t in p.anc
  {
    && e.size == Total(SizeOf(p), Left(p, inBlock, t)) && e.sigops == Total(SigOpsOf(p), Left(p, inBlock, t))
    && FeesKnown(p, inBlock, t, e.fees)
  }

  /**
   * A transaction outside the block that has not failed: it has a corrected entry exactly when an
   * ancestor of it is in the block, and that is exact; otherwise its cached totals are.
   */
  ghost predicate ExactOk(p: Pool, inBlock: set<TxId>, failed: set<TxId>, m: map<TxId, Entry>, t: TxId)
    requires t in p.anc
  {
    t !in failed ==>
      if t in m then EntryExact(p, inBlock, t, m[t]) && Included(p, inBlock, t) != {} else p.anc[t] !! inBlock
  }

  ghost predicate AllExact(p: Pool, inBlock: set<TxId>, added: set<TxId>, failed: set<TxId>, m: map<TxId, Entry>) {
    forall t :: t in p.txs && t !in inBlock && t !in added ==> t in p.anc && ExactOk(p, inBlock, failed, m, t)
  }

  /** `m'` corrects the entries of the descendants of `it` outside `added`, and no others. */
  ghost predicate UpdatedFor(p: Pool, cached: map<TxId, Entry>, added: set<TxId>, it: TxId, m: map<TxId, Entry>, m': map<TxId, Entry>)
    requires p.anc.Keys == p.txs.Keys == cached.Keys && it in p.txs
  {
    && (forall t :: t in m' <==> t in m || t in Descendants(p, it) - added)
    && (forall t :: t in m' ==>
          m'[t] == if t in Descendants(p, it) - added then Corrected(p, cached, m, t, it) else m[t])
  }

  function Descendants(p: Pool, it: TxId): (r: set<TxId>)
    requires p.anc.Keys == p.txs.Keys
    ensures forall t :: t in r <==> t in p.txs && it in p.anc[t]
  {
    set t | t in p.txs && it in p.anc[t]
  }

  lemma CorrectedCovers(p: Pool, cached: map<TxId, Entry>, m: map<TxId, Entry>, inBlock: set<TxId>, t: TxId, it: TxId)
    requires CachedOk(p, cached) && ModOk(p, inBlock, m) && t in p.txs && it in p.txs && it in p.anc[t] && it !in inBlock
    ensures EntryOk(p, inBlock + {it}, t, Corrected(p, cached, m, t, it))
  {
    hide Total;
    if t !in m {
      CachedCovers(p, cached, inBlock, t);
    }
    LeftShrinks(p, inBlock, t, it, SizeOf(p));
    LeftShrinks(p, inBlock, t, it, SigOpsOf(p));
  }

  lemma CorrectedExact(p: Pool, cached: map<TxId, Entry>, m: map<TxId, Entry>, inBlock: set<TxId>, failed: set<TxId>, t: TxId, it: TxId)
    requires CachedOk(p, cached) && t in p.txs && it in p.txs && it in p.anc[t] && it !in inBlock && t !in inBlock && t !in failed
    requires ExactOk(p, inBlock, failed, m, t)
    ensures EntryExact(p, inBlock + {it}, t, Corrected(p, cached, m, t, it)) && Included(p, inBlock + {it}, t) != {}
  {
    hide Total, FeesKnown;
    if t !in m {
      assert Left(p, inBlock, t) == p.anc[t] + {t};
    }
    LeftShrinks(p, inBlock, t, it, SizeOf(p));
    LeftShrinks(p, inBlock, t, it, SigOpsOf(p));
    CorrectedFees(p, cached, m, inBlock, t, it);
    assert it in Included(p, inBlock + {it}, t);
  }

  /** The first ancestor takes its modified fee out of the cached total, later ones their plain fees. */
  lemma CorrectedFees(p: Pool, cached: map<TxId, Entry>, m: map<TxId, Entry>, inBlock: set<TxId>, t: TxId, it: TxId)
    requires CachedOk(p, cached) && t in p.txs && it in p.txs && it in p.anc[t] && it !in inBlock && t !in inBlock
    requires if t in m then FeesKnown(p, inBlock, t, m[t].fees) && Included(p, inBlock, t) != {} else p.anc[t] !! inBlock
    ensures FeesKnown(p, inBlock + {it}, t, Corrected(p, cached, m, t, it).fees)
  {
    hide Total, FeesOff, CachedOk;
    Keyed(p, cached);
    assert it in Included(p, inBlock + {it}, t);
    if t in m {
      var first :| FeesOff(p, inBlock, t, m[t].fees, first);
      OffMore(p, inBlock, t, it, first, m[t].fees);
    } else {
      OffOnce(p, cached, inBlock, t, it);
    }
  }

  lemma OffOnce(p: Pool, cached: map<TxId, Entry>, inBlock: set<TxId>, t: TxId, it: TxId)
    requires CachedOk(p, cached) && t in p.txs && it in p.txs && it in p.anc[t] && p.anc[t] !! inBlock && t !in inBlock
    ensures FeesOff(p, inBlock + {it}, t, cached[t].fees - p.txs[it].modFee, it)
  {
    hide Total;
    LeftShrinks(p, inBlock, t, it, ModFeeOf(p));
    assert Left(p, inBlock, t) == p.anc[t] + {t};
    assert Included(p, inBlock + {it}, t) - {it} == {};
    TotalConst<TxId>(PriorityOf(p), {}, 0);
  }

  lemma OffMore(p: Pool, inBlock: set<TxId>, t: TxId, it: TxId, first: TxId, fees: int)
    requires t in p.anc && it in p.txs && it in p.anc[t] && it !in inBlock && FeesOff(p, inBlock, t, fees, first)
    ensures FeesOff(p, inBlock + {it}, t, fees - p.txs[it].fee, first)
  {
    hide Total;
    var s := Included(p, inBlock, t);
    LeftShrinks(p, inBlock, t, it, ModFeeOf(p));
    TotalAdd(PriorityOf(p), s - {first}, it);
    assert Included(p, inBlock + {it}, t) - {first} == s - {first} + {it};
  }

  /** Correcting for one added transaction keeps entries covering, and exact where they were. */
  lemma UpdateKeeps(p: Pool, cached: map<TxId, Entry>, inBlock: set<TxId>, added: set<TxId>, failed: set<TxId>, it: TxId, m: map<TxId, Entry>, m': map<TxId, Entry>)
    requires PoolOk(p) && CachedOk(p, cached) && it in p.txs && it in added && it !in inBlock
    requires (forall t :: t in inBlock && t !in added && t in p.anc ==> it !in p.anc[t]) && m.Keys !! added
    requires ModOk(p, inBlock, m) && AllExact(p, inBlock, added, failed, m) && UpdatedFor(p, cached, added, it, m, m')
    ensures ModOk(p, inBlock + {it}, m') && AllExact(p, inBlock + {it}, added, failed, m') && m'.Keys !! added
  {
    hide Total, EntryOk, EntryExact, CachedOk, Corrected;
    forall t | t in m' ensures t in p.txs && t !in inBlock + {it} && EntryOk(p, inBlock + {it}, t, m'[t]) {
      if t in Descendants(p, it) {
        CorrectedCovers(p, cached, m, inBlock, t, it);
      } else {
        OthersCovered(p, inBlock, t, it, m[t]);
      }
    }
    forall t | t in p.txs && t !in inBlock + {it} && t !in added ensures ExactOk(p, inBlock + {it}, failed, m', t) {
      assert ExactOk(p, inBlock, failed, m, t);
      if t !in failed {
        if it in p.anc[t] {
          CorrectedExact(p, cached, m, inBlock, failed, t, it);
        } else if t in m {
          OthersExact(p, inBlock, t, it, m[t]);
        }
      }
    }
  }

  /** An entry that covers what is left still does when `it`, no ancestor, joins the block. */
  lemma OthersCovered(p: Pool, inBlock: set<TxId>, t: TxId, it: TxId, e: Entry)
    requires t in p.anc && EntryOk(p, inBlock, t, e) && it !in p.anc[t] + {t}
    ensures EntryOk(p, inBlock + {it}, t, e)
  {
    assert Left(p, inBlock + {it}, t) == Left(p, inBlock, t);
  }

  lemma OthersExact(p: Pool, inBlock: set<TxId>, t: TxId, it: TxId, e: Entry)
    requires t in p.anc && EntryExact(p, inBlock, t, e) && it !in p.anc[t] + {t}
    ensures EntryExact(p, inBlock + {it}, t, e) && Included(p, inBlock + {it}, t) == Included(p, inBlock, t)
  {
    SameFees(p, inBlock, {it}, t, e.fees);
  }

  /** Transactions that are no ancestors do not touch what is left and what is included. */
  lemma SameFees(p: Pool, inBlock: set<TxId>, more: set<TxId>, t: TxId, fees: int)
    requires t in p.anc && p.anc[t] + {t} !! more
    ensures Left(p, inBlock + more, t) == Left(p, inBlock, t) && Included(p, inBlock + more, t) == Included(p, inBlock, t)
    ensures FeesKnown(p, inBlock, t, fees) ==> FeesKnown(p, inBlock + more, t, fees)
  {
    hide Total;
    assert Left(p, inBlock + more, t) == Left(p, inBlock, t) && Included(p, inBlock + more, t) == Included(p, inBlock, t);
    if FeesKnown(p, inBlock, t, fees) && Included(p, inBlock, t) != {} {
      var first :| FeesOff(p, inBlock, t, fees, first);
      assert FeesOff(p, inBlock + more, t, fees, first);
    }
  }

  // ----- Corrected fees and the order of inclusion

  predicate AllIn(p: Pool, order: seq<TxId>) {
    forall i :: 0 <= i < |order| ==> order[i] in p.txs
  }

  /** The entry of `t` after these ancestors went in, in this order. */
  function EntryAfter(p: Pool, cached: map<TxId, Entry>, t: TxId, order: seq<TxId>): Entry
    requires t in cached && AllIn(p, order)
  {
    if order == [] then cached[t]
    else
      var before := order[..|order| - 1];
      Corrected(p, cached, if before == [] then map[] else map[t := EntryAfter(p, cached, t, before)], t, order[|order| - 1])
  }

  ghost predicate Enumerates(order: seq<TxId>, s: set<TxId>) {
    Elements(order) == s && forall i, j :: 0 <= i < j < |order| ==> order[i] != order[j]
  }

  lemma FeesAfterLast(p: Pool, cached: map<TxId, Entry>, t: TxId, order: seq<TxId>)
    requires t in cached && order != [] && AllIn(p, order)
    ensures var k := |order| - 1;
      EntryAfter(p, cached, t, order).fees ==
      if k == 0 then cached[t].fees - p.txs[order[0]].modFee else EntryAfter(p, cached, t, order[..k]).fees - p.txs[order[k]].fee
  {
  }

  /** One more ancestor after the first: its priority stays in. */
  lemma FeesStep(p: Pool, t: TxId, done: set<TxId>, first: TxId, it: TxId, fees: int)
    requires t in p.anc && it in p.txs && it in p.anc[t] && it !in done && first in done
    requires fees == Total(ModFeeOf(p), Left(p, done, t)) + Total(PriorityOf(p), done - {first})
    ensures fees - p.txs[it].fee ==
            Total(ModFeeOf(p), Left(p, done + {it}, t)) + Total(PriorityOf(p), done + {it} - {first})
  {
    hide Total;
    LeftShrinks(p, done, t, it, ModFeeOf(p));
    TotalAdd(PriorityOf(p), done - {first}, it);
    assert done + {it} - {first} == done - {first} + {it};
  }

  lemma FeesFirst(p: Pool, cached: map<TxId, Entry>, t: TxId, it: TxId)
    requires CachedOk(p, cached) && t in p.txs && it in p.txs && it in p.anc[t]
    ensures cached[t].fees - p.txs[it].modFee == Total(ModFeeOf(p), Left(p, {it}, t)) + Total(PriorityOf(p), {it} - {it})
  {
    hide Total;
    LeftShrinks(p, {}, t, it, ModFeeOf(p));
    assert Left(p, {}, t) == p.anc[t] + {t} && {} + {it} == {it};
    TotalConst(PriorityOf(p), {it} - {it}, 0);
  }

  lemma LastElement(order: seq<TxId>)
    requires order != [] && Enumerates(order, Elements(order))
    ensures var before := order[..|order| - 1];
      && Enumerates(before, Elements(before)) && order[|order| - 1] !in Elements(before)
      && Elements(order) == Elements(before) + {order[|order| - 1]}
  {
    assert order == order[..|order| - 1] + [order[|order| - 1]];
  }

  lemma OrderInPool(p: Pool, t: TxId, order: seq<TxId>)
    requires PoolOk(p) && t in p.txs && Elements(order) <= p.anc[t]
    ensures AllIn(p, order) && forall i :: 0 <= i < |order| ==> order[i] in p.txs && order[i] in p.anc[t]
  {
    forall i | 0 <= i < |order| ensures order[i] in p.txs && order[i] in p.anc[t] {
      assert order[i] in Elements(order);
    }
  }

  /** Fees off by the priorities of these ancestors but the first. */
  ghost predicate OffByPriorities(p: Pool, t: TxId, order: seq<TxId>, fees: int)
    requires t in p.anc && order != []
  {
    fees == Total(ModFeeOf(p), Left(p, Elements(order), t)) + Total(PriorityOf(p), Elements(order) - {order[0]})
  }

  lemma OffFirst(p: Pool, cached: map<TxId, Entry>, t: TxId, it: TxId)
    requires CachedOk(p, cached) && t in p.txs && it in p.txs && it in p.anc[t]
    ensures OffByPriorities(p, t, [it], cached[t].fees - p.txs[it].modFee)
  {
    hide Total;
    SingleElement(it);
    FeesFirst(p, cached, t, it);
  }

  lemma OffStep(p: Pool, t: TxId, order: seq<TxId>, fees: int)
    requires |order| > 1 && Enumerates(order, Elements(order)) && AllIn(p, order) && t in p.anc && order[|order| - 1] in p.anc[t]
    requires OffByPriorities(p, t, order[..|order| - 1], fees)
    ensures OffByPriorities(p, t, order, fees - p.txs[order[|order| - 1]].fee)
  {
    var k := |order| - 1;
    LastElement(order);
    FirstElement(order[..k]);
    hide Total, Elements, Left, ModFeeOf, PriorityOf;
    FeesStep(p, t, Elements(order[..k]), order[0], order[k], fees);
  }

  /** Whatever the order, corrected fees are off by the priorities of all included ancestors but the first. */
  lemma {:induction false} FeesAfter(p: Pool, cached: map<TxId, Entry>, t: TxId, order: seq<TxId>)
    requires PoolOk(p) && CachedOk(p, cached) && t in p.txs && order != [] && Enumerates(order, Elements(order))
    requires Elements(order) <= p.anc[t]
    ensures AllIn(p, order) && OffByPriorities(p, t, order, EntryAfter(p, cached, t, order).fees)
    decreases |order|
  {
    hide CachedOk, PoolOk, Enumerates, Elements, EntryAfter, OffByPriorities, AllIn;
    Keyed(p, cached);
    OrderInPool(p, t, order);
    LastElement(order);
    PrefixIn(p, order);
    var k := |order| - 1;
    FeesAfterLast(p, cached, t, order);
    if k == 0 {
      assert order == [order[0]];
      OffFirst(p, cached, t, order[0]);
    } else {
      FeesAfter(p, cached, t, order[..k]);
      OffStep(p, t, order, EntryAfter(p, cached, t, order[..k]).fees);
    }
  }

  lemma PrefixIn(p: Pool, order: seq<TxId>)
    requires AllIn(p, order) && order != []
    ensures AllIn(p, order[..|order| - 1])
  {
  }

  lemma SingleElement(x: TxId)
    ensures Elements([x]) == {x}
  {
  }

  lemma FirstElement(order: seq<TxId>)
    requires order != []
    ensures order[0] in Elements(order)
  {
  }

  lemma Keyed(p: Pool, cached: map<TxId, Entry>)
    requires CachedOk(p, cached)
    ensures p.anc.Keys == p.txs.Keys == cached.Keys
  {
  }

  lemma {:induction false} EnumeratedFrom(s: set<TxId>, x: TxId) returns (order: seq<TxId>)
    requires x in s
    ensures Enumerates(order, s) && order != [] && order[0] == x
    decreases |s|
  {
    order := [x];
    if s - {x} == {} {
      assert s == {x};
    } else {
      var y :| y in s - {x};
      var rest := EnumeratedFrom(s - {x}, y);
      forall i | 0 <= i < |rest| ensures rest[i] != x {
        assert rest[i] in Elements(rest);
      }
      order := [x] + rest;
      assert Elements(order) == {x} + Elements(rest);
    }
  }

  /**
   * The fees of `t` come out as the modified fees of what is left, in whatever order these ancestors
   * are accounted for, if and only if there is at most one of them or none was prioritised.
   */
  lemma FeesExactIff(p: Pool, cached: map<TxId, Entry>, t: TxId, s: set<TxId>)
    requires PoolOk(p) && CachedOk(p, cached) && t in p.txs && s <= p.anc[t]
    ensures (forall order :: Enumerates(order, s) ==> FeesExact(p, cached, t, order)) <==>
            |s| <= 1 || forall x :: x in s ==> p.txs[x].modFee == p.txs[x].fee
  {
    hide Total, CachedOk, EntryAfter, Enumerates;
    forall order | Enumerates(order, s) && order != [] ensures order[0] in s && (FeesExact(p, cached, t, order) <==> Total(PriorityOf(p), s - {order[0]}) == 0) {
      FeesOfOrder(p, cached, t, s, order);
    }
    if s == {} {
      forall order | Enumerates(order, s) ensures FeesExact(p, cached, t, order) {
        NoneAccounted(p, cached, t, order);
      }
    } else if |s| == 1 {
      var x :| x in s;
      assert s == {x} by { TwoOrOne(s, x); }
      assert Total(PriorityOf(p), {}) == 0 by { TotalConst<TxId>(PriorityOf(p), {}, 0); }
      assert s - {x} == {};
      forall order | Enumerates(order, s) ensures FeesExact(p, cached, t, order) {
        NotEmpty(order, s);
      }
    } else {
      AllButOneIff(PriorityOf(p), s);
      forall order | Enumerates(order, s) ensures order != [] {
        NotEmpty(order, s);
      }
      if forall order :: Enumerates(order, s) ==> FeesExact(p, cached, t, order) {
        forall x | x in s ensures Total(PriorityOf(p), s - {x}) == 0 {
          var order := EnumeratedFrom(s, x);
          assert FeesExact(p, cached, t, order);
        }
        forall x | x in s ensures p.txs[x].modFee == p.txs[x].fee {
          assert PriorityOf(p)(x) == 0;
        }
      }
      if forall x :: x in s ==> p.txs[x].modFee == p.txs[x].fee {
        assert forall x :: x in s ==> PriorityOf(p)(x) == 0;
      }
    }
  }

  ghost predicate FeesExact(p: Pool, cached: map<TxId, Entry>, t: TxId, order: seq<TxId>) {
    && t in cached && t in p.anc && AllIn(p, order)
    && EntryAfter(p, cached, t, order).fees == Total(ModFeeOf(p), Left(p, Elements(order), t))
  }

  lemma FeesOfOrder(p: Pool, cached: map<TxId, Entry>, t: TxId, s: set<TxId>, order: seq<TxId>)
    requires PoolOk(p) && CachedOk(p, cached) && t in p.txs && s <= p.anc[t] && Enumerates(order, s) && order != []
    ensures order[0] in s && (FeesExact(p, cached, t, order) <==> Total(PriorityOf(p), s - {order[0]}) == 0)
  {
    hide Total, EntryAfter, CachedOk, PoolOk, Left, ModFeeOf, PriorityOf, AllIn;
    Keyed(p, cached);
    FirstElement(order);
    FeesAfter(p, cached, t, order);
  }

  lemma NoneAccounted(p: Pool, cached: map<TxId, Entry>, t: TxId, order: seq<TxId>)
    requires PoolOk(p) && CachedOk(p, cached) && t in p.txs && Enumerates(order, {})
    ensures FeesExact(p, cached, t, order)
  {
    hide Total;
    assert order == [] by { NoElements(order); }
    assert Left(p, {}, t) == p.anc[t] + {t};
  }

  lemma {:induction false} NoElements(order: seq<TxId>)
    requires Elements(order) == {}
    ensures order == []
  {
    if 0 < |order| {
      FirstElement(order);
      assert false;
    }
  }

  lemma NotEmpty(order: seq<TxId>, s: set<TxId>)
    requires Enumerates(order, s) && s != {}
    ensures order != []
  {
  }

  lemma TwoOrOne(s: set<TxId>, x: TxId)
    requires x in s && |s| == 1
    ensures s == {x}
  {
    assert |s - {x}| == 0;
  }

  /** Without prioritised ancestors in the block, the fees of an exact entry are those of what is left. */
  lemma PlainFees(p: Pool, inBlock: set<TxId>, t: TxId, e: Entry)
    requires t in p.anc && EntryExact(p, inBlock, t, e)
    requires forall x :: x in Included(p, inBlock, t) && x in p.txs ==> p.txs[x].modFee == p.txs[x].fee
    ensures e.fees == Total(ModFeeOf(p), Left(p, inBlock, t))
  {
    hide Total;
    var s := Included(p, inBlock, t);
    if s != {} {
      var first :| FeesOff(p, inBlock, t, e.fees, first);
      TotalConst(PriorityOf(p), s - {first}, 0);
    }
  }

  /** Two transactions, the first of them prioritised, and one that spends from both. */
  const PRIORITY := Pool(map[0 := PLAIN.(modFee := 10), 1 := PLAIN, 2 := PLAIN], map[0 := {}, 1 := {}, 2 := {0, 1}])

  lemma PriorityOk()
    ensures PoolOk(PRIORITY) && Elements([0, 1]) == {0, 1} == Elements([1, 0]) && Left(PRIORITY, {0, 1}, 2) == {2}
    ensures ModFeeOf(PRIORITY)(2) == 0 && PriorityOf(PRIORITY)(1) == 0 && PriorityOf(PRIORITY)(0) == 10
  {
  }

  /** The two orders of the same inclusions leave different fees. */
  lemma FeesDependOnOrder(cached: map<TxId, Entry>)
    requires CachedOk(PRIORITY, cached)
    ensures 2 in cached && 0 in PRIORITY.txs && 1 in PRIORITY.txs
    ensures EntryAfter(PRIORITY, cached, 2, [0, 1]).fees == 0 && EntryAfter(PRIORITY, cached, 2, [1, 0]).fees == 10
  {
    PriorityOk();
    hide Total, PoolOk, CachedOk, EntryAfter, Left, ModFeeOf, PriorityOf, Elements;
    Keyed(PRIORITY, cached);
    FeesAfter(PRIORITY, cached, 2, [0, 1]);
    FeesAfter(PRIORITY, cached, 2, [1, 0]);
    assert {0, 1} - {0} == {1} && {0, 1} - {1} == {0};
    TotalConst(ModFeeOf(PRIORITY), {2}, 0);
    TotalConst(PriorityOf(PRIORITY), {1}, 0);
    TotalConst(PriorityOf(PRIORITY), {0}, 10);
  }

  /** The counters after a set of transactions was added. */
  ghost predicate Grown(p: Pool, c: Counters, package: set<TxId>, c': Counters) {
    && c'.weight == c.weight + Total(WeightOf(p), package) && c'.sigops == c.sigops + Total(SigOpsOf(p), package)
    && c'.fees == c.fees + Total(FeeOf(p), package) && c'.txs == c.txs + |package|
  }

  /** Growing the block by a set of transactions. */
  lemma CountersGrow(p: Pool, maxWeight: int, inBlock: set<TxId>, c: Counters, package: set<TxId>, c': Counters)
    requires CountersOk(p, maxWeight, inBlock, c) && inBlock !! package
    requires Grown(p, c, package, c')
    requires c'.weight < maxWeight && c'.sigops < MAX_BLOCK_SIGOPS_COST
    ensures CountersOk(p, maxWeight, inBlock + package, c')
  {
    hide Total, WeightOf, SigOpsOf, FeeOf;
    TotalUnion(WeightOf(p), inBlock, package);
    TotalUnion(SigOpsOf(p), inBlock, package);
    TotalUnion(FeeOf(p), inBlock, package);
  }

  predicate TestPackage(maxWeight: int, c: Counters, packageSize: int, packageSigOps: int) {
    c.weight + WITNESS_SCALE_FACTOR * packageSize < maxWeight && c.sigops + packageSigOps < MAX_BLOCK_SIGOPS_COST
  }

  /** A package that passes the test on totals that cover it stays within both limits. */
  lemma TestedFits(p: Pool, maxWeight: int, c: Counters, inBlock: set<TxId>, t: TxId, e: Entry)
    requires PoolOk(p) && t in p.txs && EntryOk(p, inBlock, t, e) && TestPackage(maxWeight, c, e.size, e.sigops)
    ensures c.weight + Total(WeightOf(p), Left(p, inBlock, t)) < maxWeight
    ensures c.sigops + Total(SigOpsOf(p), Left(p, inBlock, t)) < MAX_BLOCK_SIGOPS_COST
  {
    var s := Left(p, inBlock, t);
    TotalScaled(p, s);
  }

  lemma {:induction false} TotalScaled(p: Pool, s: set<TxId>)
    requires PoolOk(p)
    ensures Total(WeightOf(p), s) <= WITNESS_SCALE_FACTOR * Total(SizeOf(p), s)
  {
    if s != {} {
      var x :| x in s;
      TotalScaled(p, s - {x});
      TotalRemove(WeightOf(p), s, x);
      TotalRemove(SizeOf(p), s, x);
    }
  }

  // ----- Scores

  /** One score before another: the higher fee rate, cross-multiplied, and among equals the smaller hash. */
  predicate Above(a: Entry, x: TxId, b: Entry, y: TxId) {
    var f1, f2 := a.fees * b.size, b.fees * a.size;
    if f1 == f2 then x < y else f1 > f2
  }

  /** A fee rate no higher than another. */
  predicate RateLe(a: Entry, b: Entry) {
    a.fees * b.size <= b.fees * a.size
  }

  predicate RateLess(a: Entry, b: Entry) {
    a.fees * b.size < b.fees * a.size
  }

  lemma AboveIs(a: Entry, x: TxId, b: Entry, y: TxId)
    ensures Above(a, x, b, y) <==> RateLess(b, a) || (RateLe(a, b) && RateLe(b, a) && x < y)
    ensures (RateLess(b, a) <==> !RateLe(a, b)) && (RateLess(a, b) <==> !RateLe(b, a))
    ensures RateLe(a, b) || RateLe(b, a)
  {
  }

  lemma RateTrans(a: Entry, b: Entry, c: Entry)
    requires RateLe(a, b) && RateLe(b, c) && a.size > 0 && b.size > 0 && c.size > 0
    ensures RateLe(a, c) && (RateLess(a, b) || RateLess(b, c) ==> RateLess(a, c))
  {
    Chained(a.fees, a.size, b.fees, b.size, c.fees, c.size);
  }

  lemma Chained(af: int, s: int, bf: int, t: int, cf: int, u: int)
    requires af * t <= bf * s && bf * u <= cf * t && s > 0 && t > 0 && u > 0
    ensures af * u <= cf * s && (af * t < bf * s || bf * u < cf * t ==> af * u < cf * s)
  {
    Scaled(af * t, bf * s, u);
    Scaled(bf * u, cf * t, s);
    assert (af * t) * u == t * (af * u) && (bf * s) * u == (bf * u) * s && (cf * t) * s == t * (cf * s);
    if af * u > cf * s {
      Scaled(cf * s, af * u, t);
      assert false;
    }
    if af * u == cf * s {
      assert t * (af * u) == t * (cf * s);
    }
  }

  lemma Scaled(x: int, y: int, k: int)
    requires x <= y && k > 0
    ensures x * k <= y * k && (x < y ==> x * k < y * k)
  {
    assert (y - x) * k == y * k - x * k;
    if x < y {
      PositiveProduct(y - x, k);
    }
  }

  lemma PositiveProduct(a: int, b: int)
    requires a > 0 && b > 0
    ensures a * b > 0
  {
  }

  /** What is not above `b` is not above anything that is above `b`. */
  lemma AboveTrans(a: Entry, x: TxId, b: Entry, y: TxId, c: Entry, z: TxId)
    requires !Above(a, x, b, y) && Above(c, z, b, y) && a.size > 0 && b.size > 0 && c.size > 0
    ensures !Above(a, x, c, z)
  {
    AboveIs(a, x, b, y);
    AboveIs(c, z, b, y);
    AboveIs(a, x, c, z);
    hide Above, RateLe, RateLess;
    RateTrans(a, b, c);
  }

  /** The entry with the best score. */
  ghost predicate IsBest(m: map<TxId, Entry>, b: TxId) {
    b in m && forall x :: x in m ==> !Above(m[x], x, m[b], b)
  }

  /** The pool in the order of its cached scores. */
  ghost predicate ByScore(cached: map<TxId, Entry>, order: seq<TxId>) {
    && (forall i :: 0 <= i < |order| ==> order[i] in cached)
    && (forall i, j :: 0 <= i < j < |order| ==> !Above(cached[order[j]], order[j], cached[order[i]], order[i]))
  }

  /** The least fee for a size at a rate per thousand bytes. */
  function GetFee(rate: nat, size: int): int {
    var fee := rate * size / 1000;
    if fee == 0 && size != 0 && rate > 0 then 1 else fee
  }

  /** Fees below a rate per thousand bytes. */
  predicate BelowRate(rate: nat, e: Entry) {
    1000 * e.fees < rate * e.size
  }

  /** Fees that meet a rate: the rate times the size but for less than one unit, and at least one unit where there is a rate. */
  predicate MeetsRate(rate: nat, e: Entry) {
    1000 * (e.fees + 1) > rate * e.size && (rate > 0 ==> e.fees >= 1)
  }

  lemma GetFeeIff(rate: nat, e: Entry)
    requires e.size > 0
    ensures e.fees >= GetFee(rate, e.size) <==> MeetsRate(rate, e)
  {
    if rate > 0 {
      PositiveProduct(rate, e.size);
    }
  }

  /** Fees at the rate, and at least one unit, meet it. */
  lemma AtRateMeets(rate: nat, e: Entry)
    requires e.fees >= 1 && !BelowRate(rate, e)
    ensures MeetsRate(rate, e)
  {
  }

  /** Where one entry misses the least fee, every entry with no higher fee rate is below the rate. */
  lemma LowerStill(rate: nat, e: Entry, x: Entry)
    requires !MeetsRate(rate, e) && RateLe(x, e) && e.size > 0 && x.size > 0
    ensures BelowRate(rate, x)
  {
    if rate > 0 {
      PositiveProduct(rate, e.size);
    }
    Chained(x.fees, x.size, e.fees, e.size, rate, 1000);
  }

  // ----- Why a transaction was left out

  predicate Allowed(tx: Tx) {
    tx.final && tx.witnessOk && !tx.blocked
  }

  /** Every transaction in the block may be there. */
  ghost predicate CleanBlock(p: Pool, inBlock: set<TxId>) {
    forall t :: t in inBlock && t in p.txs ==> p.txs[t].final && p.txs[t].witnessOk && !p.txs[t].blocked
  }

  lemma CleanMore(p: Pool, inBlock: set<TxId>, package: set<TxId>)
    requires CleanBlock(p, inBlock) && package <= p.txs.Keys && forall a :: a in package ==> Allowed(p.txs[a])
    ensures CleanBlock(p, inBlock + package)
  {
  }

  /** How much four times the size exceeds the weight. */
  function GapOf(p: Pool): TxId -> int {
    t => if t in p.txs then WITNESS_SCALE_FACTOR * p.txs[t].size - p.txs[t].weight else 0
  }

  /** What the block would weigh by sizes with what is left of the package, counting included ancestors by size too. */
  ghost function Burden(p: Pool, inBlock: set<TxId>, c: Counters, t: TxId): int
    requires t in p.anc
  {
    c.weight + WITNESS_SCALE_FACTOR * Total(SizeOf(p), Left(p, inBlock, t)) + Total(GapOf(p), Included(p, inBlock, t))
  }

  /**
   * A package that cannot go in any more: it holds a transaction that may not, or it exceeds a limit, with
   * included ancestors counted by their sizes.
   */
  ghost predicate Hopeless(p: Pool, maxWeight: int, inBlock: set<TxId>, c: Counters, t: TxId)
    requires t in p.anc
  {
    || (exists a :: a in Left(p, inBlock, t) && a in p.txs && !Allowed(p.txs[a]))
    || Burden(p, inBlock, c, t) >= maxWeight
    || c.sigops + Total(SigOpsOf(p), Left(p, inBlock, t)) >= MAX_BLOCK_SIGOPS_COST
  }

  lemma {:induction false} GapTotal(p: Pool, s: set<TxId>)
    requires PoolOk(p)
    ensures Total(GapOf(p), s) == WITNESS_SCALE_FACTOR * Total(SizeOf(p), s) - Total(WeightOf(p), s) && Total(GapOf(p), s) >= 0
  {
    if s != {} {
      var x :| x in s;
      GapTotal(p, s - {x});
      TotalRemove(GapOf(p), s, x);
      TotalRemove(SizeOf(p), s, x);
      TotalRemove(WeightOf(p), s, x);
    }
  }

  /** How a package of the block divides between the ancestors of `t` and others. */
  lemma Divided(p: Pool, inBlock: set<TxId>, package: set<TxId>, t: TxId, f: TxId -> int)
    requires t in p.anc && package !! inBlock && t !in package
    ensures var x := package * p.anc[t];
      && Total(f, package) == Total(f, x) + Total(f, package - x)
      && Total(f, Left(p, inBlock, t)) == Total(f, Left(p, inBlock + package, t)) + Total(f, x)
      && Total(f, Included(p, inBlock + package, t)) == Total(f, Included(p, inBlock, t)) + Total(f, x)
  {
    hide Total;
    var x := package * p.anc[t];
    TotalUnion(f, x, package - x);
    assert x + (package - x) == package;
    TotalUnion(f, Left(p, inBlock + package, t), x);
    assert Left(p, inBlock + package, t) + x == Left(p, inBlock, t);
    TotalUnion(f, Included(p, inBlock, t), x);
    assert Included(p, inBlock, t) + x == Included(p, inBlock + package, t);
  }

  /** The burden never falls while the block grows, and neither do the signature operations. */
  lemma BurdenGrows(p: Pool, inBlock: set<TxId>, c: Counters, t: TxId, package: set<TxId>, c': Counters)
    requires PoolOk(p) && t in p.anc && package !! inBlock && t !in package
    requires c'.weight == c.weight + Total(WeightOf(p), package) && c'.sigops == c.sigops + Total(SigOpsOf(p), package)
    ensures Burden(p, inBlock, c, t) <= Burden(p, inBlock + package, c', t)
    ensures c.sigops + Total(SigOpsOf(p), Left(p, inBlock, t)) <= c'.sigops + Total(SigOpsOf(p), Left(p, inBlock + package, t))
  {
    hide Total, SizeOf, WeightOf, SigOpsOf, GapOf, Left, Included, PoolOk;
    var x := package * p.anc[t];
    Divided(p, inBlock, package, t, SizeOf(p));
    Divided(p, inBlock, package, t, WeightOf(p));
    Divided(p, inBlock, package, t, GapOf(p));
    Divided(p, inBlock, package, t, SigOpsOf(p));
    GapTotal(p, x);
    NatTotals(p, package - x);
  }

  lemma NatTotals(p: Pool, s: set<TxId>)
    ensures Total(WeightOf(p), s) >= 0 && Total(SigOpsOf(p), s) >= 0
  {
    TotalNat(WeightOf(p), s);
    TotalNat(SigOpsOf(p), s);
  }

  lemma HopelessGrows(p: Pool, maxWeight: int, inBlock: set<TxId>, c: Counters, t: TxId, package: set<TxId>, c': Counters)
    requires PoolOk(p) && t in p.anc && package !! inBlock && t !in package && package <= p.txs.Keys
    requires c'.weight == c.weight + Total(WeightOf(p), package) && c'.sigops == c.sigops + Total(SigOpsOf(p), package)
    requires Hopeless(p, maxWeight, inBlock, c, t) && forall a :: a in package ==> Allowed(p.txs[a])
    ensures Hopeless(p, maxWeight, inBlock + package, c', t)
  {
    hide Total, Burden, PoolOk, Allowed;
    BurdenGrows(p, inBlock, c, t, package, c');
    if a :| a in Left(p, inBlock, t) && a in p.txs && !Allowed(p.txs[a]) {
      assert a in Left(p, inBlock + package, t);
    }
  }

  /** A package that does not fit by its exact totals is hopeless. */
  lemma MissIsHopeless(p: Pool, maxWeight: int, inBlock: set<TxId>, c: Counters, t: TxId, e: Entry)
    requires PoolOk(p) && t in p.anc && EntryExact(p, inBlock, t, e) && !TestPackage(maxWeight, c, e.size, e.sigops)
    ensures Hopeless(p, maxWeight, inBlock, c, t)
  {
    hide Total, FeesKnown;
    GapTotal(p, Included(p, inBlock, t));
  }

  /**
   * Where included ancestors weigh four times their size, a hopeless package really may not go in or does
   * not fit the block as it is.
   */
  lemma HopelessDoesNotFit(p: Pool, maxWeight: int, inBlock: set<TxId>, c: Counters, t: TxId)
    requires t in p.anc && Hopeless(p, maxWeight, inBlock, c, t)
    requires forall a :: a in Included(p, inBlock, t) && a in p.txs ==> p.txs[a].weight == WITNESS_SCALE_FACTOR * p.txs[a].size
    ensures (exists a :: a in Left(p, inBlock, t) && a in p.txs && !Allowed(p.txs[a])) ||
            !TestPackage(maxWeight, c, Total(SizeOf(p), Left(p, inBlock, t)), Total(SigOpsOf(p), Left(p, inBlock, t)))
  {
    hide Total, Allowed;
    TotalConst(GapOf(p), Included(p, inBlock, t), 0);
  }

  /** Every transaction outside the block is hopeless, or has not failed and is still to be looked at. */
  ghost predicate Accounted(p: Pool, maxWeight: int, inBlock: set<TxId>, c: Counters, failed: set<TxId>,
                            m: map<TxId, Entry>, rest: set<TxId>) {
    forall t :: t in p.txs && t in p.anc && t !in inBlock ==>
      Hopeless(p, maxWeight, inBlock, c, t) || (t !in failed && (t in m || t in rest))
  }

  /** After a package went in. */
  lemma AccountedGrows(p: Pool, maxWeight: int, inBlock: set<TxId>, c: Counters, failed: set<TxId>, m: map<TxId, Entry>,
                       rest: set<TxId>, package: set<TxId>, c': Counters, m': map<TxId, Entry>)
    requires PoolOk(p) && Accounted(p, maxWeight, inBlock, c, failed, m, rest) && package !! inBlock && package <= p.txs.Keys
    requires c'.weight == c.weight + Total(WeightOf(p), package) && c'.sigops == c.sigops + Total(SigOpsOf(p), package)
    requires (forall a :: a in package ==> Allowed(p.txs[a])) && m.Keys - package <= m'.Keys
    ensures Accounted(p, maxWeight, inBlock + package, c', failed, m', rest)
  {
    hide Total, Hopeless, Allowed, PoolOk;
    forall t | t in p.txs && t in p.anc && t !in inBlock + package
      ensures Hopeless(p, maxWeight, inBlock + package, c', t) || (t !in failed && (t in m' || t in rest))
    {
      if Hopeless(p, maxWeight, inBlock, c, t) {
        HopelessGrows(p, maxWeight, inBlock, c, t, package, c');
      } else if t in m {
        assert t in m.Keys - package;
      }
    }
  }

  /** After one transaction was looked at and is hopeless. */
  lemma AccountedRejects(p: Pool, maxWeight: int, inBlock: set<TxId>, c: Counters, failed: set<TxId>, m: map<TxId, Entry>,
                         rest: set<TxId>, t: TxId, failed': set<TxId>, m': map<TxId, Entry>, rest': set<TxId>)
    requires t in p.anc && Accounted(p, maxWeight, inBlock, c, failed, m, rest) && Hopeless(p, maxWeight, inBlock, c, t)
    requires m.Keys - {t} <= m'.Keys && rest - {t} <= rest' && failed' <= failed + {t}
    ensures Accounted(p, maxWeight, inBlock, c, failed', m', rest')
  {
    hide Hopeless;
    forall x | x in p.txs && x in p.anc && x !in inBlock
      ensures Hopeless(p, maxWeight, inBlock, c, x) || (x !in failed' && (x in m' || x in rest'))
    {
      if x != t && x in m {
        assert x in m.Keys - {t};
      }
    }
  }

  /** Passing over an entry that is pending, in the block or failed before. */
  lemma AccountedSkips(p: Pool, maxWeight: int, inBlock: set<TxId>, c: Counters, failed: set<TxId>, m: map<TxId, Entry>,
                       rest: set<TxId>, t: TxId, rest': set<TxId>)
    requires Accounted(p, maxWeight, inBlock, c, failed, m, rest)
    requires (t in m || t in inBlock || t in failed) && rest - {t} <= rest'
    ensures Accounted(p, maxWeight, inBlock, c, failed, m, rest')
  {
    hide Hopeless;
  }

  // ----- Identity claims

  predicate TakesClaim(p: Pool, maxWeight: int, vtx: seq<TxId>, c: Counters, t: TxId) {
    && t in p.txs && t !in vtx && p.txs[t].claim && !p.txs[t].blocked
    && TestPackage(maxWeight, c, p.txs[t].size, p.txs[t].sigops) && p.txs[t].final
  }

  function WithTx(p: Pool, c: Counters, t: TxId): Counters {
    Counters(c.weight + WeightOf(p)(t), c.sigops + SigOpsOf(p)(t), c.fees + FeeOf(p)(t), c.txs + 1)
  }

  /** The block after the identity claims of the pool, taken in this order. */
  function Claims(p: Pool, maxWeight: int, vtx: seq<TxId>, c: Counters, order: seq<TxId>): (seq<TxId>, Counters)
    decreases order
  {
    if order == [] then (vtx, c)
    else if TakesClaim(p, maxWeight, vtx, c, order[0])
    then Claims(p, maxWeight, vtx + [order[0]], WithTx(p, c, order[0]), order[1..])
    else Claims(p, maxWeight, vtx, c, order[1..])
  }

  /**
   * The pass adds only final claims that have their proof, behind what was there, and leaves such a claim out only
   * where the finished block has no room for it.
   */
  lemma {:induction false} ClaimsAre(p: Pool, maxWeight: int, vtx: seq<TxId>, c: Counters, order: seq<TxId>, t: TxId)
    ensures var r, d := Claims(p, maxWeight, vtx, c, order).0, Claims(p, maxWeight, vtx, c, order).1;
      && vtx <= r && c.weight <= d.weight && c.sigops <= d.sigops
      && (t in r[|vtx|..] ==> t in order && t !in vtx && t in p.txs && p.txs[t].claim && !p.txs[t].blocked && p.txs[t].final)
      && (t in order && t in p.txs && t !in r && p.txs[t].claim && !p.txs[t].blocked && p.txs[t].final ==>
            d.weight + WITNESS_SCALE_FACTOR * p.txs[t].size >= maxWeight || d.sigops + p.txs[t].sigops >= MAX_BLOCK_SIGOPS_COST)
    decreases order
  {
    if order != [] {
      assert order == [order[0]] + order[1..];
      if TakesClaim(p, maxWeight, vtx, c, order[0]) {
        var vtx', c' := vtx + [order[0]], WithTx(p, c, order[0]);
        ClaimsAre(p, maxWeight, vtx', c', order[1..], t);
        var r := Claims(p, maxWeight, vtx', c', order[1..]).0;
        assert r[|vtx|] == vtx'[|vtx|] == order[0];
        assert r[|vtx|..] == [order[0]] + r[|vtx'|..];
        assert r[..|vtx|] == vtx;
      } else {
        ClaimsAre(p, maxWeight, vtx, c, order[1..], t);
      }
    }
  }

  /** No claim is taken before its ancestors. */
  predicate NoOrphans(p: Pool, maxWeight: int, vtx: seq<TxId>, c: Counters, order: seq<TxId>)
    decreases order
  {
    if order == [] then true
    else if TakesClaim(p, maxWeight, vtx, c, order[0])
    then order[0] in p.anc && p.anc[order[0]] <= Elements(vtx) && NoOrphans(p, maxWeight, vtx + [order[0]], WithTx(p, c, order[0]), order[1..])
    else NoOrphans(p, maxWeight, vtx, c, order[1..])
  }

  lemma OrderedSnoc(p: Pool, vtx: seq<TxId>, t: TxId)
    requires t !in vtx
    ensures Ordered(p, vtx + [t]) <==> Ordered(p, vtx) && t in p.anc && p.anc[t] <= Elements(vtx)
  {
    var all := vtx + [t];
    assert all[..|vtx|] == vtx && all[|vtx|] == t;
    forall i | 0 <= i < |vtx| ensures all[..i] == vtx[..i] && all[i] == vtx[i] {}
    if Ordered(p, all) {
      forall i | 0 <= i < |vtx| ensures vtx[i] in p.anc && p.anc[vtx[i]] <= Elements(vtx[..i]) {
        assert all[i] in p.anc && p.anc[all[i]] <= Elements(all[..i]);
      }
      assert all[|vtx|] in p.anc && p.anc[all[|vtx|]] <= Elements(all[..|vtx|]);
      forall i, j | 0 <= i < j < |vtx| ensures vtx[i] != vtx[j] {
        assert all[i] != all[j];
      }
    }
  }

  lemma {:induction false} ClaimsExtend(p: Pool, maxWeight: int, vtx: seq<TxId>, c: Counters, order: seq<TxId>)
    ensures Ordered(p, Claims(p, maxWeight, vtx, c, order).0) ==> Ordered(p, vtx)
    decreases order
  {
    hide Ordered;
    if order != [] {
      if TakesClaim(p, maxWeight, vtx, c, order[0]) {
        ClaimsExtend(p, maxWeight, vtx + [order[0]], WithTx(p, c, order[0]), order[1..]);
        OrderedSnoc(p, vtx, order[0]);
      } else {
        ClaimsExtend(p, maxWeight, vtx, c, order[1..]);
      }
    }
  }

  /** For one order: the block stays in dependency order exactly when each claim is taken after its ancestors. */
  lemma {:induction false} ClaimsOrderedIff(p: Pool, maxWeight: int, vtx: seq<TxId>, c: Counters, order: seq<TxId>)
    requires Ordered(p, vtx)
    ensures Ordered(p, Claims(p, maxWeight, vtx, c, order).0) <==> NoOrphans(p, maxWeight, vtx, c, order)
    decreases order
  {
    hide Ordered;
    if order != [] {
      if TakesClaim(p, maxWeight, vtx, c, order[0]) {
        OrderedSnoc(p, vtx, order[0]);
        if order[0] in p.anc && p.anc[order[0]] <= Elements(vtx) {
          ClaimsOrderedIff(p, maxWeight, vtx + [order[0]], WithTx(p, c, order[0]), order[1..]);
        } else {
          ClaimsExtend(p, maxWeight, vtx + [order[0]], WithTx(p, c, order[0]), order[1..]);
        }
      } else {
        ClaimsOrderedIff(p, maxWeight, vtx, c, order[1..]);
      }
    }
  }

  lemma TakesEarlier(p: Pool, maxWeight: int, vtx: seq<TxId>, c: Counters, vtx': seq<TxId>, c': Counters, t: TxId)
    requires TakesClaim(p, maxWeight, vtx', c', t) && Elements(vtx) <= Elements(vtx') && c.weight <= c'.weight && c.sigops <= c'.sigops
    ensures TakesClaim(p, maxWeight, vtx, c, t)
  {
    assert t in vtx ==> t in Elements(vtx);
  }

  /** Every claim the pass could take next has its ancestors in the block. */
  ghost predicate Settled(p: Pool, maxWeight: int, vtx: seq<TxId>, c: Counters) {
    forall t :: TakesClaim(p, maxWeight, vtx, c, t) ==> t in p.anc && p.anc[t] <= Elements(vtx)
  }

  lemma {:induction false} SettledNoOrphans(p: Pool, maxWeight: int, vtx: seq<TxId>, c: Counters, order: seq<TxId>)
    requires Settled(p, maxWeight, vtx, c)
    ensures NoOrphans(p, maxWeight, vtx, c, order)
    decreases order
  {
    hide TakesClaim;
    if order != [] {
      if TakesClaim(p, maxWeight, vtx, c, order[0]) {
        var vtx', c' := vtx + [order[0]], WithTx(p, c, order[0]);
        forall t | TakesClaim(p, maxWeight, vtx', c', t) ensures t in p.anc && p.anc[t] <= Elements(vtx') {
          TakesEarlier(p, maxWeight, vtx, c, vtx', c', t);
        }
        SettledNoOrphans(p, maxWeight, vtx', c', order[1..]);
      } else {
        SettledNoOrphans(p, maxWeight, vtx, c, order[1..]);
      }
    }
  }

  /**
   * Whatever the order of the pool, the pass keeps the dependency order if and only if, before it, every
   * claim outside the block that it would take has all its ancestors in the block.
   */
  lemma ClaimsKeepOrderIff(p: Pool, maxWeight: int, vtx: seq<TxId>, c: Counters)
    requires Ordered(p, vtx)
    ensures (forall order :: Elements(order) == p.txs.Keys ==> Ordered(p, Claims(p, maxWeight, vtx, c, order).0)) <==>
            Settled(p, maxWeight, vtx, c)
  {
    hide Ordered, Claims;
    if Settled(p, maxWeight, vtx, c) {
      forall order ensures Ordered(p, Claims(p, maxWeight, vtx, c, order).0) {
        SettledNoOrphans(p, maxWeight, vtx, c, order);
        ClaimsOrderedIff(p, maxWeight, vtx, c, order);
      }
    }
    if forall order :: Elements(order) == p.txs.Keys ==> Ordered(p, Claims(p, maxWeight, vtx, c, order).0) {
      forall t | TakesClaim(p, maxWeight, vtx, c, t) ensures t in p.anc && p.anc[t] <= Elements(vtx) {
        var order := EnumeratedFrom(p.txs.Keys, t);
        ClaimsOrderedIff(p, maxWeight, vtx, c, order);
      }
    }
  }

  const PLAIN: Tx := Tx(100, 400, 0, 0, 0, true, true, false, false)

  /** A transaction and an identity claim that spends from it. */
  const FAMILY := Pool(map[0 := PLAIN, 1 := PLAIN.(claim := true)], map[0 := {}, 1 := {0}])

  const EMPTY_BLOCK := Counters(RESERVED_WEIGHT, RESERVED_SIGOPS, 0, 0)

  lemma FamilyOk()
    ensures PoolOk(FAMILY) && Ordered(FAMILY, []) && CountersOk(FAMILY, 400_000, {}, EMPTY_BLOCK)
  {
  }

  /** A claim whose parent was passed over goes in without it. */
  lemma ClaimsCanOrphan()
    ensures PoolOk(FAMILY) && CountersOk(FAMILY, 400_000, {}, EMPTY_BLOCK)
    ensures !Ordered(FAMILY, Claims(FAMILY, 400_000, [], EMPTY_BLOCK, [0, 1]).0)
  {
    FamilyOk();
    hide PoolOk, CountersOk, Ordered;
    assert !TakesClaim(FAMILY, 400_000, [], EMPTY_BLOCK, 0) && TakesClaim(FAMILY, 400_000, [], EMPTY_BLOCK, 1);
    hide TakesClaim;
    assert [0, 1][1..] == [1];
    assert Claims(FAMILY, 400_000, [], EMPTY_BLOCK, [0, 1]) == Claims(FAMILY, 400_000, [], EMPTY_BLOCK, [1]);
    assert 0 in FAMILY.anc[1];
    ClaimsOrderedIff(FAMILY, 400_000, [], EMPTY_BLOCK, [1]);
  }
}
