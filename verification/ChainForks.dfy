/** Growing the block tree, locators and the choice between forks (src/chain.cpp). */
module ChainForks {
  import opened Chain
  import opened Powers

  const MAX_LOCATOR_SZ := 101

  /** A set of blocks with all their ancestors and correct skip pointers. */
  ghost predicate Tree(blocks: set<BlockIndex>)
    reads blocks
  {
    forall b :: b in blocks ==> Rooted(b) && Path(b) <= blocks && SkipsOk(b)
  }

  /** Adding a block and building its skip pointer keeps the tree. */
  method AddBlock(blocks: set<BlockIndex>, prev: BlockIndex?, hash: nat, work: nat) returns (b: BlockIndex)
    requires Tree(blocks) && (prev != null ==> prev in blocks)
    ensures fresh(b) && b.pprev == prev && b.hash == hash && b.nChainWork == work && Tree(blocks + {b})
  {
    b := new BlockIndex(prev, hash, work);
    assert Tree(blocks);
    b.BuildSkip();
    forall o | o in blocks ensures Rooted(o) && Path(o) <= blocks && SkipsOk(o) {
      assert b !in Path(o);
    }
  }

  /** For the tip of the active chain, the fork is the last common ancestor. */
  method ForkAndAncestor(ghost blocks: set<BlockIndex>, chain: ActiveChain, b: BlockIndex)
    returns (fork: BlockIndex?, last: BlockIndex?)
    requires Tree(blocks) && b in blocks
    requires ChainOk(chain.vChain) && chain.vChain != [] && chain.vChain[|chain.vChain| - 1] in blocks
    ensures fork == last && IsFork(chain.vChain, b, fork)
  {
    last := LastCommonAncestor(chain.vChain[|chain.vChain| - 1], b);
    assert Tree(blocks);
    fork := chain.FindFork(b);
    ForkIsUnique(chain.vChain, b, fork, last);
  }

  // ----- Locators

  /** The heights of a locator from height `h` down, when `size` entries are already there. */
  function LocatorHeights(h: nat, size: nat, step: nat): (r: seq<nat>)
    requires step > 0
    ensures r != [] && r[0] == h
    decreases h
  {
    if h == 0 then [0]
    else [h] + LocatorHeights(NextHeight(h, step), size + 1, if size + 1 > 10 then 2 * step else step)
  }

  /** Heights fall strictly, down to genesis. */
  lemma {:induction false} LocatorFalls(h: nat, size: nat, step: nat)
    requires step > 0
    ensures var r := LocatorHeights(h, size, step);
      r[|r| - 1] == 0 && forall i, j :: 0 <= i < j < |r| ==> r[j] < r[i]
    decreases h
  {
    if h > 0 {
      var h', step' := if h > step then h - step else 0, if size + 1 > 10 then 2 * step else step;
      LocatorFalls(h', size + 1, step');
      var t := LocatorHeights(h', size + 1, step');
      assert forall j :: 0 < j < |t| ==> t[j] < t[0];
    }
  }

  lemma {:induction false} LocatorTail(h: nat, size: nat, i: nat, j: nat)
    requires size >= 10 && i <= j && h <= Pow2(j)
    ensures |LocatorHeights(h, size, Pow2(i))| <= j - i + 2
    decreases j - i
  {
    if h > Pow2(i) {
      Pow2Mono(i, j);
      LocatorTail(h - Pow2(i), size + 1, i + 1, j);
    }
  }

  /** Ten single steps, then doubling ones: at most `j + 12` entries up to height `2^j`. */
  lemma {:induction false} LocatorSize(h: nat, size: nat, j: nat)
    requires size <= 10 && h <= Pow2(j)
    ensures |LocatorHeights(h, size, 1)| <= 10 - size + j + 2
    decreases 10 - size
  {
    if size == 10 {
      LocatorTail(h, size, 0, j);
    } else if h > 0 {
      LocatorSize(h - 1, size + 1, j);
    }
  }

  /** Locators for heights up to 2^30 fit the protocol limit. */
  lemma LocatorFits(h: nat)
    requires h <= 0x4000_0000
    ensures |LocatorHeights(h, 0, 1)| <= 42 <= MAX_LOCATOR_SZ
  {
    assert Pow2(10) == 1024;
    assert Pow2(20) == 1024 * 1024 by { Pow2Sum(10, 10); }
    assert Pow2(30) == 0x4000_0000 by { Pow2Sum(20, 10); }
    LocatorSize(h, 0, 30);
  }

  /**
   * Below every height `x` of the chain the locator has one at most twice as far from the tip, and `x` itself within
   * eleven blocks of it; `d` is the distance of `h` from the tip.
   */
  lemma {:induction false} LocatorIsClose(h: nat, size: nat, step: nat, d: nat, x: nat) returns (i: nat)
    requires x <= h && step > 0 && if size <= 10 then step == 1 && d == size else step <= d && d >= 11
    ensures var hs := LocatorHeights(h, size, step);
      i < |hs| && hs[i] <= x && (d + h) - hs[i] <= 2 * ((d + h) - x) && ((d + h) - x <= 11 ==> hs[i] == x)
  {
    var h', step' := if h > step then h - step else 0, if size + 1 > 10 then 2 * step else step;
    if x == h {
      i := 0;
    } else if h' <= x && (h' < x || h <= step) {
      i := 1;
      assert LocatorHeights(h', size + 1, step')[0] == h';
    } else {
      var j := LocatorIsClose(h', size + 1, step', d + step, x);
      i := j + 1;
    }
  }

  function NextHeight(h: nat, step: nat): nat {
    if h > step then h - step else 0
  }

  /** The hashes of a locator, by parent walks. */
  ghost function Locator(b: BlockIndex, size: nat, step: nat): seq<nat>
    requires Rooted(b) && step > 0
    decreases b.nHeight
  {
    if b.nHeight == 0 then [b.hash]
    else [b.hash] + Locator(Anc(b, NextHeight(b.nHeight, step)), size + 1, if size + 1 > 10 then 2 * step else step)
  }

  /** They are the hashes of the ancestors at the locator heights. */
  lemma {:induction false} LocatorOf(b: BlockIndex, size: nat, step: nat)
    requires Rooted(b) && step > 0
    ensures var hs := LocatorHeights(b.nHeight, size, step);
      && |Locator(b, size, step)| == |hs|
      && forall i :: 0 <= i < |hs| ==> hs[i] <= b.nHeight && Locator(b, size, step)[i] == Anc(b, hs[i]).hash
    decreases b.nHeight
  {
    if b.nHeight > 0 {
      var h := NextHeight(b.nHeight, step);
      var step' := if size + 1 > 10 then 2 * step else step;
      LocatorOf(Anc(b, h), size + 1, step');
      var hs := LocatorHeights(h, size + 1, step');
      forall i | 0 <= i < |hs| ensures Anc(Anc(b, h), hs[i]) == Anc(b, hs[i]) {
        AncOfAnc(b, h, hs[i]);
      }
    }
  }

  /**
   * The locator of a block, or of the tip: by the chain vector where it holds the block and by skip
   * pointers elsewhere.
   */
  method GetLocator(chain: ActiveChain, pindex: BlockIndex?) returns (vHave: seq<nat>)
    requires ChainOk(chain.vChain) && (pindex != null ==> Rooted(pindex) && SkipsOk(pindex))
    requires chain.vChain != [] ==> SkipsOk(chain.vChain[|chain.vChain| - 1])
    ensures pindex != null ==> vHave == Locator(pindex, 0, 1)
    ensures pindex == null ==> vHave == if chain.vChain == [] then [] else Locator(chain.vChain[|chain.vChain| - 1], 0, 1)
  {
    var v := chain.vChain;
    if pindex == null && v == [] {
      return [];
    }
    var start: BlockIndex := if pindex != null then pindex else v[|v| - 1];
    vHave := LocatorFrom(v, start);
  }

  method LocatorFrom(v: seq<BlockIndex?>, start: BlockIndex) returns (vHave: seq<nat>)
    requires ChainOk(v) && Rooted(start) && SkipsOk(start)
    ensures vHave == Locator(start, 0, 1)
  {
    hide Rooted;
    var nStep := 1;
    var p: BlockIndex := start;
    vHave := [];
    while p.nHeight > 0
      invariant Rooted(p) && SkipsOk(p) && nStep > 0
      invariant vHave + Locator(p, |vHave|, nStep) == Locator(start, 0, 1)
      invariant |vHave| <= 10 ==> nStep == 1 && p.nHeight + |vHave| <= start.nHeight
      invariant |vHave| > 10 && p.nHeight > 0 ==> p.nHeight + nStep <= start.nHeight - 9
      decreases p.nHeight
    {
      var nHeight := NextHeight(p.nHeight, nStep);
      SkipsBelow(p, nHeight);
      LocatorStep(p, vHave, nStep);
      vHave := vHave + [p.hash];
      if In(v, p) {
        BelowIn(v, p, nHeight);
        p := v[nHeight];
      } else {
        p := Walk(p, nHeight);
      }
      if |vHave| > 10 {
        assert start.nHeight <= 0x4000_0000 ==> 2 * nStep <= 0x7fff_ffff;
        nStep := nStep * 2;
      }
    }
    vHave := vHave + [p.hash];
  }

  /** `GetAncestor` of a height the block has. */
  method Walk(b: BlockIndex, height: nat) returns (r: BlockIndex)
    requires Rooted(b) && SkipsOk(b) && height <= b.nHeight
    ensures r == Anc(b, height) && SkipsOk(r)
  {
    var a := b.GetAncestor(height);
    SkipsBelow(b, height);
    r := a;
  }

  lemma LocatorStep(b: BlockIndex, have: seq<nat>, step: nat)
    requires Rooted(b) && step > 0 && b.nHeight > 0
    ensures have + Locator(b, |have|, step) ==
      (have + [b.hash]) + Locator(Anc(b, NextHeight(b.nHeight, step)), |have| + 1, if |have| + 1 > 10 then 2 * step else step)
  {
  }

  // ----- Fork choice

  /** Whether a candidate tip replaces the incumbent: more work, then the smaller hash. */
  predicate PreferLotteryFork(candidate: BlockIndex?, incumbent: BlockIndex?) {
    if candidate == null then false
    else if incumbent == null then true
    else if candidate.nChainWork != incumbent.nChainWork then candidate.nChainWork > incumbent.nChainWork
    else candidate.hash < incumbent.hash
  }

  /** The tip after the candidates arrived in this order. */
  function Choose(incumbent: BlockIndex?, arrivals: seq<BlockIndex?>): BlockIndex?
    decreases arrivals
  {
    if arrivals == [] then incumbent
    else Choose(if PreferLotteryFork(arrivals[0], incumbent) then arrivals[0] else incumbent, arrivals[1..])
  }

  /**
   * The tip chosen: there is one unless nothing came, no arrival has more work, and none of equal work has a
   * smaller hash.
   */
  lemma {:induction false} BestTipWins(incumbent: BlockIndex?, arrivals: seq<BlockIndex?>)
    ensures var r := Choose(incumbent, arrivals);
      && (r == incumbent || r in arrivals)
      && (r == null <==> incumbent == null && forall x :: x in arrivals ==> x == null)
      && forall x: BlockIndex? :: (x == incumbent || x in arrivals) && x != null ==>
           r != null && x.nChainWork <= r.nChainWork && (x.nChainWork == r.nChainWork ==> r.hash <= x.hash)
    decreases arrivals
  {
    if arrivals != [] {
      BestTipWins(if PreferLotteryFork(arrivals[0], incumbent) then arrivals[0] else incumbent, arrivals[1..]);
      assert arrivals == [arrivals[0]] + arrivals[1..];
    }
  }

  /** Every valid block is one unit of work, whatever its difficulty bits. */
  function GetBlockProof(b: BlockIndex): (r: nat) {
    1
  }

  /** The work of a block is that of its parent and its own. */
  ghost predicate WorkAddsUp(b: BlockIndex)
    decreases b.nHeight
  {
    && Rooted(b)
    && b.nChainWork == GetBlockProof(b) + (if b.pprev == null then 0 else b.pprev.nChainWork)
    && (b.pprev != null ==> WorkAddsUp(b.pprev))
  }

  lemma {:induction false} WorkIsHeight(b: BlockIndex)
    requires WorkAddsUp(b)
    ensures b.nChainWork == b.nHeight + 1
    decreases b.nHeight
  {
    if b.pprev != null {
      WorkIsHeight(b.pprev);
    }
  }

  /** Where work adds up, the tip chosen is one of the highest blocks, with the smallest hash among those. */
  lemma HighestWins(arrivals: seq<BlockIndex>)
    requires arrivals != [] && forall x :: x in arrivals ==> WorkAddsUp(x)
    ensures var r := Choose(null, arrivals);
      r != null && r in arrivals &&
      forall x :: x in arrivals ==> x.nHeight <= r.nHeight && (x.nHeight == r.nHeight ==> r.hash <= x.hash)
  {
    hide Choose, WorkAddsUp;
    BestTipWins(null, arrivals);
    var r := Choose(null, arrivals);
    assert arrivals[0] in arrivals;
    WorkIsHeight(r);
    forall x | x in arrivals ensures x.nHeight <= r.nHeight && (x.nHeight == r.nHeight ==> r.hash <= x.hash) {
      WorkIsHeight(x);
    }
  }

  /** The choice does not depend on the order in which candidates with distinct hashes arrive. */
  lemma ChoiceIgnoresOrder(a: seq<BlockIndex>, b: seq<BlockIndex>)
    requires multiset(a) == multiset(b) && forall i, j :: 0 <= i < |a| && 0 <= j < |a| && a[i].hash == a[j].hash ==> a[i] == a[j]
    ensures Choose(null, a) == Choose(null, b)
  {
    BestTipWins(null, a);
    BestTipWins(null, b);
    var x, y := Choose(null, a), Choose(null, b);
    assert forall z :: z in a <==> z in multiset(a);
    assert forall z :: z in b <==> z in multiset(b);
  }
}
