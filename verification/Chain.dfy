/** Block index entries with skip pointers (src/chain.cpp, src/chain.h). */
module Chain {
  import opened Powers

  /** `n & (n - 1)`: the lowest one bit of `n` cleared. */
  function InvertLowestOne(n: nat): (r: nat)
    ensures n > 0 ==> r < n
  {
    if n == 0 then 0 else if n % 2 == 1 then n - 1 else 2 * InvertLowestOne(n / 2)
  }

  function Number(x: bv32): nat {
    x as nat
  }

  function LowestCleared(x: bv32): bv32 {
    x & (x - 1)
  }

  function Doubled(y: bv32, bit: bool): bv32 {
    if bit then (y << 1) | 1 else y << 1
  }

  function Halved(x: bv32): bv32 {
    x >> 1
  }

  lemma NumberDoubled(y: bv32, bit: bool)
    requires y < 0x8000_0000
    ensures Number(Doubled(y, bit)) == 2 * Number(y) + if bit then 1 else 0
  {
    if bit {
      WordOdd(y);
    } else {
      WordEven(y);
    }
  }

  lemma WordEven(y: bv32)
    requires y < 0x8000_0000
    ensures (y << 1) as nat == 2 * (y as nat)
  {
  }

  lemma WordOdd(y: bv32)
    requires y < 0x8000_0000
    ensures ((y << 1) | 1) as nat == 2 * (y as nat) + 1
  {
  }

  lemma DoubledCleared(y: bv32)
    requires y < 0x8000_0000
    ensures LowestCleared(Doubled(y, false)) == Doubled(LowestCleared(y), false)
    ensures LowestCleared(Doubled(y, true)) == Doubled(y, false)
  {
  }

  lemma SmallCleared(y: bv32)
    requires y < 0x8000_0000
    ensures y == 0 || LowestCleared(y) < 0x8000_0000
  {
  }

  lemma HalvedDoubled(x: bv32)
    ensures Halved(x) < 0x8000_0000 && (x == Doubled(Halved(x), false) || x == Doubled(Halved(x), true))
  {
  }

  lemma NumberZero(x: bv32)
    ensures Number(x) == 0 <==> x == 0
    ensures LowestCleared(0) == 0
  {
  }

  lemma {:induction false} WordsCleared(x: bv32)
    ensures InvertLowestOne(Number(x)) == Number(LowestCleared(x))
    decreases Number(x)
  {
    hide Number, LowestCleared, Doubled, Halved;
    NumberZero(x);
    if Number(x) != 0 {
      var y := Halved(x);
      HalvedDoubled(x);
      NumberDoubled(y, false);
      NumberDoubled(y, true);
      DoubledCleared(y);
      if x == Doubled(y, false) {
        WordsCleared(y);
        SmallCleared(y);
        NumberZero(y);
        NumberDoubled(LowestCleared(y), false);
      }
    }
  }

  /** On machine words, clearing the lowest one bit is `x & (x - 1)`. */
  lemma InvertLowestOneBits(x: bv32)
    ensures InvertLowestOne(x as nat) == (x & (x - 1)) as nat
  {
    WordsCleared(x);
  }

  /** The number of one bits. */
  function Ones(n: nat): nat {
    if n == 0 then 0 else n % 2 + Ones(n / 2)
  }

  lemma {:induction false} ClearedOnes(n: nat)
    ensures Ones(InvertLowestOne(n)) == if n == 0 then 0 else Ones(n) - 1
    ensures n % 2 == 0 ==> InvertLowestOne(n) % 2 == 0
    ensures n > 0 ==> Ones(n) > 0
  {
    if n > 0 && n % 2 == 0 {
      ClearedOnes(n / 2);
    }
  }

  /** A skip clears one bit of an even height; of an odd one it clears two more and keeps the lowest. */
  lemma SkipOnes(height: nat)
    requires height >= 2
    ensures height % 2 == 0 ==> Ones(GetSkipHeight(height)) == Ones(height) - 1
    ensures height % 2 == 1 ==> Ones(height) >= 2
    ensures height % 2 == 1 ==> Ones(GetSkipHeight(height)) == if Ones(height) >= 3 then Ones(height) - 2 else 1
  {
    hide Ones, InvertLowestOne;
    if height % 2 == 1 {
      var n := height - 1;
      ClearedOnes(n);
      ClearedOnes(InvertLowestOne(n));
      OddOnes(n);
      OddOnes(InvertLowestOne(InvertLowestOne(n)));
      NoOnes(InvertLowestOne(n));
    } else {
      ClearedOnes(height);
    }
  }

  lemma OddOnes(n: nat)
    requires n % 2 == 0
    ensures Ones(n + 1) == 1 + Ones(n)
  {
  }

  lemma NoOnes(n: nat)
    ensures Ones(n) == 0 <==> n == 0
  {
  }

  /** How many skips lead from a height to genesis. */
  function SkipsToGenesis(height: nat): nat {
    if height == 0 then 0 else 1 + SkipsToGenesis(GetSkipHeight(height))
  }

  /** Skips alone reach genesis in at most as many steps as the height has one bits, so in at most `k` below `2^k`. */
  lemma {:induction false} SkipsAreFew(height: nat, k: nat)
    ensures SkipsToGenesis(height) <= Ones(height)
    ensures height < Pow2(k) ==> Ones(height) <= k
  {
    if height >= 2 {
      SkipOnes(height);
      SkipsAreFew(GetSkipHeight(height), 0);
    }
    if height < Pow2(k) {
      OnesBelow(height, k);
    }
  }

  lemma {:induction false} OnesBelow(n: nat, k: nat)
    requires n < Pow2(k)
    ensures Ones(n) <= k
  {
    if n > 0 {
      OnesBelow(n / 2, k - 1);
    }
  }

  /** The height a skip pointer leads to. */
  function GetSkipHeight(height: int): (r: nat)
    ensures height > 0 ==> r < height
  {
    if height < 2 then 0
    else if height % 2 == 1 then InvertLowestOne(InvertLowestOne(height - 1)) + 1
    else InvertLowestOne(height)
  }

  class BlockIndex {
    const pprev: BlockIndex?
    const nHeight: nat
    const nChainWork: nat
    const hash: nat
    var pskip: BlockIndex?

    constructor (prev: BlockIndex?, h: nat, work: nat)
      requires prev != null ==> Rooted(prev)
      ensures Rooted(this) && pprev == prev && pskip == null && hash == h && nChainWork == work
    {
      pprev, pskip, hash := prev, null, h;
      nHeight := if prev == null then 0 else prev.nHeight + 1;
      nChainWork := work;
    }

    /** The ancestor at a height, by skip pointers where they do not overshoot. */
    method GetAncestor(height: int) returns (r: BlockIndex?)
      requires Rooted(this) && SkipsOk(this)
      ensures r == (if 0 <= height <= nHeight then Anc(this, height) else null) && SkipsOk(this)
    {
      if height > nHeight || height < 0 {
        return null;
      }
      var walk: BlockIndex := this;
      var heightWalk := nHeight;
      while heightWalk > height
        invariant SkipsOk(this) && Rooted(walk) && SkipsOk(walk) && height <= heightWalk == walk.nHeight <= nHeight
        invariant Anc(walk, height) == Anc(this, height)
        decreases heightWalk
      {
        var heightSkip := GetSkipHeight(heightWalk);
        var heightSkipPrev := GetSkipHeight(heightWalk - 1);
        if walk.pskip != null &&
           (heightSkip == height || (heightSkip > height && !(heightSkipPrev < heightSkip - 2 && heightSkipPrev >= height)))
        {
          AncOfAnc(walk, heightSkip, height);
          SkipsBelow(walk, heightSkip);
          walk := walk.pskip;
          heightWalk := heightSkip;
        } else {
          walk := walk.pprev;
          heightWalk := heightWalk - 1;
        }
      }
      r := walk;
    }

    /** Sets the skip pointer of a block whose ancestors have theirs. */
    method BuildSkip()
      requires Rooted(this) && (pprev != null ==> SkipsOk(pprev))
      requires pskip == null
      modifies this`pskip
      ensures SkipsOk(this) && (pprev != null ==> pskip == Anc(this, GetSkipHeight(nHeight)))
    {
      if pprev != null {
        var skip := pprev.GetAncestor(GetSkipHeight(nHeight));
        NotOnPath(pprev, this);
        assert Anc(this, GetSkipHeight(nHeight)) == Anc(pprev, GetSkipHeight(nHeight));
        pskip := skip;
        assert SkipsOk(pprev);
      }
    }
  }

  // ----- Plain parent walks

  /** Heights count the parents down to a genesis block. */
  ghost predicate Rooted(b: BlockIndex)
    decreases b.nHeight
  {
    if b.pprev == null then b.nHeight == 0 else b.nHeight == b.pprev.nHeight + 1 && Rooted(b.pprev)
  }

  /** The ancestor at a height by walking parents. */
  ghost function Anc(b: BlockIndex, h: nat): (a: BlockIndex)
    requires Rooted(b) && h <= b.nHeight
    ensures Rooted(a) && a.nHeight == h
    decreases b.nHeight
  {
    if h == b.nHeight then b else Anc(b.pprev, h)
  }

  ghost function Path(b: BlockIndex): (s: set<BlockIndex>)
    requires Rooted(b)
    ensures b in s && forall a :: a in s ==> a.nHeight <= b.nHeight
    decreases b.nHeight
  {
    if b.pprev == null then {b} else {b} + Path(b.pprev)
  }

  lemma {:induction false} AncOfAnc(b: BlockIndex, k: nat, h: nat)
    requires Rooted(b) && h <= k <= b.nHeight
    ensures Anc(Anc(b, k), h) == Anc(b, h)
    decreases b.nHeight
  {
    if k < b.nHeight {
      AncOfAnc(b.pprev, k, h);
    }
  }

  /** Every skip pointer on the way to genesis leads to the ancestor at its height. */
  ghost predicate SkipsOk(b: BlockIndex)
    requires Rooted(b)
    reads Path(b)
    decreases b.nHeight
  {
    && (b.pskip != null ==> b.nHeight > 0 && b.pskip == Anc(b, GetSkipHeight(b.nHeight)))
    && (b.pprev != null ==> SkipsOk(b.pprev))
  }

  lemma {:induction false} SkipsBelow(b: BlockIndex, k: nat)
    requires Rooted(b) && SkipsOk(b) && k <= b.nHeight
    ensures SkipsOk(Anc(b, k))
    decreases b.nHeight
  {
    if k < b.nHeight {
      SkipsBelow(b.pprev, k);
    }
  }

  lemma NotOnPath(b: BlockIndex, a: BlockIndex)
    requires Rooted(b) && a.nHeight > b.nHeight
    ensures a !in Path(b)
  {
  }

  // ----- The active chain

  /** The blocks from genesis to `b`. */
  ghost function PathTo(b: BlockIndex): (s: seq<BlockIndex>)
    requires Rooted(b)
    ensures |s| == b.nHeight + 1 && forall i :: 0 <= i < |s| ==> s[i] == Anc(b, i)
    decreases b.nHeight
  {
    if b.pprev == null then [b] else PathTo(b.pprev) + [b]
  }

  /** A chain vector that is the ancestor path of its last block. */
  ghost predicate ChainOk(v: seq<BlockIndex?>) {
    v == [] || (v[|v| - 1] != null && Rooted(v[|v| - 1]) && v == PathTo(v[|v| - 1]))
  }

  predicate In(v: seq<BlockIndex?>, b: BlockIndex) {
    b.nHeight < |v| && v[b.nHeight] == b
  }

  /** A block is in a chain exactly when it is an ancestor of the tip. */
  lemma InIff(v: seq<BlockIndex?>, b: BlockIndex)
    requires ChainOk(v) && v != []
    ensures In(v, b) <==> b.nHeight <= v[|v| - 1].nHeight && Anc(v[|v| - 1], b.nHeight) == b
  {
  }

  /** What is below a block of the chain is its path. */
  lemma BelowIn(v: seq<BlockIndex?>, b: BlockIndex, i: nat)
    requires ChainOk(v) && Rooted(b) && In(v, b) && i <= b.nHeight
    ensures v[i] == Anc(b, i)
  {
    AncOfAnc(v[|v| - 1], b.nHeight, i);
  }

  /** `r` is the highest block in the chain among `b` and its ancestors, or there is none. */
  ghost predicate IsFork(v: seq<BlockIndex?>, b: BlockIndex, r: BlockIndex?)
    requires Rooted(b)
  {
    && (r != null ==> r.nHeight <= b.nHeight && Anc(b, r.nHeight) == r && In(v, r))
    && (forall h :: (if r == null then 0 else r.nHeight + 1) <= h <= b.nHeight ==> !In(v, Anc(b, h)))
  }

  /** The fork is unique. */
  lemma ForkIsUnique(v: seq<BlockIndex?>, b: BlockIndex, r: BlockIndex?, r': BlockIndex?)
    requires Rooted(b) && IsFork(v, b, r) && IsFork(v, b, r')
    ensures r == r'
  {
    assert r != null ==> In(v, Anc(b, r.nHeight));
    assert r' != null ==> In(v, Anc(b, r'.nHeight));
  }

  /** Blocks above the tip are not in the chain, so the search may start at the tip's height. */
  lemma ForkBelow(v: seq<BlockIndex?>, b: BlockIndex, k: nat, r: BlockIndex?)
    requires Rooted(b) && k <= b.nHeight && IsFork(v, Anc(b, k), r)
    requires forall h :: k < h <= b.nHeight ==> !In(v, Anc(b, h))
    ensures IsFork(v, b, r)
  {
    forall h | 0 <= h <= k ensures Anc(Anc(b, k), h) == Anc(b, h) {
      AncOfAnc(b, k, h);
    }
    forall h | (if r == null then 0 else r.nHeight + 1) <= h <= b.nHeight ensures !In(v, Anc(b, h)) {
      if h <= k {
        assert !In(v, Anc(Anc(b, k), h));
      }
    }
  }

  class ActiveChain {
    var vChain: seq<BlockIndex?>

    constructor ()
      ensures vChain == []
    {
      vChain := [];
    }

    /** Rewrites the vector from the new tip down to the first block already in place. */
    method SetTip(pindex: BlockIndex?)
      requires ChainOk(vChain) && (pindex != null ==> Rooted(pindex))
      modifies this
      ensures ChainOk(vChain)
      ensures if pindex == null then vChain == [] else vChain == PathTo(pindex)
    {
      if pindex == null {
        vChain := [];
        return;
      }
      var n := pindex.nHeight + 1;
      var was := vChain;
      vChain := if |vChain| >= n then vChain[..n] else vChain + seq(n - |vChain|, _ => null);
      var p: BlockIndex? := pindex;
      while p != null && vChain[p.nHeight] != p
        invariant |vChain| == n && (p != null ==> Rooted(p) && p.nHeight < n && Anc(pindex, p.nHeight) == p)
        invariant forall i :: (if p == null then 0 else p.nHeight + 1) <= i < n ==> vChain[i] == Anc(pindex, i)
        invariant p != null ==> forall i :: 0 <= i <= p.nHeight ==> vChain[i] == if i < |was| then was[i] else null
        decreases if p == null then 0 else p.nHeight + 1
      {
        vChain := vChain[p.nHeight := p];
        Parent(pindex, p.nHeight);
        p := p.pprev;
      }
      if p != null {
        forall i | 0 <= i <= p.nHeight ensures vChain[i] == Anc(pindex, i) {
          BelowIn(was, p, i);
          AncOfAnc(pindex, p.nHeight, i);
        }
      }
      assert vChain == PathTo(pindex);
    }

    /** The highest block of the chain on the way from `pindex` to genesis. */
    method FindFork(pindex: BlockIndex?) returns (r: BlockIndex?)
      requires ChainOk(vChain) && (pindex != null ==> Rooted(pindex) && SkipsOk(pindex))
      ensures pindex == null ==> r == null
      ensures pindex != null ==> IsFork(vChain, pindex, r)
    {
      if pindex == null {
        return null;
      }
      var top: BlockIndex? := pindex;
      if pindex.nHeight > |vChain| - 1 {
        top := pindex.GetAncestor(|vChain| - 1);
        if top == null {
          return null;
        }
      }
      var start: BlockIndex := top;
      ghost var k := start.nHeight;
      r := top;
      while r != null && !In(vChain, r)
        invariant r != null ==> Rooted(r) && r.nHeight <= k && Anc(start, r.nHeight) == r
        invariant forall h :: (if r == null then 0 else r.nHeight + 1) <= h <= k ==> !In(vChain, Anc(start, h))
        decreases if r == null then 0 else r.nHeight + 1
      {
        Parent(start, r.nHeight);
        r := r.pprev;
      }
      ForkBelow(vChain, pindex, k, r);
    }
  }

  /** The parent of an ancestor is the ancestor one below. */
  lemma {:induction false} Parent(b: BlockIndex, h: nat)
    requires Rooted(b) && h <= b.nHeight
    ensures h > 0 ==> Anc(b, h).pprev == Anc(b, h - 1)
    ensures h == 0 ==> Anc(b, h).pprev == null
    decreases b.nHeight
  {
    if h < b.nHeight {
      Parent(b.pprev, h);
    }
  }

  /** The last common ancestor of two blocks; without a common genesis there is none. */
  method LastCommonAncestor(a: BlockIndex, b: BlockIndex) returns (r: BlockIndex?)
    requires Rooted(a) && Rooted(b) && SkipsOk(a) && SkipsOk(b)
    ensures IsFork(PathTo(a), b, r)
  {
    var pa: BlockIndex? := a;
    var pb: BlockIndex? := b;
    if a.nHeight > b.nHeight {
      pa := a.GetAncestor(b.nHeight);
    } else if b.nHeight > a.nHeight {
      pb := b.GetAncestor(a.nHeight);
    }
    ghost var k := pa.nHeight;
    assert forall h :: k < h <= b.nHeight ==> !In(PathTo(a), Anc(b, h));
    while pa != pb && pa != null && pb != null
      invariant (pa == null) == (pb == null)
      invariant pa != null ==> pa.nHeight == pb.nHeight <= k && pa == Anc(a, pa.nHeight) && pb == Anc(b, pb.nHeight)
      invariant forall h :: (if pb == null then 0 else pb.nHeight + 1) <= h <= b.nHeight ==> !In(PathTo(a), Anc(b, h))
      decreases if pb == null then 0 else pb.nHeight + 1
    {
      Parent(a, pa.nHeight);
      Parent(b, pb.nHeight);
      pa, pb := pa.pprev, pb.pprev;
    }
    assert pa == pb;
    r := pa;
  }
}
