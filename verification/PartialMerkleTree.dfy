/**
 * Partial Merkle trees (src/merkleblock.h, src/merkleblock.cpp).
 *
 * A block's transaction ids are the leaves of a binary hash tree; a row with an odd number of nodes
 * duplicates its last hash.  A partial tree keeps, in depth-first order, one flag bit per visited
 * node and one hash per node at which the descent stops.
 */
module PartialMerkleTree {
  import opened Powers

  type Hash = nat
  const NULL_HASH: Hash := 0

  /** The double-SHA256 of two concatenated hashes, left uninterpreted. */
  type PairHash = (Hash, Hash) -> Hash

  ghost predicate Distinct(s: seq<Hash>) {
    forall i, j :: 0 <= i < j < |s| ==> s[i] != s[j]
  }

  // ----- Shape of the full tree

  /** The number of nodes `height` rows above the leaves of a tree over `n` leaves. */
  function CalcTreeWidth(n: nat, height: nat): nat {
    (n + Pow2(height) - 1) / Pow2(height)
  }

  /** Position `pos` exists in row `height` exactly when its leftmost leaf does. */
  lemma WidthIff(n: nat, height: nat, pos: nat)
    ensures pos < CalcTreeWidth(n, height) <==> pos * Pow2(height) < n
  {
    CeilDivIff(n, Pow2(height), pos);
  }

  lemma DoublePos(height: nat, pos: nat)
    requires height > 0
    ensures pos * Pow2(height) == (pos * 2) * Pow2(height - 1)
    ensures (pos + 1) * Pow2(height) == (pos * 2 + 2) * Pow2(height - 1)
    ensures pos * Pow2(height) + Pow2(height - 1) == (pos * 2 + 1) * Pow2(height - 1)
  {
    var q := Pow2(height - 1);
    assert Pow2(height) == 2 * q;
  }

  /** The hash of node `pos` in row `height`. */
  function CalcHash(h: PairHash, txids: seq<Hash>, height: nat, pos: nat): Hash
    requires pos < CalcTreeWidth(|txids|, height)
    decreases height
  {
    WidthIff(|txids|, height, pos);
    if height == 0 then
      txids[pos]
    else
      DoublePos(height, pos);
      WidthIff(|txids|, height - 1, pos * 2);
      var left := CalcHash(h, txids, height - 1, pos * 2);
      var right := if pos * 2 + 1 < CalcTreeWidth(|txids|, height - 1)
                   then CalcHash(h, txids, height - 1, pos * 2 + 1) else left;
      h(left, right)
  }

  lemma CalcHashInner(h: PairHash, txids: seq<Hash>, height: nat, pos: nat)
    requires height > 0 && pos < CalcTreeWidth(|txids|, height) && pos * 2 < CalcTreeWidth(|txids|, height - 1)
    ensures var left := CalcHash(h, txids, height - 1, pos * 2);
            CalcHash(h, txids, height, pos) ==
            h(left, if pos * 2 + 1 < CalcTreeWidth(|txids|, height - 1)
                    then CalcHash(h, txids, height - 1, pos * 2 + 1) else left)
  {
  }

  lemma Pow2Grows(n: nat)
    ensures n < Pow2(n)
  {
  }

  lemma WidthReachesOne(n: nat)
    ensures CalcTreeWidth(n, n) <= 1
  {
    Pow2Grows(n);
    WidthIff(n, n, 1);
  }

  /** The first row, from row `k` up, that is at most one node wide. */
  function HeightFrom(n: nat, k: nat): (height: nat)
    requires k <= n
    ensures CalcTreeWidth(n, height) <= 1
    ensures forall j: nat :: k <= j < height ==> CalcTreeWidth(n, j) > 1
    decreases n - k
  {
    WidthReachesOne(n);
    if CalcTreeWidth(n, k) <= 1 then k else HeightFrom(n, k + 1)
  }

  function TreeHeight(n: nat): nat {
    HeightFrom(n, 0)
  }

  method CalcTreeHeight(n: nat) returns (height: nat)
    ensures height == TreeHeight(n)
  {
    height := 0;
    while CalcTreeWidth(n, height) > 1
      invariant height <= n && HeightFrom(n, height) == TreeHeight(n)
      decreases n - height
    {
      WidthReachesOne(n);
      height := height + 1;
    }
  }

  lemma RootExists(n: nat)
    requires n > 0
    ensures CalcTreeWidth(n, TreeHeight(n)) == 1
  {
    WidthIff(n, TreeHeight(n), 0);
  }

  /** The Merkle root of a block's transaction ids. */
  function Root(h: PairHash, txids: seq<Hash>): Hash
    requires txids != []
  {
    RootExists(|txids|);
    CalcHash(h, txids, TreeHeight(|txids|), 0)
  }

  // ----- Matched leaves

  /** The positions in `[lo, hi)` selected by the mask, in order. */
  function Selected(mask: seq<bool>, lo: nat, hi: nat): (s: seq<nat>)
    requires lo <= hi <= |mask|
    ensures forall i :: 0 <= i < |s| ==> lo <= s[i] < hi && mask[s[i]]
    ensures forall k :: lo <= k < hi && mask[k] ==> k in s
    ensures forall i, j :: 0 <= i < j < |s| ==> s[i] < s[j]
    decreases hi - lo
  {
    if lo == hi then []
    else
      var rest := Selected(mask, lo + 1, hi);
      if mask[lo] then [lo] + rest else rest
  }

  lemma SelectedSplit(mask: seq<bool>, lo: nat, mid: nat, hi: nat)
    requires lo <= mid <= hi <= |mask|
    ensures Selected(mask, lo, hi) == Selected(mask, lo, mid) + Selected(mask, mid, hi)
    decreases mid - lo
  {
    if lo < mid {
      SelectedSplit(mask, lo + 1, mid, hi);
    }
  }

  function Min(a: nat, b: nat): nat {
    if a < b then a else b
  }

  /** First leaf below node (`height`, `pos`), and one past its last. */
  function LeafLo(height: nat, pos: nat): nat {
    pos * Pow2(height)
  }

  function LeafHi(n: nat, height: nat, pos: nat): nat {
    Min((pos + 1) * Pow2(height), n)
  }

  /** How the leaves below a node divide between its one or two children. */
  lemma LeafSplit(n: nat, height: nat, pos: nat)
    requires height > 0 && pos < CalcTreeWidth(n, height)
    ensures pos * 2 < CalcTreeWidth(n, height - 1)
    ensures LeafLo(height, pos) == LeafLo(height - 1, pos * 2) < n
    ensures LeafLo(height, pos) < LeafHi(n, height - 1, pos * 2) <= n
    ensures if pos * 2 + 1 < CalcTreeWidth(n, height - 1)
            then LeafHi(n, height - 1, pos * 2) == LeafLo(height - 1, pos * 2 + 1)
                 && LeafHi(n, height, pos) == LeafHi(n, height - 1, pos * 2 + 1)
            else LeafHi(n, height - 1, pos * 2) == LeafHi(n, height, pos) == n
  {
    DoublePos(height, pos);
    WidthIff(n, height, pos);
    WidthIff(n, height - 1, pos * 2);
    WidthIff(n, height - 1, pos * 2 + 1);
  }

  lemma LeafBounds(n: nat, height: nat, pos: nat)
    requires pos < CalcTreeWidth(n, height)
    ensures LeafLo(height, pos) < LeafHi(n, height, pos) <= n
  {
    WidthIff(n, height, pos);
    assert pos * Pow2(height) < (pos + 1) * Pow2(height);
  }

  function SelectedBelow(mask: seq<bool>, height: nat, pos: nat): (s: seq<nat>)
    requires pos < CalcTreeWidth(|mask|, height)
    ensures forall i :: 0 <= i < |s| ==> s[i] < |mask|
  {
    LeafBounds(|mask|, height, pos);
    Selected(mask, LeafLo(height, pos), LeafHi(|mask|, height, pos))
  }

  lemma SelectedBelowSplit(mask: seq<bool>, height: nat, pos: nat)
    requires height > 0 && pos < CalcTreeWidth(|mask|, height)
    requires pos * 2 < CalcTreeWidth(|mask|, height - 1)
    ensures SelectedBelow(mask, height, pos) ==
            SelectedBelow(mask, height - 1, pos * 2) +
            if pos * 2 + 1 < CalcTreeWidth(|mask|, height - 1)
            then SelectedBelow(mask, height - 1, pos * 2 + 1) else []
  {
    LeafSplit(|mask|, height, pos);
    LeafBounds(|mask|, height - 1, pos * 2);
    LeafBounds(|mask|, height, pos);
    SelectedSplit(mask, LeafLo(height, pos), LeafHi(|mask|, height - 1, pos * 2), LeafHi(|mask|, height, pos));
  }

  // ----- Encoding

  /** The flag bits and hashes a partial tree stores. */
  datatype Streams = Streams(bits: seq<bool>, hashes: seq<Hash>) {
    function Then(t: Streams): Streams {
      Streams(bits + t.bits, hashes + t.hashes)
    }
  }

  /** What the depth-first traversal of node (`height`, `pos`) writes. */
  function Encode(h: PairHash, txids: seq<Hash>, mask: seq<bool>, height: nat, pos: nat): Streams
    requires |txids| == |mask| && pos < CalcTreeWidth(|txids|, height)
    decreases height
  {
    var parentOfMatch := SelectedBelow(mask, height, pos) != [];
    if height == 0 || !parentOfMatch then
      Streams([parentOfMatch], [CalcHash(h, txids, height, pos)])
    else
      LeafSplit(|mask|, height, pos);
      var first := Streams([true], []).Then(Encode(h, txids, mask, height - 1, pos * 2));
      if pos * 2 + 1 < CalcTreeWidth(|txids|, height - 1)
      then first.Then(Encode(h, txids, mask, height - 1, pos * 2 + 1)) else first
  }

  lemma EncodeStop(h: PairHash, txids: seq<Hash>, mask: seq<bool>, height: nat, pos: nat)
    requires |txids| == |mask| && pos < CalcTreeWidth(|txids|, height)
    requires height == 0 || SelectedBelow(mask, height, pos) == []
    ensures Encode(h, txids, mask, height, pos) ==
            Streams([SelectedBelow(mask, height, pos) != []], [CalcHash(h, txids, height, pos)])
  {
  }

  lemma EncodeInner(h: PairHash, txids: seq<Hash>, mask: seq<bool>, height: nat, pos: nat)
    requires |txids| == |mask| && height > 0 && pos < CalcTreeWidth(|txids|, height)
    requires SelectedBelow(mask, height, pos) != []
    requires pos * 2 < CalcTreeWidth(|txids|, height - 1)
    ensures var first := Streams([true], []).Then(Encode(h, txids, mask, height - 1, pos * 2));
            Encode(h, txids, mask, height, pos) ==
            if pos * 2 + 1 < CalcTreeWidth(|txids|, height - 1)
            then first.Then(Encode(h, txids, mask, height - 1, pos * 2 + 1)) else first
  {
  }

  /** What the encoder writes for a whole block. */
  function EncodeTree(h: PairHash, txids: seq<Hash>, mask: seq<bool>): Streams
    requires |txids| == |mask| > 0
  {
    RootExists(|txids|);
    Encode(h, txids, mask, TreeHeight(|txids|), 0)
  }

  // ----- Decoding

  /** The reader's position in both streams, its failure flag and what it has matched so far. */
  datatype Cursor = Cursor(bitsUsed: nat, hashUsed: nat, bad: bool, matches: seq<Hash>, indices: seq<nat>)

  /** Reads node (`height`, `pos`) of a tree over `n` leaves; returns its hash and the new cursor. */
  function Decode(h: PairHash, n: nat, s: Streams, height: nat, pos: nat, c: Cursor): (Hash, Cursor)
    decreases height
  {
    if c.bitsUsed >= |s.bits| then
      (NULL_HASH, c.(bad := true))
    else
      var parentOfMatch := s.bits[c.bitsUsed];
      var c1 := c.(bitsUsed := c.bitsUsed + 1);
      if height == 0 || !parentOfMatch then
        if c.hashUsed >= |s.hashes| then
          (NULL_HASH, c1.(bad := true))
        else
          var hash := s.hashes[c.hashUsed];
          var c2 := c1.(hashUsed := c.hashUsed + 1);
          (hash, if height == 0 && parentOfMatch
                 then c2.(matches := c.matches + [hash], indices := c.indices + [pos]) else c2)
      else
        var (left, c2) := Decode(h, n, s, height - 1, pos * 2, c1);
        if pos * 2 + 1 < CalcTreeWidth(n, height - 1) then
          var (right, c3) := Decode(h, n, s, height - 1, pos * 2 + 1, c2);
          (h(left, right), if right == left then c3.(bad := true) else c3)
        else
          (h(left, left), c2)
  }

  // ----- Completeness: decoding an encoding

  /** The two hashes a node above the leaves is made of; a node with one child repeats it. */
  function ChildHashes(h: PairHash, txids: seq<Hash>, height: nat, pos: nat): (Hash, Hash)
    requires height > 0 && pos < CalcTreeWidth(|txids|, height)
  {
    LeafSplit(|txids|, height, pos);
    var left := CalcHash(h, txids, height - 1, pos * 2);
    (left, if pos * 2 + 1 < CalcTreeWidth(|txids|, height - 1) then CalcHash(h, txids, height - 1, pos * 2 + 1) else left)
  }

  /** Two nodes of one row of the tree made of different pairs of hashes with the same hash. */
  ghost predicate PairsCollide(h: PairHash, txids: seq<Hash>, k: nat, i: nat, j: nat) {
    && k > 0 && i < CalcTreeWidth(|txids|, k) && j < CalcTreeWidth(|txids|, k)
    && var (a, b) := ChildHashes(h, txids, k, i);
       var (c, d) := ChildHashes(h, txids, k, j);
       (a, b) != (c, d) && h(a, b) == h(c, d)
  }

  /** Two different nodes of one row over distinct ids have different hashes, or two pairs below them collide. */
  lemma {:induction false} SiblingsDiffer(h: PairHash, txids: seq<Hash>, height: nat, p: nat, q: nat) returns (k: nat, i: nat, j: nat)
    requires Distinct(txids) && p < q < CalcTreeWidth(|txids|, height)
    requires CalcHash(h, txids, height, p) == CalcHash(h, txids, height, q)
    ensures k <= height && PairsCollide(h, txids, k, i, j)
    decreases height
  {
    WidthIff(|txids|, height, p);
    WidthIff(|txids|, height, q);
    if height == 0 {
      assert false;
    } else {
      LeafSplit(|txids|, height, p);
      LeafSplit(|txids|, height, q);
      CalcHashInner(h, txids, height, p);
      CalcHashInner(h, txids, height, q);
      if CalcHash(h, txids, height - 1, p * 2) == CalcHash(h, txids, height - 1, q * 2) {
        k, i, j := SiblingsDiffer(h, txids, height - 1, p * 2, q * 2);
      } else {
        k, i, j := height, p, q;
      }
    }
  }

  /** Somewhere at or below a node, on the way to a match, two children have the same hash. */
  predicate Twins(h: PairHash, txids: seq<Hash>, mask: seq<bool>, height: nat, pos: nat)
    requires |txids| == |mask| && pos < CalcTreeWidth(|txids|, height)
    decreases height
  {
    if height == 0 || SelectedBelow(mask, height, pos) == [] then false
    else
      LeafSplit(|mask|, height, pos);
      Twins(h, txids, mask, height - 1, pos * 2) ||
      (pos * 2 + 1 < CalcTreeWidth(|txids|, height - 1) &&
       (Twins(h, txids, mask, height - 1, pos * 2 + 1) ||
        CalcHash(h, txids, height - 1, pos * 2) == CalcHash(h, txids, height - 1, pos * 2 + 1)))
  }

  lemma TwinsInner(h: PairHash, txids: seq<Hash>, mask: seq<bool>, height: nat, pos: nat)
    requires |txids| == |mask| && height > 0 && pos < CalcTreeWidth(|txids|, height) && pos * 2 < CalcTreeWidth(|txids|, height - 1)
    requires SelectedBelow(mask, height, pos) != []
    ensures Twins(h, txids, mask, height, pos) <==>
      Twins(h, txids, mask, height - 1, pos * 2) ||
      (pos * 2 + 1 < CalcTreeWidth(|txids|, height - 1) &&
       (Twins(h, txids, mask, height - 1, pos * 2 + 1) ||
        CalcHash(h, txids, height - 1, pos * 2) == CalcHash(h, txids, height - 1, pos * 2 + 1)))
  {
  }

  /** Twins over distinct ids mean that two pairs of hashes of the tree collide. */
  lemma {:induction false} TwinsCollide(h: PairHash, txids: seq<Hash>, mask: seq<bool>, height: nat, pos: nat) returns (k: nat, i: nat, j: nat)
    requires |txids| == |mask| && pos < CalcTreeWidth(|txids|, height) && Distinct(txids) && Twins(h, txids, mask, height, pos)
    ensures k <= height && PairsCollide(h, txids, k, i, j)
    decreases height
  {
    hide CalcTreeWidth, SelectedBelow, CalcHash, PairsCollide;
    LeafSplit(|mask|, height, pos);
    if Twins(h, txids, mask, height - 1, pos * 2) {
      k, i, j := TwinsCollide(h, txids, mask, height - 1, pos * 2);
    } else if Twins(h, txids, mask, height - 1, pos * 2 + 1) {
      k, i, j := TwinsCollide(h, txids, mask, height - 1, pos * 2 + 1);
    } else {
      k, i, j := SiblingsDiffer(h, txids, height - 1, pos * 2, pos * 2 + 1);
    }
  }

  /** `s` holds `t` at the cursor's position. */
  ghost predicate At(s: Streams, c: Cursor, t: Streams) {
    && c.bitsUsed + |t.bits| <= |s.bits|
    && c.hashUsed + |t.hashes| <= |s.hashes|
    && s.bits[c.bitsUsed..c.bitsUsed + |t.bits|] == t.bits
    && s.hashes[c.hashUsed..c.hashUsed + |t.hashes|] == t.hashes
  }

  lemma SliceThen<T>(s: seq<T>, b: nat, t: seq<T>, u: seq<T>)
    requires b + |t| + |u| <= |s| && s[b..b + |t| + |u|] == t + u
    ensures s[b..b + |t|] == t && s[b + |t|..b + |t| + |u|] == u
  {
    var w := s[b..b + |t| + |u|];
    assert w[..|t|] == t && w[|t|..] == u;
    assert s[b..b + |t|] == w[..|t|];
    assert s[b + |t|..b + |t| + |u|] == w[|t|..];
  }

  lemma AtThen(s: Streams, c: Cursor, t: Streams, u: Streams)
    requires At(s, c, t.Then(u))
    ensures At(s, c, t)
    ensures At(s, c.(bitsUsed := c.bitsUsed + |t.bits|, hashUsed := c.hashUsed + |t.hashes|), u)
  {
    SliceThen(s.bits, c.bitsUsed, t.bits, u.bits);
    SliceThen(s.hashes, c.hashUsed, t.hashes, u.hashes);
  }

  function Pick(txids: seq<Hash>, indices: seq<nat>): (r: seq<Hash>)
    requires forall i :: 0 <= i < |indices| ==> indices[i] < |txids|
    ensures |r| == |indices| && forall i :: 0 <= i < |r| ==> r[i] == txids[indices[i]]
  {
    seq(|indices|, i requires 0 <= i < |indices| => txids[indices[i]])
  }

  /** The cursor after reading an honest encoding of one node, bad if twins were met. */
  ghost function Advanced(c: Cursor, t: Streams, txids: seq<Hash>, sel: seq<nat>, twins: bool): Cursor
    requires forall i :: 0 <= i < |sel| ==> sel[i] < |txids|
  {
    Cursor(c.bitsUsed + |t.bits|, c.hashUsed + |t.hashes|, c.bad || twins, c.matches + Pick(txids, sel), c.indices + sel)
  }

  lemma AtAdvanced(s: Streams, c: Cursor, t: Streams, u: Streams, txids: seq<Hash>, sel: seq<nat>, twins: bool)
    requires forall i :: 0 <= i < |sel| ==> sel[i] < |txids|
    requires At(s, c.(bitsUsed := c.bitsUsed + |t.bits|, hashUsed := c.hashUsed + |t.hashes|), u)
    ensures At(s, Advanced(c, t, txids, sel, twins), u)
  {
  }

  lemma AdvancedTwice(c: Cursor, t: Streams, u: Streams, txids: seq<Hash>, sel: seq<nat>, sel': seq<nat>, twins: bool, twins': bool)
    requires forall i :: 0 <= i < |sel| ==> sel[i] < |txids|
    requires forall i :: 0 <= i < |sel'| ==> sel'[i] < |txids|
    ensures Advanced(Advanced(c, t, txids, sel, twins), u, txids, sel', twins') ==
            Advanced(c, t.Then(u), txids, sel + sel', twins || twins')
  {
    assert (c.matches + Pick(txids, sel)) + Pick(txids, sel') == c.matches + Pick(txids, sel + sel');
    assert (c.indices + sel) + sel' == c.indices + (sel + sel');
  }

  lemma AdvancedBad(c: Cursor, t: Streams, txids: seq<Hash>, sel: seq<nat>, twins: bool, more: bool)
    requires forall i :: 0 <= i < |sel| ==> sel[i] < |txids|
    ensures Advanced(c, t, txids, sel, twins || more) ==
            if more then Advanced(c, t, txids, sel, twins).(bad := true) else Advanced(c, t, txids, sel, twins)
  {
  }

  /** Reading an honest encoding of node (`height`, `pos`) gives the node's hash and exactly its matches; it is bad exactly with twins. */
  ghost predicate ReadsBack(h: PairHash, txids: seq<Hash>, mask: seq<bool>, height: nat, pos: nat,
                            s: Streams, c: Cursor)
    requires |txids| == |mask| && pos < CalcTreeWidth(|txids|, height)
  {
    Decode(h, |txids|, s, height, pos, c) ==
    (CalcHash(h, txids, height, pos),
     Advanced(c, Encode(h, txids, mask, height, pos), txids, SelectedBelow(mask, height, pos),
              Twins(h, txids, mask, height, pos)))
  }

  lemma {:induction false} DecodeEncoded(h: PairHash, txids: seq<Hash>, mask: seq<bool>, height: nat, pos: nat,
                                         s: Streams, c: Cursor)
    requires |txids| == |mask|
    requires pos < CalcTreeWidth(|txids|, height)
    requires At(s, c, Encode(h, txids, mask, height, pos))
    ensures ReadsBack(h, txids, mask, height, pos, s, c)
    decreases height
  {
    var t := Encode(h, txids, mask, height, pos);
    var sel := SelectedBelow(mask, height, pos);
    assert s.bits[c.bitsUsed] == t.bits[0];
    if height == 0 || sel == [] {
      assert s.hashes[c.hashUsed] == t.hashes[0];
      DecodeLeafEncoded(h, txids, mask, height, pos, s, c);
    } else {
      DecodeInnerEncoded(h, txids, mask, height, pos, s, c);
    }
  }

  lemma {:induction false} DecodeLeafEncoded(h: PairHash, txids: seq<Hash>, mask: seq<bool>, height: nat, pos: nat,
                          s: Streams, c: Cursor)
    requires |txids| == |mask| && pos < CalcTreeWidth(|txids|, height)
    requires height == 0 || SelectedBelow(mask, height, pos) == []
    requires At(s, c, Encode(h, txids, mask, height, pos))
    ensures ReadsBack(h, txids, mask, height, pos, s, c)
  {
    var t := Encode(h, txids, mask, height, pos);
    var sel := SelectedBelow(mask, height, pos);
    var hash := CalcHash(h, txids, height, pos);
    assert t == Streams([sel != []], [hash]);
    if height == 0 {
      SelectedAtLeaf(mask, pos);
      assert sel == [pos] ==> Pick(txids, sel) == [hash];
    }
    hide CalcTreeWidth, SelectedBelow, Selected, CalcHash, Encode;
    assert s.bits[c.bitsUsed] == t.bits[0] && s.hashes[c.hashUsed] == t.hashes[0];
    assert sel == [] ==> Pick(txids, sel) == [];
    var r := Decode(h, |txids|, s, height, pos, c);
    var d := Advanced(c, t, txids, sel, false);
    assert r.0 == hash;
    assert r.1.bitsUsed == d.bitsUsed && r.1.hashUsed == d.hashUsed && r.1.bad == d.bad;
    assert r.1.matches == d.matches;
    assert r.1.indices == d.indices;
  }

  lemma SelectedAtLeaf(mask: seq<bool>, pos: nat)
    requires pos < CalcTreeWidth(|mask|, 0)
    ensures pos < |mask| && SelectedBelow(mask, 0, pos) == if mask[pos] then [pos] else []
  {
    WidthIff(|mask|, 0, pos);
    assert Selected(mask, pos + 1, pos + 1) == [];
  }

  /** One step of the reader at a node it descends from. */
  lemma DecodeInner(h: PairHash, n: nat, s: Streams, height: nat, pos: nat, c: Cursor)
    requires height > 0 && c.bitsUsed < |s.bits| && s.bits[c.bitsUsed]
    ensures var l := Decode(h, n, s, height - 1, pos * 2, c.(bitsUsed := c.bitsUsed + 1));
            Decode(h, n, s, height, pos, c) ==
            if pos * 2 + 1 < CalcTreeWidth(n, height - 1) then
              var r := Decode(h, n, s, height - 1, pos * 2 + 1, l.1);
              (h(l.0, r.0), if r.0 == l.0 then r.1.(bad := true) else r.1)
            else (h(l.0, l.0), l.1)
  {
  }

  lemma {:induction false} DecodeInnerEncoded(h: PairHash, txids: seq<Hash>, mask: seq<bool>, height: nat, pos: nat,
                                              s: Streams, c: Cursor)
    requires |txids| == |mask|
    requires height > 0 && pos < CalcTreeWidth(|txids|, height)
    requires SelectedBelow(mask, height, pos) != []
    requires At(s, c, Encode(h, txids, mask, height, pos))
    ensures ReadsBack(h, txids, mask, height, pos, s, c)
    decreases height, 2
  {
    hide CalcTreeWidth, SelectedBelow, Selected, Encode, Decode, At, Pick, Advanced, CalcHash, Twins;
    LeafSplit(|mask|, height, pos);
    SelectedBelowSplit(mask, height, pos);
    EncodeInner(h, txids, mask, height, pos);
    CalcHashInner(h, txids, height, pos);
    TwinsInner(h, txids, mask, height, pos);
    if pos * 2 + 1 < CalcTreeWidth(|txids|, height - 1) {
      DecodeBothChildren(h, txids, mask, height, pos, s, c);
    } else {
      DecodeFirstChild(h, txids, mask, height, pos, s, c);
      DecodeInner(h, |txids|, s, height, pos, c);
      assert SelectedBelow(mask, height - 1, pos * 2) + [] == SelectedBelow(mask, height - 1, pos * 2);
    }
  }

  lemma {:induction false} DecodeBothChildren(h: PairHash, txids: seq<Hash>, mask: seq<bool>, height: nat, pos: nat,
                                              s: Streams, c: Cursor)
    requires |txids| == |mask|
    requires height > 0 && pos < CalcTreeWidth(|txids|, height)
    requires pos * 2 < pos * 2 + 1 < CalcTreeWidth(|txids|, height - 1)
    requires SelectedBelow(mask, height, pos) != []
    requires At(s, c, Encode(h, txids, mask, height, pos))
    ensures ReadsBack(h, txids, mask, height, pos, s, c)
    decreases height, 1
  {
    hide CalcTreeWidth, SelectedBelow, Selected, Encode, Decode, At, Pick, Advanced, CalcHash, Twins;
    var t0 := Streams([true], []).Then(Encode(h, txids, mask, height - 1, pos * 2));
    var t1 := Encode(h, txids, mask, height - 1, pos * 2 + 1);
    var sel0, sel1 := SelectedBelow(mask, height - 1, pos * 2), SelectedBelow(mask, height - 1, pos * 2 + 1);
    var tw0, tw1 := Twins(h, txids, mask, height - 1, pos * 2), Twins(h, txids, mask, height - 1, pos * 2 + 1);
    var c2 := Advanced(c, t0, txids, sel0, tw0);
    TwinsInner(h, txids, mask, height, pos);
    SelectedBelowSplit(mask, height, pos);
    EncodeInner(h, txids, mask, height, pos);
    AtThen(s, c, t0, t1);
    CalcHashInner(h, txids, height, pos);
    AtAdvanced(s, c, t0, t1, txids, sel0, tw0);
    DecodeFirstChild(h, txids, mask, height, pos, s, c);
    DecodeInner(h, |txids|, s, height, pos, c);
    DecodeEncoded(h, txids, mask, height - 1, pos * 2 + 1, s, c2);
    AdvancedTwice(c, t0, t1, txids, sel0, sel1, tw0, tw1);
    AdvancedBad(c, t0.Then(t1), txids, sel0 + sel1, tw0 || tw1, Twins(h, txids, mask, height, pos));
  }

  lemma {:induction false} DecodeFirstChild(h: PairHash, txids: seq<Hash>, mask: seq<bool>, height: nat, pos: nat,
                         s: Streams, c: Cursor)
    requires |txids| == |mask|
    requires height > 0 && pos * 2 < CalcTreeWidth(|txids|, height - 1)
    requires At(s, c, Streams([true], []).Then(Encode(h, txids, mask, height - 1, pos * 2)))
    ensures c.bitsUsed < |s.bits| && s.bits[c.bitsUsed]
    ensures var t := Encode(h, txids, mask, height - 1, pos * 2);
            Decode(h, |txids|, s, height - 1, pos * 2, c.(bitsUsed := c.bitsUsed + 1)) ==
            (CalcHash(h, txids, height - 1, pos * 2),
             Advanced(c, Streams([true], []).Then(t), txids, SelectedBelow(mask, height - 1, pos * 2),
                      Twins(h, txids, mask, height - 1, pos * 2)))
    decreases height, 0
  {
    var flag := Streams([true], []);
    var t := Encode(h, txids, mask, height - 1, pos * 2);
    var sel := SelectedBelow(mask, height - 1, pos * 2);
    var c1 := c.(bitsUsed := c.bitsUsed + 1);
    AtThen(s, c, flag, t);
    assert s.bits[c.bitsUsed..c.bitsUsed + 1][0];
    DecodeEncoded(h, txids, mask, height - 1, pos * 2, s, c1);
    assert c1 == Advanced(c, flag, txids, [], false);
    AdvancedTwice(c, flag, t, txids, [], sel, false, Twins(h, txids, mask, height - 1, pos * 2));
    assert [] + sel == sel;
  }

  // ----- The encoded size

  /** Nodes the encoder descends from that have only one child. */
  function OnlyChildren(mask: seq<bool>, height: nat, pos: nat): nat
    requires pos < CalcTreeWidth(|mask|, height)
    decreases height
  {
    if height == 0 || SelectedBelow(mask, height, pos) == [] then 0
    else
      LeafSplit(|mask|, height, pos);
      var left := OnlyChildren(mask, height - 1, pos * 2);
      if pos * 2 + 1 < CalcTreeWidth(|mask|, height - 1)
      then left + OnlyChildren(mask, height - 1, pos * 2 + 1) else left + 1
  }

  /** Every stored hash stands for at least one leaf; one flag is stored per visited node. */
  lemma {:induction false} EncodedSize(h: PairHash, txids: seq<Hash>, mask: seq<bool>, height: nat, pos: nat)
    requires |txids| == |mask| && pos < CalcTreeWidth(|txids|, height)
    ensures var t := Encode(h, txids, mask, height, pos);
            && 1 <= |t.hashes| <= LeafHi(|txids|, height, pos) - LeafLo(height, pos)
            && |t.bits| == 2 * |t.hashes| - 1 + OnlyChildren(mask, height, pos)
    decreases height
  {
    LeafBounds(|mask|, height, pos);
    if height > 0 && SelectedBelow(mask, height, pos) != [] {
      LeafSplit(|mask|, height, pos);
      EncodeInner(h, txids, mask, height, pos);
      EncodedSize(h, txids, mask, height - 1, pos * 2);
      if pos * 2 + 1 < CalcTreeWidth(|txids|, height - 1) {
        EncodedSize(h, txids, mask, height - 1, pos * 2 + 1);
      }
    }
  }

  lemma BothChildrenBound(x: nat, y: nat, a: nat, b: nat, height: nat)
    requires height > 0 && a + b > 0 && x <= 1 + a * (height - 1) && y <= 1 + b * (height - 1)
    ensures x + y <= 1 + (a + b) * height
  {
    assert a * (height - 1) == a * height - a;
    assert b * (height - 1) == b * height - b;
    assert (a + b) * height == a * height + b * height;
  }

  /** Each match costs at most one stored hash per row. */
  lemma {:induction false} HashesPerMatch(h: PairHash, txids: seq<Hash>, mask: seq<bool>, height: nat, pos: nat)
    requires |txids| == |mask| && pos < CalcTreeWidth(|txids|, height)
    ensures |Encode(h, txids, mask, height, pos).hashes| <= 1 + |SelectedBelow(mask, height, pos)| * height
    decreases height
  {
    hide CalcTreeWidth, CalcHash, SelectedBelow, Selected, Encode;
    if height > 0 && SelectedBelow(mask, height, pos) != [] {
      LeafSplit(|mask|, height, pos);
      EncodeInner(h, txids, mask, height, pos);
      SelectedBelowSplit(mask, height, pos);
      HashesPerMatch(h, txids, mask, height - 1, pos * 2);
      var a := |SelectedBelow(mask, height - 1, pos * 2)|;
      var x := |Encode(h, txids, mask, height - 1, pos * 2).hashes|;
      if pos * 2 + 1 < CalcTreeWidth(|txids|, height - 1) {
        HashesPerMatch(h, txids, mask, height - 1, pos * 2 + 1);
        BothChildrenBound(x, |Encode(h, txids, mask, height - 1, pos * 2 + 1).hashes|,
                          a, |SelectedBelow(mask, height - 1, pos * 2 + 1)|, height);
      } else {
        BothChildrenBound(x, 0, a, 0, height);
      }
    } else {
      EncodeStop(h, txids, mask, height, pos);
    }
  }

  /** Node (`k`, `q`) has a single child and a match below it. */
  ghost predicate LoneChildOverMatch(mask: seq<bool>, k: nat, q: nat) {
    k > 0 && q < CalcTreeWidth(|mask|, k) && q * 2 + 1 >= CalcTreeWidth(|mask|, k - 1)
    && SelectedBelow(mask, k, q) != []
  }

  lemma {:induction false} FindLoneChild(mask: seq<bool>, height: nat, pos: nat) returns (k: nat, q: nat)
    requires pos < CalcTreeWidth(|mask|, height) && OnlyChildren(mask, height, pos) > 0
    ensures k <= height && LoneChildOverMatch(mask, k, q)
    decreases height
  {
    hide CalcTreeWidth, SelectedBelow;
    LeafSplit(|mask|, height, pos);
    if pos * 2 + 1 >= CalcTreeWidth(|mask|, height - 1) {
      k, q := height, pos;
    } else if OnlyChildren(mask, height - 1, pos * 2) > 0 {
      k, q := FindLoneChild(mask, height - 1, pos * 2);
    } else {
      k, q := FindLoneChild(mask, height - 1, pos * 2 + 1);
    }
  }

  lemma ParentExists(n: nat, k: nat, q: nat)
    requires q < CalcTreeWidth(n, k)
    ensures q / 2 < CalcTreeWidth(n, k + 1)
  {
    WidthIff(n, k, q);
    WidthIff(n, k + 1, q / 2);
    DoublePos(k + 1, q / 2);
    MulMono(q / 2 * 2, q, Pow2(k));
  }

  /** A lone child below (`k`, `q`) is also below every ancestor. */
  lemma {:induction false} LoneChildSeenFromAbove(mask: seq<bool>, k: nat, q: nat, height: nat)
    requires q < CalcTreeWidth(|mask|, k) && OnlyChildren(mask, k, q) > 0
    requires k <= height && CalcTreeWidth(|mask|, height) == 1
    ensures OnlyChildren(mask, height, 0) > 0
    decreases height - k
  {
    hide CalcTreeWidth, SelectedBelow;
    if k < height {
      ParentExists(|mask|, k, q);
      LeafSplit(|mask|, k + 1, q / 2);
      SelectedBelowSplit(mask, k + 1, q / 2);
      assert SelectedBelow(mask, k, q) != [];
      assert q == q / 2 * 2 || q == q / 2 * 2 + 1;
      LoneChildSeenFromAbove(mask, k + 1, q / 2, height);
    }
  }

  /**
   * The header promises at most `2 * N - 1` flag bits for `N` stored hashes.  That holds exactly
   * when no node of the tree that has a single child lies above a match.
   */
  lemma FlagBitsBound(h: PairHash, txids: seq<Hash>, mask: seq<bool>)
    requires |txids| == |mask| > 0
    ensures |EncodeTree(h, txids, mask).bits| <= 2 * |EncodeTree(h, txids, mask).hashes| - 1 <==>
            forall k: nat, q: nat :: k <= TreeHeight(|txids|) ==> !LoneChildOverMatch(mask, k, q)
  {
    RootExists(|txids|);
    hide CalcTreeWidth, Encode, TreeHeight;
    var height := TreeHeight(|txids|);
    EncodedSize(h, txids, mask, height, 0);
    if OnlyChildren(mask, height, 0) > 0 {
      var k, q := FindLoneChild(mask, height, 0);
    } else {
      forall k: nat, q: nat | k <= height ensures !LoneChildOverMatch(mask, k, q) {
        if LoneChildOverMatch(mask, k, q) {
          LeafSplit(|mask|, k, q);
          LoneChildSeenFromAbove(mask, k, q, height);
        }
      }
    }
  }

  /** The smallest block that breaks the promise: three transactions, the last one matched. */
  lemma FlagBitsPromiseFails(h: PairHash, txids: seq<Hash>, mask: seq<bool>)
    requires |txids| == 3 && mask == [false, false, true]
    ensures |EncodeTree(h, txids, mask).hashes| == 2 && |EncodeTree(h, txids, mask).bits| == 4
  {
    hide CalcTreeWidth, SelectedBelow, Selected, Encode, TreeHeight, CalcHash;
    WidthsOfThree();
    SelectedOfThree(mask);
    EncodeInner(h, txids, mask, 2, 0);
    EncodeStop(h, txids, mask, 1, 0);
    EncodeInner(h, txids, mask, 1, 1);
    EncodeStop(h, txids, mask, 0, 2);
  }

  // ----- Bytes on the wire

  /** The bytes of a length prefix. */
  function CompactSizeBytes(n: nat): nat {
    if n < 253 then 1 else if n <= 0xFFFF then 3 else if n <= 0xFFFF_FFFF then 5 else 9
  }

  /** The bytes of a tree: its number of transactions, `n` hashes and the packed flags. */
  function WireSize(n: nat, bits: nat): nat {
    var flagBytes := (bits + 7) / 8;
    4 + CompactSizeBytes(n) + 32 * n + CompactSizeBytes(flagBytes) + flagBytes
  }

  /** The documented limit for `n` hashes. */
  function SizeLimit(n: nat): nat {
    10 + (129 * n + 3) / 4
  }

  /** How many flag bytes the limit leaves room for; none fit above 65535 hashes. */
  function Room(n: nat): int {
    var quarter := (n + 3) / 4;
    if n < 253 then quarter + 4
    else if n < 1009 then Min(252, quarter + 2)
    else if n <= 0xFFFF then quarter else -1
  }

  /** How many nodes with a single child above a match the limit leaves room for. */
  function Slack(n: nat): int {
    8 * Room(n) + 1 - 2 * n
  }

  lemma BytesFit(n: nat, only: nat)
    requires n > 0
    ensures WireSize(n, 2 * n - 1 + only) <= SizeLimit(n) <==> only <= Slack(n)
  {
    var flagBytes, quarter := (2 * n + 6 + only) / 8, (n + 3) / 4;
    assert SizeLimit(n) == 10 + 32 * n + quarter && flagBytes >= quarter;
    assert only <= Slack(n) <==> flagBytes <= Room(n);
  }

  /** How many nodes with a single child lie above a match. */
  function LoneNodes(mask: seq<bool>): nat
    requires |mask| > 0
  {
    RootExists(|mask|);
    OnlyChildren(mask, TreeHeight(|mask|), 0)
  }

  /** One flag for every stored hash and every node descended from. */
  lemma TreeBits(h: PairHash, txids: seq<Hash>, mask: seq<bool>)
    requires |txids| == |mask| > 0
    ensures var t := EncodeTree(h, txids, mask); |t.hashes| > 0 && |t.bits| == 2 * |t.hashes| - 1 + LoneNodes(mask)
  {
    hide Encode, OnlyChildren, CalcTreeWidth, TreeHeight;
    RootExists(|txids|);
    EncodedSize(h, txids, mask, TreeHeight(|txids|), 0);
  }

  /** The documented limit on bytes holds if and only if there is room for the nodes with a single child above a match. */
  lemma EncodedBytes(h: PairHash, txids: seq<Hash>, mask: seq<bool>)
    requires |txids| == |mask| > 0
    ensures var n, bits := |EncodeTree(h, txids, mask).hashes|, |EncodeTree(h, txids, mask).bits|;
            WireSize(n, bits) <= SizeLimit(n) <==> LoneNodes(mask) <= Slack(n)
  {
    hide EncodeTree, LoneNodes, WireSize, SizeLimit, Slack;
    TreeBits(h, txids, mask);
    BytesFit(|EncodeTree(h, txids, mask).hashes|, LoneNodes(mask));
  }

  predicate AllMatched(mask: seq<bool>) {
    forall i :: 0 <= i < |mask| ==> mask[i]
  }

  lemma MatchedBelow(mask: seq<bool>, height: nat, pos: nat)
    requires AllMatched(mask) && pos < CalcTreeWidth(|mask|, height)
    ensures SelectedBelow(mask, height, pos) != []
  {
    LeafBounds(|mask|, height, pos);
    assert LeafLo(height, pos) in SelectedBelow(mask, height, pos);
  }

  /** A matched subtree with all its leaves stores each of them. */
  lemma {:induction false} FullSubtree(h: PairHash, txids: seq<Hash>, mask: seq<bool>, height: nat, pos: nat)
    requires |txids| == |mask| && AllMatched(mask) && (pos + 1) * Pow2(height) <= |mask|
    ensures pos < CalcTreeWidth(|mask|, height)
    ensures OnlyChildren(mask, height, pos) == 0 && |Encode(h, txids, mask, height, pos).hashes| == Pow2(height)
    decreases height
  {
    hide CalcTreeWidth, SelectedBelow, Encode, CalcHash;
    MulMono(pos, pos + 1, Pow2(height));
    assert (pos + 1) * Pow2(height) == pos * Pow2(height) + Pow2(height);
    WidthIff(|mask|, height, pos);
    MatchedBelow(mask, height, pos);
    if height == 0 {
      EncodeStop(h, txids, mask, height, pos);
    } else {
      DoublePos(height, pos);
      LeafSplit(|mask|, height, pos);
      MulMono(pos * 2 + 1, pos * 2 + 2, Pow2(height - 1));
      FullSubtree(h, txids, mask, height - 1, pos * 2);
      FullSubtree(h, txids, mask, height - 1, pos * 2 + 1);
      EncodeInner(h, txids, mask, height, pos);
    }
  }

  /** The nodes above a last leaf that is alone have single children. */
  lemma {:induction false} LastAlone(h: PairHash, txids: seq<Hash>, mask: seq<bool>, height: nat, pos: nat)
    requires |txids| == |mask| && AllMatched(mask) && pos * Pow2(height) == |mask| - 1
    ensures pos < CalcTreeWidth(|mask|, height)
    ensures OnlyChildren(mask, height, pos) == height && |Encode(h, txids, mask, height, pos).hashes| == 1
    decreases height
  {
    hide CalcTreeWidth, SelectedBelow, Encode, CalcHash;
    WidthIff(|mask|, height, pos);
    MatchedBelow(mask, height, pos);
    if height == 0 {
      EncodeStop(h, txids, mask, height, pos);
    } else {
      DoublePos(height, pos);
      LeafSplit(|mask|, height, pos);
      WidthIff(|mask|, height - 1, pos * 2 + 1);
      LastAlone(h, txids, mask, height - 1, pos * 2);
      EncodeInner(h, txids, mask, height, pos);
    }
  }

  lemma HeightAbove(k: nat)
    ensures TreeHeight(Pow2(k) + 1) == k + 1
  {
    var n := Pow2(k) + 1;
    WidthIff(n, k, 1);
    WidthIff(n, k + 1, 1);
    var height := TreeHeight(n);
    WidthIff(n, height, 1);
    if height <= k {
      Pow2Mono(height, k);
      assert false;
    }
  }

  /** One transaction more than a power of two, all matched: every hash is stored, with one single child a row. */
  lemma OneMoreMatched(h: PairHash, txids: seq<Hash>, mask: seq<bool>, k: nat)
    requires |txids| == |mask| == Pow2(k) + 1 && AllMatched(mask)
    ensures |EncodeTree(h, txids, mask).hashes| == Pow2(k) + 1 && LoneNodes(mask) == k
  {
    hide SelectedBelow, CalcHash;
    HeightAbove(k);
    RootExists(|mask|);
    MatchedBelow(mask, k + 1, 0);
    LeafSplit(|mask|, k + 1, 0);
    FullSubtree(h, txids, mask, k, 0);
    LastAlone(h, txids, mask, k, 1);
    EncodeInner(h, txids, mask, k + 1, 0);
  }

  /** 1025 transactions, all matched, exceed the documented limit on bytes. */
  lemma BytesPromiseFails(h: PairHash, txids: seq<Hash>, mask: seq<bool>)
    requires |txids| == |mask| == 1025 && AllMatched(mask)
    ensures var t := EncodeTree(h, txids, mask);
            |t.hashes| == 1025 && LoneNodes(mask) == 10 && Slack(1025) == 7 && WireSize(|t.hashes|, |t.bits|) > SizeLimit(|t.hashes|)
  {
    hide EncodeTree, LoneNodes, WireSize, SizeLimit;
    assert Pow2(10) == 1024 by { assert Pow2(5) == 32; Pow2Sum(5, 5); }
    OneMoreMatched(h, txids, mask, 10);
    EncodedBytes(h, txids, mask);
  }

  lemma WidthsOfThree()
    ensures CalcTreeWidth(3, 0) == 3 && CalcTreeWidth(3, 1) == 2 && CalcTreeWidth(3, 2) == 1
    ensures TreeHeight(3) == 2
  {
    assert Pow2(0) == 1 && Pow2(1) == 2 && Pow2(2) == 4;
    assert HeightFrom(3, 2) == 2;
    assert HeightFrom(3, 1) == 2;
  }

  lemma SelectedOfThree(mask: seq<bool>)
    requires mask == [false, false, true]
    requires CalcTreeWidth(3, 1) == 2 && CalcTreeWidth(3, 2) == 1
    ensures SelectedBelow(mask, 2, 0) != [] && SelectedBelow(mask, 1, 0) == [] && SelectedBelow(mask, 1, 1) != []
  {
    hide CalcTreeWidth;
    assert Pow2(1) == 2 && Pow2(2) == 4;
    assert Selected(mask, 0, 2) == [] by {
      assert Selected(mask, 2, 2) == [] && Selected(mask, 1, 2) == [];
    }
    hide Selected;
    assert 2 in Selected(mask, 0, 3) && 2 in Selected(mask, 2, 3);
  }

  // ----- Soundness: decoding an arbitrary stream

  ghost predicate Ascending(s: seq<nat>, lo: nat, hi: nat) {
    && (forall i :: 0 <= i < |s| ==> lo <= s[i] < hi)
    && (forall i, j :: 0 <= i < j < |s| ==> s[i] < s[j])
  }

  /** `d` adds to `c` only leaves in `[lo, hi)`, ascending, each with its true id. */
  ghost predicate AddsTrueLeaves(txids: seq<Hash>, c: Cursor, d: Cursor, lo: nat, hi: nat) {
    && hi <= |txids|
    && c.indices <= d.indices
    && var sel := d.indices[|c.indices|..];
    && Ascending(sel, lo, hi)
    && d.matches == c.matches + Pick(txids, sel)
  }

  lemma AddsTwice(txids: seq<Hash>, c: Cursor, d: Cursor, e: Cursor, lo: nat, mid: nat, hi: nat)
    requires AddsTrueLeaves(txids, c, d, lo, mid) && AddsTrueLeaves(txids, d, e, mid, hi) && lo <= mid <= hi
    ensures AddsTrueLeaves(txids, c, e, lo, hi)
  {
    hide Ascending, Pick;
    var s1, s2 := d.indices[|c.indices|..], e.indices[|d.indices|..];
    TailsJoin(c.indices, d.indices, e.indices);
    AscendingConcat(s1, s2, lo, mid, hi);
    AscendingIn(s1, lo, mid);
    AscendingIn(s2, mid, hi);
    PickConcat(txids, s1, s2);
    assert (c.matches + Pick(txids, s1)) + Pick(txids, s2) == c.matches + (Pick(txids, s1) + Pick(txids, s2));
  }

  lemma TailsJoin(a: seq<nat>, b: seq<nat>, c: seq<nat>)
    requires a <= b <= c
    ensures a <= c && c[|a|..] == b[|a|..] + c[|b|..]
  {
  }

  lemma AscendingIn(s: seq<nat>, lo: nat, hi: nat)
    requires Ascending(s, lo, hi)
    ensures forall i :: 0 <= i < |s| ==> s[i] < hi
  {
  }

  lemma AscendingConcat(s: seq<nat>, t: seq<nat>, lo: nat, mid: nat, hi: nat)
    requires Ascending(s, lo, mid) && Ascending(t, mid, hi) && lo <= mid <= hi
    ensures Ascending(s + t, lo, hi)
  {
  }

  lemma PickConcat(txids: seq<Hash>, s: seq<nat>, t: seq<nat>)
    requires forall i :: 0 <= i < |s| ==> s[i] < |txids|
    requires forall i :: 0 <= i < |t| ==> t[i] < |txids|
    ensures Pick(txids, s + t) == Pick(txids, s) + Pick(txids, t)
  {
  }

  lemma {:induction false} BadSticks(h: PairHash, n: nat, s: Streams, height: nat, pos: nat, c: Cursor)
    requires c.bad
    ensures Decode(h, n, s, height, pos, c).1.bad
    decreases height
  {
    if height > 0 && c.bitsUsed < |s.bits| && s.bits[c.bitsUsed] {
      var c1 := c.(bitsUsed := c.bitsUsed + 1);
      BadSticks(h, n, s, height - 1, pos * 2, c1);
      BadSticks(h, n, s, height - 1, pos * 2 + 1, Decode(h, n, s, height - 1, pos * 2, c1).1);
    }
  }

  /**
   * Reading met, at some node it descended from, a pair of hashes other than the block's at that node
   * with the same hash.
   */
  ghost predicate Forged(h: PairHash, txids: seq<Hash>, s: Streams, height: nat, pos: nat, c: Cursor)
    decreases height
  {
    && height > 0 && pos < CalcTreeWidth(|txids|, height) && c.bitsUsed < |s.bits| && s.bits[c.bitsUsed]
    && var l := Decode(h, |txids|, s, height - 1, pos * 2, c.(bitsUsed := c.bitsUsed + 1));
       var two := pos * 2 + 1 < CalcTreeWidth(|txids|, height - 1);
       var right := if two then Decode(h, |txids|, s, height - 1, pos * 2 + 1, l.1).0 else l.0;
       || ((l.0, right) != ChildHashes(h, txids, height, pos) && h(l.0, right) == CalcHash(h, txids, height, pos))
       || Forged(h, txids, s, height - 1, pos * 2, c.(bitsUsed := c.bitsUsed + 1))
       || (two && Forged(h, txids, s, height - 1, pos * 2 + 1, l.1))
  }

  lemma {:induction false} DecodeIsSound(h: PairHash, txids: seq<Hash>, s: Streams, height: nat, pos: nat, c: Cursor)
    requires pos < CalcTreeWidth(|txids|, height)
    requires Decode(h, |txids|, s, height, pos, c).0 == CalcHash(h, txids, height, pos)
    requires !Decode(h, |txids|, s, height, pos, c).1.bad
    ensures Forged(h, txids, s, height, pos, c) ||
            AddsTrueLeaves(txids, c, Decode(h, |txids|, s, height, pos, c).1,
                           LeafLo(height, pos), LeafHi(|txids|, height, pos))
    decreases height, 1
  {
    if height > 0 && c.bitsUsed < |s.bits| && s.bits[c.bitsUsed] {
      if !Forged(h, txids, s, height, pos, c) {
        InnerIsSound(h, txids, s, height, pos, c);
      }
    } else {
      LeafIsSound(h, txids, s, height, pos, c);
    }
  }

  lemma LeafIsSound(h: PairHash, txids: seq<Hash>, s: Streams, height: nat, pos: nat, c: Cursor)
    requires pos < CalcTreeWidth(|txids|, height)
    requires height == 0 || c.bitsUsed >= |s.bits| || !s.bits[c.bitsUsed]
    requires Decode(h, |txids|, s, height, pos, c).0 == CalcHash(h, txids, height, pos)
    requires !Decode(h, |txids|, s, height, pos, c).1.bad
    ensures AddsTrueLeaves(txids, c, Decode(h, |txids|, s, height, pos, c).1,
                           LeafLo(height, pos), LeafHi(|txids|, height, pos))
  {
    LeafBounds(|txids|, height, pos);
    hide CalcTreeWidth, LeafHi, LeafLo, AddsTrueLeaves;
    var d := Decode(h, |txids|, s, height, pos, c).1;
    if height == 0 && s.bits[c.bitsUsed] {
      AddsOne(txids, c, d, pos);
      assert LeafLo(0, pos) == pos && LeafHi(|txids|, 0, pos) == pos + 1;
    } else {
      AddsNothing(txids, c, d, LeafLo(height, pos), LeafHi(|txids|, height, pos));
    }
  }

  lemma AddsOne(txids: seq<Hash>, c: Cursor, d: Cursor, pos: nat)
    requires pos < |txids| && d.indices == c.indices + [pos] && d.matches == c.matches + [txids[pos]]
    ensures AddsTrueLeaves(txids, c, d, pos, pos + 1)
  {
    assert d.indices[|c.indices|..] == [pos];
    assert Pick(txids, [pos]) == [txids[pos]];
  }

  lemma AddsNothing(txids: seq<Hash>, c: Cursor, d: Cursor, lo: nat, hi: nat)
    requires hi <= |txids| && d.indices == c.indices && d.matches == c.matches
    ensures AddsTrueLeaves(txids, c, d, lo, hi)
  {
    assert d.indices[|c.indices|..] == [];
    assert Pick(txids, []) == [];
  }

  lemma {:induction false} InnerIsSound(h: PairHash, txids: seq<Hash>, s: Streams, height: nat, pos: nat, c: Cursor)
    requires height > 0 && pos < CalcTreeWidth(|txids|, height) && !Forged(h, txids, s, height, pos, c)
    requires c.bitsUsed < |s.bits| && s.bits[c.bitsUsed]
    requires Decode(h, |txids|, s, height, pos, c).0 == CalcHash(h, txids, height, pos)
    requires !Decode(h, |txids|, s, height, pos, c).1.bad
    ensures AddsTrueLeaves(txids, c, Decode(h, |txids|, s, height, pos, c).1,
                           LeafLo(height, pos), LeafHi(|txids|, height, pos))
    decreases height, 0
  {
    hide CalcTreeWidth, Decode, AddsTrueLeaves, LeafHi, LeafLo, Forged;
    DecodeInner(h, |txids|, s, height, pos, c);
    LeafSplit(|txids|, height, pos);
    CalcHashInner(h, txids, height, pos);
    NotForged(h, txids, s, height, pos, c);
    var c1 := c.(bitsUsed := c.bitsUsed + 1);
    var (left, c2) := Decode(h, |txids|, s, height - 1, pos * 2, c1);
    SameStart(txids, c, c1, c2, LeafLo(height - 1, pos * 2), LeafHi(|txids|, height - 1, pos * 2));
    if pos * 2 + 1 < CalcTreeWidth(|txids|, height - 1) {
      var (right, c3) := Decode(h, |txids|, s, height - 1, pos * 2 + 1, c2);
      if c2.bad {
        BadSticks(h, |txids|, s, height - 1, pos * 2 + 1, c2);
      }
      DecodeIsSound(h, txids, s, height - 1, pos * 2, c1);
      DecodeIsSound(h, txids, s, height - 1, pos * 2 + 1, c2);
      LeafBounds(|txids|, height - 1, pos * 2);
      LeafBounds(|txids|, height - 1, pos * 2 + 1);
      AddsTwice(txids, c, c2, c3, LeafLo(height, pos), LeafHi(|txids|, height - 1, pos * 2), LeafHi(|txids|, height, pos));
    } else {
      DecodeIsSound(h, txids, s, height - 1, pos * 2, c1);
    }
  }

  lemma NotForged(h: PairHash, txids: seq<Hash>, s: Streams, height: nat, pos: nat, c: Cursor)
    requires height > 0 && pos < CalcTreeWidth(|txids|, height) && !Forged(h, txids, s, height, pos, c)
    requires c.bitsUsed < |s.bits| && s.bits[c.bitsUsed] && pos * 2 < CalcTreeWidth(|txids|, height - 1)
    ensures var c1 := c.(bitsUsed := c.bitsUsed + 1);
      var l := Decode(h, |txids|, s, height - 1, pos * 2, c1);
      var left := CalcHash(h, txids, height - 1, pos * 2);
      && !Forged(h, txids, s, height - 1, pos * 2, c1)
      && (if pos * 2 + 1 < CalcTreeWidth(|txids|, height - 1)
          then !Forged(h, txids, s, height - 1, pos * 2 + 1, l.1) &&
               var r := Decode(h, |txids|, s, height - 1, pos * 2 + 1, l.1).0;
               h(l.0, r) == CalcHash(h, txids, height, pos) ==> l.0 == left && r == CalcHash(h, txids, height - 1, pos * 2 + 1)
          else h(l.0, l.0) == CalcHash(h, txids, height, pos) ==> l.0 == left)
  {
    hide CalcTreeWidth, Decode, CalcHash;
    LeafSplit(|txids|, height, pos);
  }

  lemma SameStart(txids: seq<Hash>, c: Cursor, c1: Cursor, d: Cursor, lo: nat, hi: nat)
    requires c1 == c.(bitsUsed := c.bitsUsed + 1)
    ensures AddsTrueLeaves(txids, c1, d, lo, hi) ==> AddsTrueLeaves(txids, c, d, lo, hi)
  {
  }

  // ----- Whole trees

  /** What extraction leaves in the object and gives the caller; the null hash means failure. */
  datatype Extraction = Extraction(root: Hash, matches: seq<Hash>, indices: seq<nat>, bad: bool)

  /** Extraction from a tree claiming `n` transactions; `indices` is the caller's list, appended to. */
  function Extract(h: PairHash, maxTx: nat, n: nat, s: Streams, bad: bool, indices: seq<nat>): Extraction {
    if n == 0 || n > maxTx || |s.hashes| > n || |s.bits| < |s.hashes| then
      Extraction(NULL_HASH, [], indices, bad)
    else
      var (root, c) := Decode(h, n, s, TreeHeight(n), 0, Cursor(0, 0, bad, [], indices));
      Extraction(if c.bad || (c.bitsUsed + 7) / 8 != (|s.bits| + 7) / 8 || c.hashUsed != |s.hashes|
                 then NULL_HASH else root, c.matches, c.indices, c.bad)
  }

  /** On the way to a match two children have the same hash. */
  predicate TreeTwins(h: PairHash, txids: seq<Hash>, mask: seq<bool>)
    requires |txids| == |mask| > 0
  {
    RootExists(|txids|);
    Twins(h, txids, mask, TreeHeight(|txids|), 0)
  }

  /**
   * Completeness.  An encoded block, its flags padded to whole bytes, extracts to the block's Merkle
   * root and exactly the selected transactions, in block order; it is found bad exactly with twins on
   * the way to a match.
   */
  lemma ExtractIsComplete(h: PairHash, maxTx: nat, txids: seq<Hash>, mask: seq<bool>, pad: seq<bool>, indices: seq<nat>)
    requires 0 < |txids| == |mask| <= maxTx
    requires (|EncodeTree(h, txids, mask).bits| + |pad|) == (|EncodeTree(h, txids, mask).bits| + 7) / 8 * 8
    ensures var t := EncodeTree(h, txids, mask);
            var sel := Selected(mask, 0, |mask|);
            Extract(h, maxTx, |txids|, t.(bits := t.bits + pad), false, indices) ==
            Extraction(if TreeTwins(h, txids, mask) then NULL_HASH else Root(h, txids), Pick(txids, sel), indices + sel,
                       TreeTwins(h, txids, mask))
  {
    hide CalcTreeWidth, Encode, Decode, TreeHeight, Selected, CalcHash, At, Twins;
    var t := EncodeTree(h, txids, mask);
    var s := t.(bits := t.bits + pad);
    var height := TreeHeight(|txids|);
    RootExists(|txids|);
    RootCoversAll(|txids|);
    EncodedSize(h, txids, mask, height, 0);
    var c := Cursor(0, 0, false, [], indices);
    AtStart(t, pad, c);
    DecodeEncoded(h, txids, mask, height, 0, s, c);
    var sel := SelectedBelow(mask, height, 0);
    assert [] + Pick(txids, sel) == Pick(txids, sel);
  }

  lemma AtStart(t: Streams, pad: seq<bool>, c: Cursor)
    requires c.bitsUsed == 0 && c.hashUsed == 0
    ensures At(t.(bits := t.bits + pad), c, t)
  {
  }

  lemma RootCoversAll(n: nat)
    requires n > 0
    ensures LeafLo(TreeHeight(n), 0) == 0 && LeafHi(n, TreeHeight(n), 0) == n
  {
    RootExists(n);
    WidthIff(n, TreeHeight(n), 1);
  }

  /**
   * Soundness.  Whatever the streams hold, if they extract to the Merkle root of a block of the same
   * size then every reported pair is one of the block's transactions at its true index, in strictly
   * ascending order, unless reading met another pair of hashes with the hash of the block's.
   */
  lemma ExtractIsSound(h: PairHash, maxTx: nat, txids: seq<Hash>, s: Streams, bad: bool, indices: seq<nat>)
    requires txids != [] && Root(h, txids) != NULL_HASH
    requires Extract(h, maxTx, |txids|, s, bad, indices).root == Root(h, txids)
    ensures var e := Extract(h, maxTx, |txids|, s, bad, indices);
            Forged(h, txids, s, TreeHeight(|txids|), 0, Cursor(0, 0, bad, [], indices)) ||
            (indices <= e.indices &&
             var sel := e.indices[|indices|..];
             Ascending(sel, 0, |txids|) && e.matches == Pick(txids, sel))
  {
    RootExists(|txids|);
    RootCoversAll(|txids|);
    var c := Cursor(0, 0, bad, [], indices);
    DecodeIsSound(h, txids, s, TreeHeight(|txids|), 0, c);
    hide CalcTreeWidth, Decode, TreeHeight, Forged;
    var d := Decode(h, |txids|, s, TreeHeight(|txids|), 0, c).1;
    if !Forged(h, txids, s, TreeHeight(|txids|), 0, c) {
      var sel := d.indices[|indices|..];
      assert [] + Pick(txids, sel) == Pick(txids, sel);
    }
  }
}
