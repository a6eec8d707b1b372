/**
 * The in-memory partial Merkle tree object and its wire form (src/merkleblock.h, src/merkleblock.cpp):
 * recursive traversals that append to, or consume, the object's two streams, and flag bits packed
 * eight to a byte.
 */
module MerkleBlock {
  import opened Powers
  import opened PartialMerkleTree

  // ----- Flag bits packed into bytes, least significant bit first

  function BitMask(q: nat): bv8
    requires q < 8
  {
    match q
    case 0 => 1 case 1 => 2 case 2 => 4 case 3 => 8
    case 4 => 16 case 5 => 32 case 6 => 64 case _ => 128
  }

  predicate BitSet(b: bv8, q: nat)
    requires q < 8
  {
    b & BitMask(q) != 0
  }

  lemma SetOneBit(b: bv8, q: nat, r: nat)
    requires q < 8 && r < 8
    ensures BitSet(b | BitMask(q), r) <==> (q == r || BitSet(b, r))
    ensures !BitSet(0, r)
  {
    assert q != r ==> BitMask(q) & BitMask(r) == 0;
    assert BitMask(q) & BitMask(q) == BitMask(q) != 0;
    assert (b | BitMask(q)) & BitMask(r) == (b & BitMask(r)) | (BitMask(q) & BitMask(r));
  }

  predicate FlagAt(bytes: seq<bv8>, p: nat)
    requires p < 8 * |bytes|
  {
    BitSet(bytes[p / 8], p % 8)
  }

  lemma SetFlag(bytes: seq<bv8>, p: nat, q: nat)
    requires p < 8 * |bytes| && q < 8 * |bytes|
    ensures FlagAt(bytes[p / 8 := bytes[p / 8] | BitMask(p % 8)], q) <==> (p == q || FlagAt(bytes, q))
  {
    SetOneBit(bytes[p / 8], p % 8, q % 8);
  }

  method PackFlags(bits: seq<bool>) returns (bytes: seq<bv8>)
    ensures |bytes| == (|bits| + 7) / 8
    ensures forall p :: 0 <= p < 8 * |bytes| ==> (FlagAt(bytes, p) <==> p < |bits| && bits[p])
  {
    bytes := seq((|bits| + 7) / 8, _ => 0);
    forall p | 0 <= p < 8 * |bytes| ensures !FlagAt(bytes, p) {
      SetOneBit(0, 0, p % 8);
    }
    for p := 0 to |bits|
      invariant |bytes| == (|bits| + 7) / 8
      invariant forall q :: 0 <= q < 8 * |bytes| ==> (FlagAt(bytes, q) <==> q < p && bits[q])
    {
      ghost var before := bytes;
      if bits[p] {
        forall q | 0 <= q < 8 * |bytes|
          ensures FlagAt(bytes[p / 8 := bytes[p / 8] | BitMask(p % 8)], q) <==> (p == q || FlagAt(bytes, q))
        {
          SetFlag(bytes, p, q);
        }
        bytes := bytes[p / 8 := bytes[p / 8] | BitMask(p % 8)];
      }
      assert forall q :: 0 <= q < 8 * |bytes| ==> (FlagAt(bytes, q) <==> (q == p && bits[p]) || FlagAt(before, q));
    }
  }

  method UnpackFlags(bytes: seq<bv8>) returns (bits: seq<bool>)
    ensures |bits| == 8 * |bytes|
    ensures forall p :: 0 <= p < |bits| ==> (bits[p] <==> FlagAt(bytes, p))
  {
    bits := [];
    for p := 0 to 8 * |bytes|
      invariant |bits| == p
      invariant forall q :: 0 <= q < p ==> (bits[q] <==> FlagAt(bytes, q))
    {
      bits := bits + [bytes[p / 8] & BitMask(p % 8) != 0];
    }
  }

  // ----- The tree object

  class PartialTree {
    var nTransactions: nat
    var vBits: seq<bool>
    var vHash: seq<Hash>
    var fBad: bool

    ghost function Stored(): Streams
      reads this
    {
      Streams(vBits, vHash)
    }

    /** Builds the partial tree of a block; the source asserts the block is not empty. */
    constructor FromBlock(h: PairHash, vTxid: seq<Hash>, vMatch: seq<bool>)
      requires |vTxid| == |vMatch| > 0
      ensures nTransactions == |vTxid| && !fBad
      ensures Stored() == EncodeTree(h, vTxid, vMatch)
    {
      nTransactions, fBad, vBits, vHash := |vTxid|, false, [], [];
      new;
      var height := CalcTreeHeight(|vTxid|);
      RootExists(|vTxid|);
      TraverseAndBuild(h, height, 0, vTxid, vMatch);
    }

    /** The tree a peer sent: transaction count, hashes and packed flags. */
    constructor FromWire(n: nat, hashes: seq<Hash>, bytes: seq<bv8>)
      ensures nTransactions == n && vHash == hashes && !fBad && |vBits| == 8 * |bytes|
      ensures forall p :: 0 <= p < |vBits| ==> (vBits[p] <==> FlagAt(bytes, p))
    {
      var bits := UnpackFlags(bytes);
      nTransactions, vHash, vBits, fBad := n, hashes, bits, false;
    }

    /** Whether some transaction below node (`height`, `pos`) is matched. */
    method ParentOfMatch(height: nat, pos: nat, vMatch: seq<bool>) returns (found: bool)
      requires pos < CalcTreeWidth(|vMatch|, height)
      ensures found <==> SelectedBelow(vMatch, height, pos) != []
    {
      LeafBounds(|vMatch|, height, pos);
      var lo, hi := pos * Pow2(height), LeafHi(|vMatch|, height, pos);
      hide CalcTreeWidth;
      found := false;
      var p := lo;
      while p < (pos + 1) * Pow2(height) && p < |vMatch|
        invariant lo <= p <= hi
        invariant found <==> exists q :: lo <= q < p && vMatch[q]
      {
        found := found || vMatch[p];
        p := p + 1;
      }
      NonEmptyIff(vMatch, lo, hi);
    }

    static lemma NonEmptyIff(mask: seq<bool>, lo: nat, hi: nat)
      requires lo <= hi <= |mask|
      ensures Selected(mask, lo, hi) != [] <==> exists q :: lo <= q < hi && mask[q]
    {
      var s := Selected(mask, lo, hi);
      if s != [] {
        assert lo <= s[0] < hi && mask[s[0]];
      }
    }

    method TraverseAndBuild(h: PairHash, height: nat, pos: nat, vTxid: seq<Hash>, vMatch: seq<bool>)
      requires |vTxid| == |vMatch| == nTransactions && pos < CalcTreeWidth(nTransactions, height)
      modifies this`vBits, this`vHash
      ensures Stored() == old(Stored()).Then(Encode(h, vTxid, vMatch, height, pos))
      decreases height
    {
      hide CalcTreeWidth, SelectedBelow, CalcHash, Encode;
      var parentOfMatch := ParentOfMatch(height, pos, vMatch);
      vBits := vBits + [parentOfMatch];
      if height == 0 || !parentOfMatch {
        vHash := vHash + [CalcHash(h, vTxid, height, pos)];
        EncodeStop(h, vTxid, vMatch, height, pos);
      } else {
        LeafSplit(|vMatch|, height, pos);
        EncodeInner(h, vTxid, vMatch, height, pos);
        assert Stored() == old(Stored()).Then(Streams([true], []));
        ThenAssoc(old(Stored()), Streams([true], []), Encode(h, vTxid, vMatch, height - 1, pos * 2));
        TraverseAndBuild(h, height - 1, pos * 2, vTxid, vMatch);
        if pos * 2 + 1 < CalcTreeWidth(nTransactions, height - 1) {
          ThenAssoc(old(Stored()), Streams([true], []).Then(Encode(h, vTxid, vMatch, height - 1, pos * 2)),
                    Encode(h, vTxid, vMatch, height - 1, pos * 2 + 1));
          TraverseAndBuild(h, height - 1, pos * 2 + 1, vTxid, vMatch);
        }
      }
    }

    static lemma ThenAssoc(a: Streams, b: Streams, c: Streams)
      ensures a.Then(b).Then(c) == a.Then(b.Then(c))
    {
      assert (a.bits + b.bits) + c.bits == a.bits + (b.bits + c.bits);
      assert (a.hashes + b.hashes) + c.hashes == a.hashes + (b.hashes + c.hashes);
    }

    method TraverseAndExtract(h: PairHash, height: nat, pos: nat, nBitsUsed0: nat, nHashUsed0: nat,
                              vMatch0: seq<Hash>, vnIndex0: seq<nat>)
      returns (hash: Hash, nBitsUsed: nat, nHashUsed: nat, vMatch: seq<Hash>, vnIndex: seq<nat>)
      modifies this`fBad
      ensures (hash, Cursor(nBitsUsed, nHashUsed, fBad, vMatch, vnIndex)) ==
              Decode(h, nTransactions, Stored(), height, pos,
                     Cursor(nBitsUsed0, nHashUsed0, old(fBad), vMatch0, vnIndex0))
      decreases height
    {
      nBitsUsed, nHashUsed, vMatch, vnIndex := nBitsUsed0, nHashUsed0, vMatch0, vnIndex0;
      if nBitsUsed >= |vBits| {
        fBad := true;
        return NULL_HASH, nBitsUsed, nHashUsed, vMatch, vnIndex;
      }
      var parentOfMatch := vBits[nBitsUsed];
      nBitsUsed := nBitsUsed + 1;
      if height == 0 || !parentOfMatch {
        if nHashUsed >= |vHash| {
          fBad := true;
          return NULL_HASH, nBitsUsed, nHashUsed, vMatch, vnIndex;
        }
        hash := vHash[nHashUsed];
        nHashUsed := nHashUsed + 1;
        if height == 0 && parentOfMatch {
          vMatch := vMatch + [hash];
          vnIndex := vnIndex + [pos];
        }
      } else {
        var left, right;
        left, nBitsUsed, nHashUsed, vMatch, vnIndex :=
          TraverseAndExtract(h, height - 1, pos * 2, nBitsUsed, nHashUsed, vMatch, vnIndex);
        if pos * 2 + 1 < CalcTreeWidth(nTransactions, height - 1) {
          right, nBitsUsed, nHashUsed, vMatch, vnIndex :=
            TraverseAndExtract(h, height - 1, pos * 2 + 1, nBitsUsed, nHashUsed, vMatch, vnIndex);
          if right == left {
            fBad := true;
          }
        } else {
          right := left;
        }
        hash := h(left, right);
      }
    }

    /** The source clears the match list but appends to the caller's index list. */
    method ExtractMatches(h: PairHash, maxTx: nat, vnIndex0: seq<nat>)
      returns (root: Hash, vMatch: seq<Hash>, vnIndex: seq<nat>)
      modifies this`fBad
      ensures Extraction(root, vMatch, vnIndex, fBad) ==
              Extract(h, maxTx, nTransactions, Stored(), old(fBad), vnIndex0)
    {
      vMatch, vnIndex := [], vnIndex0;
      if nTransactions == 0 {
        return NULL_HASH, vMatch, vnIndex;
      }
      if nTransactions > maxTx {
        return NULL_HASH, vMatch, vnIndex;
      }
      if |vHash| > nTransactions {
        return NULL_HASH, vMatch, vnIndex;
      }
      if |vBits| < |vHash| {
        return NULL_HASH, vMatch, vnIndex;
      }
      var height := CalcTreeHeight(nTransactions);
      hide Decode, TreeHeight;
      var nBitsUsed, nHashUsed;
      root, nBitsUsed, nHashUsed, vMatch, vnIndex := TraverseAndExtract(h, height, 0, 0, 0, vMatch, vnIndex);
      if fBad {
        return NULL_HASH, vMatch, vnIndex;
      }
      if (nBitsUsed + 7) / 8 != (|vBits| + 7) / 8 {
        return NULL_HASH, vMatch, vnIndex;
      }
      if nHashUsed != |vHash| {
        return NULL_HASH, vMatch, vnIndex;
      }
    }
  }

  /**
   * A block's partial tree, sent over the wire and read back, yields exactly the selected transactions
   * with their indices and, unless two children on the way to a match have the same hash, the block's
   * Merkle root, from at most `1 + matches * height` hashes and never more hashes than transactions.
   */
  method RelayBlock(h: PairHash, maxTx: nat, vTxid: seq<Hash>, vMatch: seq<bool>)
    returns (sentHashes: nat, root: Hash, matches: seq<Hash>, indices: seq<nat>)
    requires 0 < |vTxid| == |vMatch| <= maxTx
    ensures root == if TreeTwins(h, vTxid, vMatch) then NULL_HASH else Root(h, vTxid)
    ensures indices == Selected(vMatch, 0, |vMatch|) && matches == Pick(vTxid, indices)
    ensures sentHashes <= |vTxid| && sentHashes <= 1 + |indices| * TreeHeight(|vTxid|)
  {
    var sender := new PartialTree.FromBlock(h, vTxid, vMatch);
    var bytes := PackFlags(sender.vBits);
    var receiver := new PartialTree.FromWire(sender.nTransactions, sender.vHash, bytes);
    sentHashes := |sender.vHash|;
    ghost var t := EncodeTree(h, vTxid, vMatch);
    ghost var pad := seq(|receiver.vBits| - |t.bits|, _ => false);
    assert receiver.vBits == t.bits + pad;
    assert receiver.Stored() == t.(bits := t.bits + pad);
    RelayFacts(h, maxTx, vTxid, vMatch, pad);
    hide Extract, EncodeTree, Selected, Root, TreeTwins, TreeHeight;
    root, matches, indices := receiver.ExtractMatches(h, maxTx, []);
  }

  lemma RelayFacts(h: PairHash, maxTx: nat, txids: seq<Hash>, mask: seq<bool>, pad: seq<bool>)
    requires 0 < |txids| == |mask| <= maxTx
    requires |EncodeTree(h, txids, mask).bits| + |pad| == (|EncodeTree(h, txids, mask).bits| + 7) / 8 * 8
    ensures var t := EncodeTree(h, txids, mask);
            var sel := Selected(mask, 0, |mask|);
            && Extract(h, maxTx, |txids|, t.(bits := t.bits + pad), false, []) ==
               Extraction(if TreeTwins(h, txids, mask) then NULL_HASH else Root(h, txids), Pick(txids, sel), sel, TreeTwins(h, txids, mask))
            && |t.hashes| <= |txids| && |t.hashes| <= 1 + |sel| * TreeHeight(|txids|)
  {
    hide CalcTreeWidth, Encode, Selected, TreeHeight, CalcHash, TreeTwins, Extract;
    ExtractIsComplete(h, maxTx, txids, mask, pad, []);
    var sel := Selected(mask, 0, |mask|);
    assert [] + sel == sel;
    RootExists(|txids|);
    RootCoversAll(|txids|);
    EncodedSize(h, txids, mask, TreeHeight(|txids|), 0);
    HashesPerMatch(h, txids, mask, TreeHeight(|txids|), 0);
  }
}
