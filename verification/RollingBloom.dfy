/** The rolling Bloom filter (src/bloom.cpp): three generations of set positions in two bit planes. */
module RollingBloom {
  import opened Powers

  type Key = seq<int>

  // ----- Words

  /** A bit of a word. */
  predicate Bit(w: bv64, k: bv64)
    requires k < 64
  {
    (w >> k) & 1 == 1
  }

  function And(a: bv64, b: bv64): bv64 {
    a & b
  }

  function Or(a: bv64, b: bv64): bv64 {
    a | b
  }

  function Xor(a: bv64, b: bv64): bv64 {
    a ^ b
  }

  lemma AndRaw(a: bv64, b: bv64, j: bv64)
    requires j < 64
    ensures Bit(a & b, j) == (Bit(a, j) && Bit(b, j))
  {
  }

  lemma AndBit(a: bv64, b: bv64, j: bv64)
    requires j < 64
    ensures Bit(And(a, b), j) == (Bit(a, j) && Bit(b, j))
  {
    hide Bit;
    AndRaw(a, b, j);
  }

  lemma OrRaw(a: bv64, b: bv64, j: bv64)
    requires j < 64
    ensures Bit(a | b, j) == (Bit(a, j) || Bit(b, j))
  {
  }

  lemma OrBit(a: bv64, b: bv64, j: bv64)
    requires j < 64
    ensures Bit(Or(a, b), j) == (Bit(a, j) || Bit(b, j))
  {
    hide Bit;
    OrRaw(a, b, j);
  }

  lemma XorRaw(a: bv64, b: bv64, j: bv64)
    requires j < 64
    ensures Bit(a ^ b, j) == (Bit(a, j) != Bit(b, j))
  {
  }

  lemma XorBit(a: bv64, b: bv64, j: bv64)
    requires j < 64
    ensures Bit(Xor(a, b), j) == (Bit(a, j) != Bit(b, j))
  {
    hide Bit;
    XorRaw(a, b, j);
  }

  /** All ones or all zeros. */
  function Plane(g: bool): bv64 {
    if g then 0xffff_ffff_ffff_ffff else 0
  }

  lemma PlaneBit(g: bool, j: bv64)
    requires j < 64
    ensures Bit(Plane(g), j) == g
  {
  }

  /** One bit alone, set or clear. */
  function Single(g: bool, k: bv64): bv64
    requires k < 64
  {
    (if g then 1 else 0) << k
  }

  /** All bits but one. */
  function Others(k: bv64): bv64
    requires k < 64
  {
    !(1 << k)
  }

  lemma SingleBit(g: bool, k: bv64, j: bv64)
    requires k < 64 && j < 64
    ensures Bit(Single(g, k), j) == (j == k && g)
    ensures Bit(Others(k), j) == (j != k)
  {
  }

  /** The word that holds `g` at one bit and is otherwise unchanged. */
  function Write(w: bv64, g: bool, k: bv64): bv64
    requires k < 64
  {
    Or(And(w, Others(k)), Single(g, k))
  }

  lemma WriteBit(w: bv64, g: bool, k: bv64, j: bv64)
    requires k < 64 && j < 64
    ensures Bit(Write(w, g, k), j) == if j == k then g else Bit(w, j)
  {
    hide Bit, Single, Others, And, Or;
    OrBit(And(w, Others(k)), Single(g, k), j);
    AndBit(w, Others(k), j);
    SingleBit(g, k, j);
  }

  /** The bits of a pair of words that differ from the generation in either plane. */
  function Mask(p1: bv64, p2: bv64, g1: bool, g2: bool): bv64 {
    Or(Xor(p1, Plane(g1)), Xor(p2, Plane(g2)))
  }

  /** The mask clears exactly the positions of one generation, in both planes. */
  lemma WipeBit(p1: bv64, p2: bv64, g1: bool, g2: bool, j: bv64)
    requires j < 64
    ensures var same := Bit(p1, j) == g1 && Bit(p2, j) == g2;
      && Bit(And(p1, Mask(p1, p2, g1, g2)), j) == (Bit(p1, j) && !same)
      && Bit(And(p2, Mask(p1, p2, g1, g2)), j) == (Bit(p2, j) && !same)
  {
    hide Bit, Plane, And, Or, Xor;
    OrBit(Xor(p1, Plane(g1)), Xor(p2, Plane(g2)), j);
    XorBit(p1, Plane(g1), j);
    XorBit(p2, Plane(g2), j);
    PlaneBit(g1, j);
    PlaneBit(g2, j);
    AndBit(p1, Mask(p1, p2, g1, g2), j);
    AndBit(p2, Mask(p1, p2, g1, g2), j);
  }

  // ----- Generation labels

  /** A position of the filter: a pair of words and a bit. */
  datatype Pos = Pos(pair: nat, bit: bv64)

  predicate Within(size: nat, pos: Pos) {
    2 * pos.pair + 1 < size && pos.bit < 64
  }

  /** The generation label of a position, 0 when it is unset. */
  function Label(data: seq<bv64>, pos: Pos): nat
    requires Within(|data|, pos)
  {
    (if Bit(data[2 * pos.pair], pos.bit) then 1 else 0) + (if Bit(data[2 * pos.pair + 1], pos.bit) then 2 else 0)
  }

  /** Where the `n`-th hash of a key points, from the 32-bit hash. */
  function At(hash: bv32, size: nat): (pos: Pos)
    requires size > 0 && size % 2 == 0
    ensures Within(size, pos)
  {
    LowBits(hash);
    Pos(((hash >> 6) as nat % size) / 2, (hash & 0x3f) as bv64)
  }

  /** A hash points at bit `k` of word `w` and of the next: its low six bits, and the rest modulo the size with the lowest bit ignored. */
  predicate Hits(hash: bv32, size: nat, w: nat, k: bv64)
    requires size > 0
  {
    var p := (hash >> 6) as nat % size;
    w == p - p % 2 && k == (hash & 0x3f) as bv64
  }

  lemma HitsAt(hash: bv32, size: nat, pos: Pos)
    requires size > 0 && size % 2 == 0
    ensures Hits(hash, size, 2 * pos.pair, pos.bit) <==> At(hash, size) == pos
  {
    var p := (hash >> 6) as nat % size;
    assert p - p % 2 == 2 * (p / 2);
  }

  lemma LowBits(hash: bv32)
    ensures (hash & 0x3f) as bv64 < 64
  {
  }

  /** Clears one generation in a pair of words. */
  lemma WipePair(data: seq<bv64>, next: seq<bv64>, q: nat, g: nat, pos: Pos)
    requires |next| == |data| && Within(|data|, Pos(q, 0)) && Within(|data|, pos) && 1 <= g <= 3
    requires var m := Mask(data[2 * q], data[2 * q + 1], g % 2 == 1, g / 2 == 1);
      next == data[2 * q := And(data[2 * q], m)][2 * q + 1 := And(data[2 * q + 1], m)]
    ensures Label(next, pos) == if pos.pair == q && Label(data, pos) == g then 0 else Label(data, pos)
  {
    hide Bit, And, Mask;
    if pos.pair == q {
      WipeBit(data[2 * q], data[2 * q + 1], g % 2 == 1, g / 2 == 1, pos.bit);
    }
  }

  /** Labels one position in a pair of words. */
  lemma WritePair(data: seq<bv64>, next: seq<bv64>, at: Pos, g: nat, pos: Pos)
    requires |next| == |data| && Within(|data|, at) && Within(|data|, pos) && 1 <= g <= 3
    requires next == data[2 * at.pair := Write(data[2 * at.pair], g % 2 == 1, at.bit)]
                         [2 * at.pair + 1 := Write(data[2 * at.pair + 1], g / 2 == 1, at.bit)]
    ensures Label(next, pos) == if pos == at then g else Label(data, pos)
  {
    hide Bit, Write;
    if pos.pair == at.pair {
      WriteBit(data[2 * at.pair], g % 2 == 1, at.bit, pos.bit);
      WriteBit(data[2 * at.pair + 1], g / 2 == 1, at.bit, pos.bit);
    }
  }

  // ----- What the filter remembers

  /** A set position carries the label of the generation that last set it, one of the last three. */
  ghost predicate LabelOk(data: seq<bv64>, stamps: map<Pos, nat>, gen: nat, pos: Pos)
    requires Within(|data|, pos)
  {
    if pos in stamps then gen <= stamps[pos] + 2 && stamps[pos] <= gen && Label(data, pos) == stamps[pos] % 3 + 1
    else Label(data, pos) == 0
  }

  ghost predicate LabelsOk(data: seq<bv64>, stamps: map<Pos, nat>, gen: nat) {
    forall pos :: Within(|data|, pos) ==> LabelOk(data, stamps, gen, pos)
  }

  /** Every position of a key was set in generation `g` or later. */
  ghost predicate Remembered(hash: (Key, nat) -> bv32, funcs: nat, size: nat, stamps: map<Pos, nat>, key: Key, g: int)
    requires size > 0 && size % 2 == 0
  {
    forall n :: 0 <= n < funcs ==> Since(stamps, At(hash(key, n), size), g)
  }

  ghost predicate Since(stamps: map<Pos, nat>, pos: Pos, g: int) {
    pos in stamps && stamps[pos] >= g
  }

  /** A key of generation `g` has this position. */
  ghost predicate SetBy(hash: (Key, nat) -> bv32, funcs: nat, size: nat, history: seq<Key>, per: nat, pos: Pos, g: int)
    requires size > 0 && size % 2 == 0 && per > 0
  {
    exists i, n :: 0 <= i < |history| && 0 <= n < funcs && i / per == g && At(hash(history[i], n), size) == pos
  }

  /** No position is set but by a key. */
  ghost predicate Sourced(hash: (Key, nat) -> bv32, funcs: nat, size: nat, history: seq<Key>, per: nat, stamps: map<Pos, nat>)
    requires size > 0 && size % 2 == 0 && per > 0
  {
    forall pos :: pos in stamps ==> SetBy(hash, funcs, size, history, per, pos, stamps[pos])
  }

  /** A key of the last three generations has this position. */
  ghost predicate Touched(hash: (Key, nat) -> bv32, funcs: nat, size: nat, history: seq<Key>, per: nat, gen: nat, pos: Pos)
    requires size > 0 && size % 2 == 0 && per > 0
  {
    exists i, n :: 0 <= i < |history| && 0 <= n < funcs && i / per + 2 >= gen && At(hash(history[i], n), size) == pos
  }

  class RollingBloomFilter {
    var data: seq<bv64>
    var nGeneration: nat
    var nEntriesThisGeneration: nat
    const nEntriesPerGeneration: nat
    const nHashFuncs: nat
    var hash: (Key, nat) -> bv32
    ghost var gen: nat
    ghost var history: seq<Key>
    ghost var stamps: map<Pos, nat>

    constructor (nElements: nat, pairs: nat, funcs: nat, h: (Key, nat) -> bv32)
      ensures Valid() <==> nElements > 0 && pairs > 0
      ensures |data| == 2 * pairs && history == [] && nEntriesPerGeneration == (nElements + 1) / 2 && nHashFuncs == funcs
    {
      nEntriesPerGeneration, nHashFuncs, hash := (nElements + 1) / 2, funcs, h;
      data, nGeneration, nEntriesThisGeneration := seq(2 * pairs, _ => 0), 1, 0;
      gen, history, stamps := 0, [], map[];
      new;
      AllUnset(data);
    }

    /** Forgets everything and takes new hashes. */
    method Reset(h: (Key, nat) -> bv32)
      requires Valid()
      modifies this
      ensures Valid() && history == [] && hash == h
    {
      hash, nEntriesThisGeneration, nGeneration := h, 0, 1;
      data := seq(|data|, _ => 0);
      gen, history, stamps := 0, [], map[];
      AllUnset(data);
    }

    /** The keys inserted since the last reset, and for those of the last three generations their positions. */
    ghost predicate Valid()
      reads this
    {
      && |data| > 0 && |data| % 2 == 0 && nEntriesPerGeneration > 0
      && nGeneration == gen % 3 + 1 && nEntriesThisGeneration <= nEntriesPerGeneration
      && |history| == gen * nEntriesPerGeneration + nEntriesThisGeneration
      && LabelsOk(data, stamps, gen)
      && (forall i :: 0 <= i < |history| ==> KeyOk(i))
      && Sourced(hash, nHashFuncs, |data|, history, nEntriesPerGeneration, stamps)
    }

    ghost predicate KeyOk(i: nat)
      reads this
      requires i < |history| && |data| > 0 && |data| % 2 == 0 && nEntriesPerGeneration > 0
    {
      i / nEntriesPerGeneration + 2 >= gen ==>
        Remembered(hash, nHashFuncs, |data|, stamps, history[i], i / nEntriesPerGeneration)
    }

    /** Wipes the positions of the generation number about to be used again. */
    method Wipe()
      requires |data| % 2 == 0 && 1 <= nGeneration <= 3
      modifies this`data
      ensures |data| == old(|data|) && Wiped(old(data), data, nGeneration, |data| / 2)
    {
      hide And, Mask, Label;
      ghost var was := data;
      var q := 0;
      while 2 * q < |data|
        invariant 0 <= 2 * q <= |data| == |was| && Wiped(was, data, nGeneration, q)
        invariant forall i :: 2 * q <= i < |data| ==> data[i] == was[i]
      {
        var p1, p2 := data[2 * q], data[2 * q + 1];
        var mask := Mask(p1, p2, nGeneration % 2 == 1, nGeneration / 2 == 1);
        ghost var before := data;
        data := data[2 * q := And(p1, mask)][2 * q + 1 := And(p2, mask)];
        WipedOne(was, before, data, nGeneration, q);
        q := q + 1;
      }
    }

    /** Starts the next generation: what the last one but two set is forgotten. */
    method Roll()
      requires Valid() && nEntriesThisGeneration == nEntriesPerGeneration
      modifies this
      ensures Valid() && history == old(history) && nEntriesThisGeneration == 0 && hash == old(hash) && |data| == old(|data|)
    {
      hide LabelsOk, Remembered, Wiped, Recent, Sourced;
      FewerSources(hash, nHashFuncs, |data|, history, nEntriesPerGeneration, stamps, gen + 1);
      NextLabel(gen);
      NextMultiple(gen, nEntriesPerGeneration);
      nEntriesThisGeneration := 0;
      nGeneration := nGeneration + 1;
      if nGeneration == 4 {
        nGeneration := 1;
      }
      ghost var was, kept := data, Recent(stamps, gen + 1);
      Wipe();
      Rolled(was, data, stamps, gen, nGeneration);
      gen, stamps := gen + 1, kept;
      forall i | 0 <= i < |history| ensures KeyOk(i) {
        assert old(KeyOk(i));
        if i / nEntriesPerGeneration + 2 >= gen {
          StillRemembered(hash, nHashFuncs, |data|, old(stamps), gen, history[i], i / nEntriesPerGeneration);
        }
      }
    }

    /** Sets the positions of a key to the current generation. */
    method Mark(key: Key)
      requires |data| > 0 && |data| % 2 == 0 && nGeneration == gen % 3 + 1 && LabelsOk(data, stamps, gen)
      modifies this`data, this`stamps
      ensures |data| == old(|data|) && LabelsOk(data, stamps, gen)
      ensures Remembered(hash, nHashFuncs, |data|, stamps, key, gen)
      ensures forall pos, g :: g <= gen && Since(old(stamps), pos, g) ==> Since(stamps, pos, g)
      ensures NewStamps(hash, nHashFuncs, |data|, key, gen, old(stamps), stamps)
      ensures WordsMarked(hash, nHashFuncs, key, nGeneration, old(data), data)
    {
      hide LabelsOk, Write, At, Label, Relabelled, WordsMarked, Stamped;
      MarkStart(hash, nHashFuncs, key, gen, nGeneration, data, stamps);
      var n := 0;
      while n < nHashFuncs
        invariant 0 <= n <= nHashFuncs && |data| == old(|data|) && LabelsOk(data, stamps, gen)
        invariant Relabelled(hash, n, key, nGeneration, old(data), data)
        invariant Stamped(hash, nHashFuncs, n, |data|, key, gen, old(stamps), stamps)
      {
        var at := At(hash(key, n), |data|);
        ghost var before := data;
        data := data[2 * at.pair := Write(data[2 * at.pair], nGeneration % 2 == 1, at.bit)]
                    [2 * at.pair + 1 := Write(data[2 * at.pair + 1], nGeneration / 2 == 1, at.bit)];
        Marked(before, data, stamps, gen, at);
        RelabelledOne(hash, n, key, nGeneration, old(data), before, data, at);
        StampedOne(hash, nHashFuncs, n, |data|, key, gen, old(stamps), stamps);
        stamps := stamps[at := gen];
        n := n + 1;
      }
      MarkedByWord(hash, nHashFuncs, key, nGeneration, old(data), data);
      StampedAll(hash, nHashFuncs, |data|, key, gen, old(stamps), stamps);
    }

    method Insert(key: Key)
      requires Valid()
      modifies this
      ensures Valid() && history == old(history) + [key] && hash == old(hash)
    {
      hide LabelsOk, Remembered, Sourced, NewStamps;
      if nEntriesThisGeneration == nEntriesPerGeneration {
        Roll();
      }
      label rolled:
      DivisionIs(|history|, nEntriesPerGeneration, gen, nEntriesThisGeneration);
      nEntriesThisGeneration := nEntriesThisGeneration + 1;
      Mark(key);
      MoreSources(hash, nHashFuncs, |data|, history, nEntriesPerGeneration, old@rolled(stamps), stamps, key, gen);
      history := history + [key];
      forall i | 0 <= i < |history| ensures KeyOk(i) {
        if i < |history| - 1 {
          assert old@rolled(KeyOk(i));
          if i / nEntriesPerGeneration + 2 >= gen {
            InGeneration(i, gen, nEntriesThisGeneration, nEntriesPerGeneration);
            MoreRemembered(hash, nHashFuncs, |data|, old@rolled(stamps), stamps, gen, history[i], i / nEntriesPerGeneration);
          }
        } else {
          InGeneration(i, gen, nEntriesThisGeneration, nEntriesPerGeneration);
          EarlierToo(hash, nHashFuncs, |data|, stamps, key, gen, i / nEntriesPerGeneration);
        }
      }
    }

    /**
     * Whether every position of the key is one of a key of the last three generations; always so for
     * the last two generations' worth of keys.
     */
    method Contains(key: Key) returns (r: bool)
      requires Valid()
      ensures r <==> forall n :: 0 <= n < nHashFuncs ==>
        Touched(hash, nHashFuncs, |data|, history, nEntriesPerGeneration, gen, At(hash(key, n), |data|))
      ensures (exists i :: 0 <= i < |history| && |history| - 2 * nEntriesPerGeneration <= i && history[i] == key) ==> r
      ensures r <==> forall n :: 0 <= n < nHashFuncs ==> InEitherWord(data, hash(key, n))
    {
      hide At, LabelsOk, Label, Touched, Sourced, InEitherWord;
      r := true;
      var n := 0;
      while n < nHashFuncs
        invariant forall k :: 0 <= k < n ==> InEitherWord(data, hash(key, k))
        invariant 0 <= n <= nHashFuncs && forall k :: 0 <= k < n ==>
          Touched(hash, nHashFuncs, |data|, history, nEntriesPerGeneration, gen, At(hash(key, k), |data|))
      {
        var at := At(hash(key, n), |data|);
        SetInEither(data, at);
        SetIffTouched(at);
        InEitherIs(data, hash(key, n));
        if !Bit(Or(data[2 * at.pair], data[2 * at.pair + 1]), at.bit) {
          r := false;
          break;
        }
        n := n + 1;
      }
      if i :| 0 <= i < |history| && |history| - 2 * nEntriesPerGeneration <= i && history[i] == key {
        LastTwo(i, |history|, gen, nEntriesThisGeneration, nEntriesPerGeneration);
        ItselfTouched(hash, nHashFuncs, |data|, history, nEntriesPerGeneration, gen, i);
      }
    }

    /** A position is set exactly when a key of the last three generations has it. */
    lemma SetIffTouched(pos: Pos)
      requires Valid() && Within(|data|, pos)
      ensures Label(data, pos) != 0 <==> Touched(hash, nHashFuncs, |data|, history, nEntriesPerGeneration, gen, pos)
    {
      hide At, Label;
      assert LabelOk(data, stamps, gen, pos);
      if Touched(hash, nHashFuncs, |data|, history, nEntriesPerGeneration, gen, pos) {
        var i, n :| 0 <= i < |history| && 0 <= n < nHashFuncs && i / nEntriesPerGeneration + 2 >= gen && At(hash(history[i], n), |data|) == pos;
        assert KeyOk(i);
        assert Since(stamps, At(hash(history[i], n), |data|), i / nEntriesPerGeneration);
      }
    }
  }

  /** The bit of a hash is set in one of its two words. */
  predicate InEitherWord(data: seq<bv64>, hash: bv32)
    requires |data| > 0 && |data| % 2 == 0
  {
    LowBits(hash);
    var p := (hash >> 6) as nat % |data|;
    Bit(data[p - p % 2], (hash & 0x3f) as bv64) || Bit(data[p - p % 2 + 1], (hash & 0x3f) as bv64)
  }

  lemma InEitherIs(data: seq<bv64>, hash: bv32)
    requires |data| > 0 && |data| % 2 == 0
    ensures InEitherWord(data, hash) <==> Label(data, At(hash, |data|)) != 0
  {
    hide Bit;
    var p := (hash >> 6) as nat % |data|;
    assert p - p % 2 == 2 * (p / 2);
  }

  /** The first `n` hashes of the key label their positions, and no other position changes. */
  ghost predicate Relabelled(hash: (Key, nat) -> bv32, n: nat, key: Key, g: nat, was: seq<bv64>, now: seq<bv64>) {
    |now| == |was| > 0 && |was| % 2 == 0 && forall pos :: Within(|was|, pos) ==> RelabelledAt(hash, n, key, g, was, now, pos)
  }

  ghost predicate RelabelledAt(hash: (Key, nat) -> bv32, n: nat, key: Key, g: nat, was: seq<bv64>, now: seq<bv64>, pos: Pos)
    requires |now| == |was| > 0 && |was| % 2 == 0 && Within(|was|, pos)
  {
    Label(now, pos) == if exists k :: 0 <= k < n && At(hash(key, k), |was|) == pos then g else Label(was, pos)
  }

  lemma RelabelledOne(hash: (Key, nat) -> bv32, n: nat, key: Key, g: nat, was: seq<bv64>, before: seq<bv64>, now: seq<bv64>, at: Pos)
    requires Relabelled(hash, n, key, g, was, before) && |now| == |was| && at == At(hash(key, n), |was|) && 1 <= g <= 3
    requires now == before[2 * at.pair := Write(before[2 * at.pair], g % 2 == 1, at.bit)]
                          [2 * at.pair + 1 := Write(before[2 * at.pair + 1], g / 2 == 1, at.bit)]
    ensures Relabelled(hash, n + 1, key, g, was, now)
  {
    hide At, Label, Write;
    forall pos | Within(|was|, pos) ensures RelabelledAt(hash, n + 1, key, g, was, now, pos) {
      assert RelabelledAt(hash, n, key, g, was, before, pos);
      WritePair(before, now, at, g, pos);
      if pos == at {
        assert 0 <= n < n + 1 && At(hash(key, n), |was|) == pos;
      }
    }
  }

  /**
   * The two bits of the generation are written exactly where a hash of the key points: the low one into the
   * even word, the high one into the next.
   */
  ghost predicate WordsMarked(hash: (Key, nat) -> bv32, funcs: nat, key: Key, g: nat, was: seq<bv64>, now: seq<bv64>) {
    |now| == |was| > 0 && forall w: nat, k: bv64 :: w % 2 == 0 && w + 1 < |was| && k < 64 ==> WordMarked(hash, funcs, key, g, was, now, w, k)
  }

  ghost predicate WordMarked(hash: (Key, nat) -> bv32, funcs: nat, key: Key, g: nat, was: seq<bv64>, now: seq<bv64>, w: nat, k: bv64)
    requires |now| == |was| && w + 1 < |was| && k < 64
  {
    if exists n :: 0 <= n < funcs && Hits(hash(key, n), |was|, w, k)
    then Bit(now[w], k) == (g % 2 == 1) && Bit(now[w + 1], k) == (g / 2 == 1)
    else Bit(now[w], k) == Bit(was[w], k) && Bit(now[w + 1], k) == Bit(was[w + 1], k)
  }

  lemma MarkedByWord(hash: (Key, nat) -> bv32, funcs: nat, key: Key, g: nat, was: seq<bv64>, now: seq<bv64>)
    requires Relabelled(hash, funcs, key, g, was, now) && 1 <= g <= 3
    ensures WordsMarked(hash, funcs, key, g, was, now)
  {
    hide At, Label, Hits;
    forall w: nat, k: bv64 | w % 2 == 0 && w + 1 < |was| && k < 64 ensures WordMarked(hash, funcs, key, g, was, now, w, k) {
      var pos := Pos(w / 2, k);
      assert 2 * pos.pair == w && RelabelledAt(hash, funcs, key, g, was, now, pos);
      forall n | 0 <= n < funcs ensures Hits(hash(key, n), |was|, w, k) <==> At(hash(key, n), |was|) == pos {
        HitsAt(hash(key, n), |was|, pos);
      }
      LabelBits(now, pos);
      LabelBits(was, pos);
    }
  }

  /** A label is its two bits. */
  lemma LabelBits(data: seq<bv64>, pos: Pos)
    requires Within(|data|, pos)
    ensures Label(data, pos) <= 3
    ensures Bit(data[2 * pos.pair], pos.bit) == (Label(data, pos) % 2 == 1) && Bit(data[2 * pos.pair + 1], pos.bit) == (Label(data, pos) / 2 == 1)
  {
    hide Bit;
  }

  lemma ItselfTouched(hash: (Key, nat) -> bv32, funcs: nat, size: nat, history: seq<Key>, per: nat, gen: nat, i: nat)
    requires size > 0 && size % 2 == 0 && per > 0 && i < |history| && i / per + 2 >= gen
    ensures forall n :: 0 <= n < funcs ==> Touched(hash, funcs, size, history, per, gen, At(hash(history[i], n), size))
  {
    hide At;
  }

  /** The stamps after marking a key: the old ones, and the current generation at its positions. */
  ghost predicate NewStamps(hash: (Key, nat) -> bv32, funcs: nat, size: nat, key: Key, gen: nat, was: map<Pos, nat>, now: map<Pos, nat>)
    requires size > 0 && size % 2 == 0
  {
    forall pos :: pos in now ==>
      (pos in was && now[pos] == was[pos]) || (now[pos] == gen && exists n :: 0 <= n < funcs && At(hash(key, n), size) == pos)
  }

  /** The stamps after the first `n` hashes of a key. */
  ghost predicate Stamped(hash: (Key, nat) -> bv32, funcs: nat, n: nat, size: nat, key: Key, gen: nat, was: map<Pos, nat>, now: map<Pos, nat>) {
    && size > 0 && size % 2 == 0
    && (forall k :: 0 <= k < n ==> Since(now, At(hash(key, k), size), gen))
    && (forall pos, g :: g <= gen && Since(was, pos, g) ==> Since(now, pos, g))
    && NewStamps(hash, funcs, size, key, gen, was, now)
  }

  lemma MarkStart(hash: (Key, nat) -> bv32, funcs: nat, key: Key, gen: nat, g: nat, data: seq<bv64>, stamps: map<Pos, nat>)
    requires |data| > 0 && |data| % 2 == 0
    ensures Relabelled(hash, 0, key, g, data, data) && Stamped(hash, funcs, 0, |data|, key, gen, stamps, stamps)
  {
    hide At, Label;
  }

  lemma StampedOne(hash: (Key, nat) -> bv32, funcs: nat, n: nat, size: nat, key: Key, gen: nat, was: map<Pos, nat>, now: map<Pos, nat>)
    requires Stamped(hash, funcs, n, size, key, gen, was, now) && n < funcs
    ensures Stamped(hash, funcs, n + 1, size, key, gen, was, now[At(hash(key, n), size) := gen])
  {
    hide At;
  }

  lemma StampedAll(hash: (Key, nat) -> bv32, funcs: nat, size: nat, key: Key, gen: nat, was: map<Pos, nat>, now: map<Pos, nat>)
    requires Stamped(hash, funcs, funcs, size, key, gen, was, now)
    ensures Remembered(hash, funcs, size, now, key, gen) && NewStamps(hash, funcs, size, key, gen, was, now)
    ensures forall pos, g :: g <= gen && Since(was, pos, g) ==> Since(now, pos, g)
  {
    hide At, Since;
  }

  lemma FewerSources(hash: (Key, nat) -> bv32, funcs: nat, size: nat, history: seq<Key>, per: nat, stamps: map<Pos, nat>, gen: nat)
    requires size > 0 && size % 2 == 0 && per > 0 && Sourced(hash, funcs, size, history, per, stamps)
    ensures Sourced(hash, funcs, size, history, per, Recent(stamps, gen))
  {
    hide SetBy;
  }

  lemma MoreSources(hash: (Key, nat) -> bv32, funcs: nat, size: nat, history: seq<Key>, per: nat,
                    was: map<Pos, nat>, now: map<Pos, nat>, key: Key, gen: nat)
    requires size > 0 && size % 2 == 0 && per > 0 && Sourced(hash, funcs, size, history, per, was)
    requires NewStamps(hash, funcs, size, key, gen, was, now) && |history| / per == gen
    ensures Sourced(hash, funcs, size, history + [key], per, now)
  {
    hide At;
    var longer := history + [key];
    forall pos | pos in now ensures SetBy(hash, funcs, size, longer, per, pos, now[pos]) {
      if pos in was && now[pos] == was[pos] {
        assert SetBy(hash, funcs, size, history, per, pos, was[pos]);
        var i, n :| 0 <= i < |history| && 0 <= n < funcs && i / per == was[pos] && At(hash(history[i], n), size) == pos;
        assert longer[i] == history[i];
      } else {
        var n :| 0 <= n < funcs && At(hash(key, n), size) == pos;
        assert longer[|history|] == key;
      }
    }
  }

  /** The first `q` pairs have lost generation `g`; the others are as they were. */
  ghost predicate Wiped(was: seq<bv64>, now: seq<bv64>, g: nat, q: nat)
    requires |was| == |now|
  {
    forall pos :: Within(|was|, pos) ==>
      Label(now, pos) == if pos.pair < q && Label(was, pos) == g then 0 else Label(was, pos)
  }

  lemma WipedOne(was: seq<bv64>, before: seq<bv64>, now: seq<bv64>, g: nat, q: nat)
    requires |was| == |before| == |now| && 2 * q + 1 < |was| && 1 <= g <= 3 && Wiped(was, before, g, q)
    requires var m := Mask(before[2 * q], before[2 * q + 1], g % 2 == 1, g / 2 == 1);
      now == before[2 * q := And(before[2 * q], m)][2 * q + 1 := And(before[2 * q + 1], m)]
    ensures Wiped(was, now, g, q + 1)
  {
    hide And, Mask, Label;
    forall pos | Within(|was|, pos)
      ensures Label(now, pos) == if pos.pair < q + 1 && Label(was, pos) == g then 0 else Label(was, pos)
    {
      WipePair(before, now, q, g, pos);
    }
  }

  /** The stamps of the last three generations. */
  ghost function Recent(stamps: map<Pos, nat>, gen: nat): map<Pos, nat> {
    map p | p in stamps && stamps[p] + 2 >= gen :: stamps[p]
  }

  lemma Rolled(was: seq<bv64>, now: seq<bv64>, stamps: map<Pos, nat>, gen: nat, g: nat)
    requires |was| == |now| && |was| % 2 == 0 && LabelsOk(was, stamps, gen) && g == (gen + 1) % 3 + 1 && Wiped(was, now, g, |was| / 2)
    ensures LabelsOk(now, Recent(stamps, gen + 1), gen + 1)
  {
    hide Label;
    forall pos | Within(|now|, pos) ensures LabelOk(now, Recent(stamps, gen + 1), gen + 1, pos) {
      assert LabelOk(was, stamps, gen, pos);
    }
  }

  lemma StillRemembered(hash: (Key, nat) -> bv32, funcs: nat, size: nat, stamps: map<Pos, nat>, gen: nat, key: Key, g: int)
    requires size > 0 && size % 2 == 0 && Remembered(hash, funcs, size, stamps, key, g) && g + 2 >= gen
    ensures Remembered(hash, funcs, size, Recent(stamps, gen), key, g)
  {
    hide At;
    forall n | 0 <= n < funcs ensures Since(Recent(stamps, gen), At(hash(key, n), size), g) {
      assert Since(stamps, At(hash(key, n), size), g);
    }
  }

  lemma MoreRemembered(hash: (Key, nat) -> bv32, funcs: nat, size: nat, stamps: map<Pos, nat>, stamps': map<Pos, nat>, gen: nat, key: Key, g: int)
    requires size > 0 && size % 2 == 0 && Remembered(hash, funcs, size, stamps, key, g) && g <= gen
    requires forall pos, d :: d <= gen && Since(stamps, pos, d) ==> Since(stamps', pos, d)
    ensures Remembered(hash, funcs, size, stamps', key, g)
  {
    hide At, Since;
  }

  lemma EarlierToo(hash: (Key, nat) -> bv32, funcs: nat, size: nat, stamps: map<Pos, nat>, key: Key, gen: nat, g: int)
    requires size > 0 && size % 2 == 0 && Remembered(hash, funcs, size, stamps, key, gen) && g <= gen
    ensures Remembered(hash, funcs, size, stamps, key, g)
  {
    hide At;
    forall n | 0 <= n < funcs ensures Since(stamps, At(hash(key, n), size), g) {
      assert Since(stamps, At(hash(key, n), size), gen);
    }
  }

  lemma Marked(was: seq<bv64>, now: seq<bv64>, stamps: map<Pos, nat>, gen: nat, at: Pos)
    requires |now| == |was| && LabelsOk(was, stamps, gen) && Within(|was|, at)
    requires var g := gen % 3 + 1; now == was[2 * at.pair := Write(was[2 * at.pair], g % 2 == 1, at.bit)]
                                             [2 * at.pair + 1 := Write(was[2 * at.pair + 1], g / 2 == 1, at.bit)]
    ensures LabelsOk(now, stamps[at := gen], gen)
  {
    hide Label, Write;
    forall pos | Within(|now|, pos) ensures LabelOk(now, stamps[at := gen], gen, pos) {
      assert LabelOk(was, stamps, gen, pos);
      WritePair(was, now, at, gen % 3 + 1, pos);
    }
  }

  lemma SetInEither(data: seq<bv64>, at: Pos)
    requires Within(|data|, at)
    ensures Bit(Or(data[2 * at.pair], data[2 * at.pair + 1]), at.bit) <==> Label(data, at) != 0
  {
    hide Bit, Or;
    OrBit(data[2 * at.pair], data[2 * at.pair + 1], at.bit);
  }

  // ----- Counting keys by generation

  lemma NextLabel(gen: nat)
    ensures (gen + 1) % 3 == if gen % 3 == 2 then 0 else gen % 3 + 1
  {
  }

  lemma NextMultiple(g: nat, per: nat)
    ensures (g + 1) * per == g * per + per
  {
  }

  /** A key below `gen * per + per` is of generation `gen` at most. */
  lemma InGeneration(i: nat, gen: nat, entries: nat, per: nat)
    requires per > 0 && i < gen * per + entries && entries <= per
    ensures i / per <= gen
  {
    NextMultiple(gen, per);
    QuotientBelow(i, per, gen + 1);
  }

  /** The last `2 * per` keys are of the last three generations. */
  lemma LastTwo(i: nat, total: nat, gen: nat, entries: nat, per: nat)
    requires per > 0 && total == gen * per + entries && total - 2 * per <= i
    ensures i / per + 2 >= gen
  {
    if gen >= 2 {
      NextMultiple(gen - 2, per);
      NextMultiple(gen - 1, per);
      QuotientAbove(i, per, gen - 2);
    }
  }

  lemma AllUnset(data: seq<bv64>)
    requires forall i :: 0 <= i < |data| ==> data[i] == 0
    ensures LabelsOk(data, map[], 0)
  {
    forall pos | Within(|data|, pos) ensures LabelOk(data, map[], 0, pos) {
      PlaneBit(false, pos.bit);
    }
  }
}
