/**
 * The Merkle root of a block (src/consensus/merkle.cpp): a computation in constant space that keeps the hash of one
 * complete subtree for every one bit of the number of leaves read, and tells lists that repeat a subtree.
 */
module MerkleRoot {
  import opened Powers
  import opened PartialMerkleTree

  // ----- Rows

  lemma WidthNext(n: nat, k: nat)
    ensures CalcTreeWidth(n, k + 1) == (CalcTreeWidth(n, k) + 1) / 2
  {
    var w := (CalcTreeWidth(n, k) + 1) / 2;
    HalfRow(n, k, w);
    if w > 0 {
      HalfRow(n, k, w - 1);
    }
    hide CalcTreeWidth;
  }

  lemma HalfRow(n: nat, k: nat, pos: nat)
    ensures pos < CalcTreeWidth(n, k + 1) <==> 2 * pos < CalcTreeWidth(n, k)
  {
    DoublePos(k + 1, pos);
    WidthIff(n, k + 1, pos);
    WidthIff(n, k, 2 * pos);
  }

  lemma WidthZero(n: nat)
    ensures CalcTreeWidth(n, 0) == n
  {
  }

  lemma {:induction false} WidthFalls(n: nat, i: nat, j: nat)
    requires i <= j && CalcTreeWidth(n, i) <= 1
    ensures CalcTreeWidth(n, j) <= 1
    decreases j - i
  {
    hide CalcTreeWidth;
    if i < j {
      WidthNext(n, i);
      WidthFalls(n, i + 1, j);
    }
  }

  /** The first row of one node is the top. */
  lemma HeightIs(n: nat, k: nat)
    requires CalcTreeWidth(n, k) == 1 && (k == 0 || CalcTreeWidth(n, k - 1) > 1)
    ensures k == TreeHeight(n)
  {
    hide CalcTreeWidth;
    if TreeHeight(n) < k {
      WidthFalls(n, TreeHeight(n), k - 1);
    }
  }

  // ----- Row by row

  /** The row above: hashes in pairs, the last one with itself where it is alone. */
  function NextRow(h: PairHash, row: seq<Hash>): (r: seq<Hash>)
    ensures |r| == (|row| + 1) / 2
  {
    seq((|row| + 1) / 2, i requires 0 <= i < (|row| + 1) / 2 => h(row[2 * i], if 2 * i + 1 < |row| then row[2 * i + 1] else row[2 * i]))
  }

  /** The root by whole rows. */
  function RootOfRow(h: PairHash, row: seq<Hash>): Hash
    requires row != []
    decreases |row|
  {
    if |row| == 1 then row[0] else RootOfRow(h, NextRow(h, row))
  }

  /** Row `k` of the tree over these ids. */
  ghost predicate IsRow(h: PairHash, txids: seq<Hash>, k: nat, row: seq<Hash>) {
    |row| == CalcTreeWidth(|txids|, k) && forall i :: 0 <= i < |row| ==> row[i] == CalcHash(h, txids, k, i)
  }

  lemma RowAbove(h: PairHash, txids: seq<Hash>, k: nat, row: seq<Hash>)
    requires IsRow(h, txids, k, row)
    ensures IsRow(h, txids, k + 1, NextRow(h, row))
  {
    hide CalcTreeWidth, CalcHash;
    WidthNext(|txids|, k);
    forall i | 0 <= i < (|row| + 1) / 2 ensures NextRow(h, row)[i] == CalcHash(h, txids, k + 1, i) {
      CalcHashInner(h, txids, k + 1, i);
    }
  }

  lemma {:induction false} RootFromRow(h: PairHash, txids: seq<Hash>, k: nat, row: seq<Hash>)
    requires txids != [] && IsRow(h, txids, k, row) && k <= TreeHeight(|txids|)
    ensures row != [] && RootOfRow(h, row) == Root(h, txids)
    decreases TreeHeight(|txids|) - k
  {
    hide CalcTreeWidth, CalcHash, NextRow;
    RootExists(|txids|);
    if k < TreeHeight(|txids|) {
      RowAbove(h, txids, k, row);
      RootFromRow(h, txids, k + 1, NextRow(h, row));
    }
  }

  /** The root computed by depth-first descent is the one computed row by row. */
  lemma RootIsByRows(h: PairHash, txids: seq<Hash>)
    requires txids != []
    ensures Root(h, txids) == RootOfRow(h, txids)
  {
    hide CalcTreeWidth, Root, RootOfRow;
    WidthZero(|txids|);
    FirstRow(h, txids);
    RootFromRow(h, txids, 0, txids);
  }

  lemma FirstRow(h: PairHash, txids: seq<Hash>)
    ensures IsRow(h, txids, 0, txids)
  {
    WidthZero(|txids|);
  }

  // ----- Counting leaves in binary

  /** How many complete subtrees of row `k` the first `c` leaves make; its lowest bit is bit `k` of `c`. */
  function Q(c: nat, k: nat): nat {
    QuotientIsNat(c, Pow2(k));
    c / Pow2(k)
  }

  lemma QuotientIsNat(c: nat, d: nat)
    requires d > 0
    ensures c / d >= 0
  {
  }

  lemma QNext(c: nat, k: nat)
    ensures Q(c, k + 1) == Q(c, k) / 2
  {
    var p, q := Pow2(k), c / Pow2(k);
    assert c == q * p + c % p;
    assert q == 2 * (q / 2) + q % 2;
    assert q * p == (q / 2) * (2 * p) + (q % 2) * p;
    DivisionIs(c, 2 * p, q / 2, (q % 2) * p + c % p);
  }

  lemma QZero(c: nat)
    ensures Q(c, 0) == c && Pow2(0) == 1
  {
  }

  /** A multiple of a power of two, and the number before it. */
  lemma QMultiple(k: nat, l: nat)
    ensures Q(k * Pow2(l), l) == k
    ensures k > 0 ==> k * Pow2(l) > 0 && Q(k * Pow2(l) - 1, l) == k - 1
  {
    var p := Pow2(l);
    DivisionIs(k * p, p, k, 0);
    if k > 0 {
      assert k * p == (k - 1) * p + p;
      DivisionIs(k * p - 1, p, k - 1, p - 1);
    }
  }

  lemma {:induction false} QMono(a: nat, b: nat, l: nat)
    requires a <= b
    ensures Q(a, l) <= Q(b, l)
  {
    hide Q;
    if l == 0 {
      QZero(a);
      QZero(b);
    } else {
      QNext(a, l - 1);
      QNext(b, l - 1);
      QMono(a, b, l - 1);
    }
  }

  lemma {:induction false} SameAbove(a: nat, b: nat, k: nat, l: nat)
    requires k <= l && Q(a, k) == Q(b, k)
    ensures Q(a, l) == Q(b, l)
    decreases l - k
  {
    hide Q;
    if k < l {
      QNext(a, k);
      QNext(b, k);
      SameAbove(a, b, k + 1, l);
    }
  }

  lemma {:induction false} WidthMultiple(n: nat, k: nat, l: nat)
    requires n == k * Pow2(l)
    ensures CalcTreeWidth(n, l) == k
  {
    WidthIff(n, l, k);
    if k > 0 {
      assert (k - 1) * Pow2(l) < k * Pow2(l);
      WidthIff(n, l, k - 1);
    }
  }

  lemma SmallLevel(c: nat, l: nat)
    requires c <= MAX_LEAVES && Q(c, l) > 0
    ensures l < 32
  {
    if l >= 32 {
      Pow2Mono(32, l);
      FullWord();
      QuotientBelow(c, Pow2(l), 1);
    }
  }

  lemma FullWord()
    ensures Pow2(32) == 0x1_0000_0000
  {
    assert Pow2(8) == 256;
    Pow2Sum(8, 8);
    Pow2Sum(16, 16);
  }

  // ----- Repeated subtrees

  /** Two complete sibling subtrees have the same hash. */
  ghost predicate TwinAt(h: PairHash, txids: seq<Hash>, l: nat, j: nat) {
    2 * j + 1 < CalcTreeWidth(|txids|, l) && CalcHash(h, txids, l, 2 * j) == CalcHash(h, txids, l, 2 * j + 1)
  }

  /** Some do within the first `c` leaves. */
  ghost predicate MutatedBy(h: PairHash, txids: seq<Hash>, c: nat) {
    exists l: nat, j: nat :: TwinAt(h, txids, l, j) && 2 * j + 2 <= Q(c, l)
  }

  ghost predicate Mutated(h: PairHash, txids: seq<Hash>) {
    MutatedBy(h, txids, |txids|)
  }

  /** The siblings completed by leaf `c` in a row below `level`. */
  ghost predicate NewTwin(h: PairHash, txids: seq<Hash>, c: nat, level: nat) {
    exists l: nat :: l < level && Q(c, l) >= 2 && TwinAt(h, txids, l, Q(c, l) / 2 - 1)
  }

  /** Leaf `c` completes a subtree in every row up to `level`. */
  ghost predicate Completes(c: nat, level: nat) {
    && c > 0
    && (forall l: nat :: l <= level ==> Q(c, l) >= 1 && Q(c - 1, l) == Q(c, l) - 1)
    && (forall l: nat :: l < level ==> Q(c, l) % 2 == 0)
  }

  lemma CompletesNone(c: nat)
    requires c > 0
    ensures Completes(c, 0)
  {
    hide Q;
    QZero(c);
    QZero(c - 1);
  }

  lemma CompletesMore(c: nat, level: nat)
    requires Completes(c, level) && Q(c, level) % 2 == 0
    ensures Completes(c, level + 1)
  {
    hide Q;
    QNext(c, level);
    QNext(c - 1, level);
  }

  lemma MutatedStep(h: PairHash, txids: seq<Hash>, c: nat, level: nat)
    requires Completes(c, level) && Q(c, level) % 2 == 1
    ensures MutatedBy(h, txids, c) <==> MutatedBy(h, txids, c - 1) || NewTwin(h, txids, c, level)
  {
    hide Q, TwinAt;
    if MutatedBy(h, txids, c) {
      var l: nat, j: nat :| TwinAt(h, txids, l, j) && 2 * j + 2 <= Q(c, l);
      if l > level {
        QNext(c, level);
        QNext(c - 1, level);
        SameAbove(c, c - 1, level + 1, l);
      } else if 2 * j + 2 == Q(c, l) {
        assert TwinAt(h, txids, l, Q(c, l) / 2 - 1);
      }
    }
    if MutatedBy(h, txids, c - 1) {
      var l: nat, j: nat :| TwinAt(h, txids, l, j) && 2 * j + 2 <= Q(c - 1, l);
      QMono(c - 1, c, l);
    }
    if NewTwin(h, txids, c, level) {
      var l: nat :| l < level && Q(c, l) >= 2 && TwinAt(h, txids, l, Q(c, l) / 2 - 1);
      assert 2 * (Q(c, l) / 2 - 1) + 2 <= Q(c, l);
    }
  }

  lemma NewTwinStep(h: PairHash, txids: seq<Hash>, c: nat, level: nat)
    requires Q(c, level) >= 2
    ensures NewTwin(h, txids, c, level + 1) <==> NewTwin(h, txids, c, level) || TwinAt(h, txids, level, Q(c, level) / 2 - 1)
  {
    hide Q, TwinAt;
  }

  lemma NothingMutated(h: PairHash, txids: seq<Hash>)
    ensures !MutatedBy(h, txids, 0) && forall c: nat :: !NewTwin(h, txids, c, 0)
  {
    forall l: nat ensures Q(0, l) == 0 {
      DivisionIs(0, Pow2(l), 0, 0);
    }
  }

  // ----- The computation

  const MAX_LEAVES := 0x8000_0000

  /** The hash of a node of the tree. */
  ghost predicate IsNode(h: PairHash, txids: seq<Hash>, l: nat, pos: int, x: Hash) {
    0 <= pos < CalcTreeWidth(|txids|, l) && x == CalcHash(h, txids, l, pos)
  }

  /** For every one bit of the number of leaves read, the last complete subtree of that row. */
  ghost predicate InnerOk(h: PairHash, txids: seq<Hash>, c: nat, inner: seq<Hash>) {
    |inner| == 32 && forall l :: 0 <= l < 32 && Q(c, l) % 2 == 1 ==> IsNode(h, txids, l, Q(c, l) - 1, inner[l])
  }

  lemma LeafNode(h: PairHash, txids: seq<Hash>, i: nat)
    requires i < |txids|
    ensures IsNode(h, txids, 0, i, txids[i])
  {
    WidthZero(|txids|);
  }

  /** Two neighbours make the node above, a last one alone too. */
  lemma JoinNodes(h: PairHash, txids: seq<Hash>, l: nat, i: nat, x: Hash, y: Hash)
    requires IsNode(h, txids, l, 2 * i, x) && IsNode(h, txids, l, 2 * i + 1, y)
    ensures IsNode(h, txids, l + 1, i, h(x, y))
  {
    hide CalcTreeWidth, CalcHash;
    WidthNext(|txids|, l);
    CalcHashInner(h, txids, l + 1, i);
  }

  lemma JoinLast(h: PairHash, txids: seq<Hash>, l: nat, i: nat, x: Hash)
    requires IsNode(h, txids, l, 2 * i, x) && CalcTreeWidth(|txids|, l) == 2 * i + 1
    ensures IsNode(h, txids, l + 1, i, h(x, x)) && CalcTreeWidth(|txids|, l + 1) == i + 1
  {
    hide CalcTreeWidth, CalcHash;
    WidthNext(|txids|, l);
    CalcHashInner(h, txids, l + 1, i);
  }

  lemma TwinIs(h: PairHash, txids: seq<Hash>, l: nat, i: nat, x: Hash, y: Hash)
    requires IsNode(h, txids, l, 2 * i, x) && IsNode(h, txids, l, 2 * i + 1, y)
    ensures x == y <==> TwinAt(h, txids, l, i)
  {
    hide CalcTreeWidth, CalcHash;
  }

  lemma Stored(h: PairHash, txids: seq<Hash>, c: nat, level: nat, inner: seq<Hash>, x: Hash)
    requires Completes(c, level) && Q(c, level) % 2 == 1 && level < 32
    requires InnerOk(h, txids, c - 1, inner) && IsNode(h, txids, level, Q(c, level) - 1, x)
    ensures InnerOk(h, txids, c, inner[level := x])
  {
    hide Q, IsNode;
    forall l | level < l < 32 ensures Q(c, l) == Q(c - 1, l) {
      QNext(c, level);
      QNext(c - 1, level);
      SameAbove(c, c - 1, level + 1, l);
    }
  }

  /** Reads one leaf: joins it with the complete subtrees before it while they are its siblings. */
  method AddLeaf(h: PairHash, leaves: seq<Hash>, inner: array<Hash>, count: nat, mutated0: bool) returns (mutated: bool)
    requires count < |leaves| <= MAX_LEAVES && inner.Length == 32 && InnerOk(h, leaves, count, inner[..])
    requires mutated0 <==> MutatedBy(h, leaves, count)
    modifies inner
    ensures InnerOk(h, leaves, count + 1, inner[..])
    ensures mutated <==> MutatedBy(h, leaves, count + 1)
  {
    hide Q, IsNode, TwinAt, MutatedBy, NewTwin, Completes, InnerOk, Pow2;
    mutated := mutated0;
    var c := count + 1;
    var x, level := leaves[count], 0;
    NothingMutated(h, leaves);
    CompletesNone(c);
    LeafNode(h, leaves, count);
    QZero(c);
    while Q(c, level) % 2 == 0
      invariant Completes(c, level) && IsNode(h, leaves, level, Q(c, level) - 1, x) && Q(c, level) >= 1
      invariant inner[..] == old(inner[..])
      invariant mutated <==> MutatedBy(h, leaves, count) || NewTwin(h, leaves, c, level)
      decreases Q(c, level)
    {
      SmallLevel(c, level);
      ghost var i := Q(c, level) / 2 - 1;
      InnerAt(h, leaves, c, level, inner[..]);
      TwinIs(h, leaves, level, i, inner[level], x);
      JoinNodes(h, leaves, level, i, inner[level], x);
      NewTwinStep(h, leaves, c, level);
      CompletesMore(c, level);
      QNext(c, level);
      mutated := mutated || inner[level] == x;
      x := h(inner[level], x);
      level := level + 1;
    }
    SmallLevel(c, level);
    Stored(h, leaves, c, level, inner[..], x);
    MutatedStep(h, leaves, c, level);
    ghost var before := inner[..];
    inner[level] := x;
    assert inner[..] == before[level := x];
  }

  /** The subtree stored before leaf `c` in a row where it completes the second of two siblings. */
  lemma InnerAt(h: PairHash, txids: seq<Hash>, c: nat, level: nat, inner: seq<Hash>)
    requires Completes(c, level) && Q(c, level) % 2 == 0 && level < 32 && InnerOk(h, txids, c - 1, inner)
    ensures IsNode(h, txids, level, Q(c, level) - 2, inner[level])
  {
    hide Q, IsNode;
  }

  /** The root in constant space, and whether two complete siblings were the same. */
  method ComputeMerkleRoot(h: PairHash, leaves: seq<Hash>) returns (root: Hash, mutated: bool)
    requires |leaves| <= MAX_LEAVES
    ensures leaves == [] ==> root == NULL_HASH && !mutated
    ensures leaves != [] ==> root == Root(h, leaves) && (mutated <==> Mutated(h, leaves))
  {
    hide Q, IsNode, TwinAt, MutatedBy, InnerOk, Root;
    if leaves == [] {
      return NULL_HASH, false;
    }
    mutated := false;
    var inner := new Hash[32](_ => NULL_HASH);
    NothingMutated(h, leaves);
    NothingRead(h, leaves, inner[..]);
    var count := 0;
    while count < |leaves|
      invariant 0 <= count <= |leaves| && InnerOk(h, leaves, count, inner[..])
      invariant mutated <==> MutatedBy(h, leaves, count)
    {
      mutated := AddLeaf(h, leaves, inner, count, mutated);
      count := count + 1;
    }
    root := Sweep(h, leaves, inner);
  }

  lemma NothingRead(h: PairHash, txids: seq<Hash>, inner: seq<Hash>)
    requires |inner| == 32
    ensures InnerOk(h, txids, 0, inner)
  {
    forall l: nat ensures Q(0, l) == 0 {
      DivisionIs(0, Pow2(l), 0, 0);
    }
  }

  /** Between two steps of the sweep: `x` is the last node of row `level`, alone or the first of two. */
  ghost predicate Swept(h: PairHash, txids: seq<Hash>, level: nat, count: nat, x: Hash) {
    var q := Q(|txids|, level + 1);
    && count == (2 * q + 1) * Pow2(level) && CalcTreeWidth(|txids|, level) == 2 * q + 1 && IsNode(h, txids, level, 2 * q, x)
    && (level == 0 || CalcTreeWidth(|txids|, level - 1) > 1)
  }

  /** Within a step: `x` is the last node of row `level`, which the leaves read do not complete. */
  ghost predicate Carried(h: PairHash, txids: seq<Hash>, level: nat, count: nat, x: Hash) {
    var q := Q(|txids|, level);
    && level > 0 && count == (q + 1) * Pow2(level) && CalcTreeWidth(|txids|, level) == q + 1 && IsNode(h, txids, level, q, x)
    && CalcTreeWidth(|txids|, level - 1) > 1
  }

  /** Reduces what is left on the right edge, doubling the last node of odd rows. */
  method Sweep(h: PairHash, leaves: seq<Hash>, inner: array<Hash>) returns (x: Hash)
    requires 0 < |leaves| <= MAX_LEAVES && inner.Length == 32 && InnerOk(h, leaves, |leaves|, inner[..])
    ensures x == Root(h, leaves)
  {
    hide Q, IsNode, InnerOk, Root, Swept, Carried, Pow2;
    var level := FirstLevel(|leaves|);
    var count: nat := |leaves|;
    x := inner[level];
    SweepStart(h, leaves, level, inner[..]);
    while count != Pow2(level)
      invariant Swept(h, leaves, level, count, x)
      decreases Q(|leaves|, level + 1)
    {
      SweepOpens(h, leaves, level, count, x);
      ghost var was := Q(|leaves|, level + 1);
      x := h(x, x);
      count := count + Pow2(level);
      level := level + 1;
      while Q(count, level) % 2 == 0
        invariant Carried(h, leaves, level, count, x) && Q(|leaves|, level) <= was
        decreases Q(|leaves|, level)
      {
        CarryOn(h, leaves, level, count, x, inner[..]);
        x := h(inner[level], x);
        level := level + 1;
      }
      CarryEnds(h, leaves, level, count, x);
      QNext(|leaves|, level);
    }
    SweepEnds(h, leaves, level, count, x);
  }

  /** The lowest one bit. */
  method FirstLevel(n: nat) returns (level: nat)
    requires 0 < n <= MAX_LEAVES
    ensures level < 32 && n == Q(n, level) * Pow2(level) && Q(n, level) % 2 == 1 && (level > 0 ==> Q(n, level - 1) > 1 && n == Q(n, level - 1) * Pow2(level - 1))
  {
    hide Q, Pow2;
    level := 0;
    QZero(n);
    while Q(n, level) % 2 == 0
      invariant n == Q(n, level) * Pow2(level) && Q(n, level) > 0
      invariant level > 0 ==> Q(n, level - 1) > 1 && n == Q(n, level - 1) * Pow2(level - 1)
      decreases Q(n, level)
    {
      QNext(n, level);
      Pow2Step(level);
      Halves(Q(n, level), Pow2(level));
      level := level + 1;
    }
    SmallLevel(n, level);
  }

  lemma Halves(k: nat, p: nat)
    requires k % 2 == 0
    ensures k * p == (k / 2) * (2 * p)
  {
    assert k == 2 * (k / 2);
  }

  lemma SweepStart(h: PairHash, txids: seq<Hash>, level: nat, inner: seq<Hash>)
    requires var n := |txids|;
      n == Q(n, level) * Pow2(level) && Q(n, level) % 2 == 1 && (level > 0 ==> Q(n, level - 1) > 1 && n == Q(n, level - 1) * Pow2(level - 1))
    requires level < 32 && InnerOk(h, txids, |txids|, inner)
    ensures Swept(h, txids, level, |txids|, inner[level])
  {
    hide Q, IsNode, CalcTreeWidth, Pow2;
    var n := |txids|;
    QNext(n, level);
    WidthMultiple(n, Q(n, level), level);
    if level > 0 {
      WidthMultiple(n, Q(n, level - 1), level - 1);
    }
  }

  lemma SweepOpens(h: PairHash, txids: seq<Hash>, level: nat, count: nat, x: Hash)
    requires Swept(h, txids, level, count, x) && count != Pow2(level)
    ensures Carried(h, txids, level + 1, count + Pow2(level), h(x, x)) && Q(|txids|, level + 1) > 0
  {
    hide Q, IsNode, CalcTreeWidth, Pow2;
    var q := Q(|txids|, level + 1);
    JoinLast(h, txids, level, q, x);
    Pow2Step(level);
    assert (2 * q + 1) * Pow2(level) + Pow2(level) == (q + 1) * (2 * Pow2(level));
  }

  lemma CarryOn(h: PairHash, txids: seq<Hash>, level: nat, count: nat, x: Hash, inner: seq<Hash>)
    requires Carried(h, txids, level, count, x) && Q(count, level) % 2 == 0 && InnerOk(h, txids, |txids|, inner) && |txids| <= MAX_LEAVES
    ensures level < 32 && Carried(h, txids, level + 1, count, h(inner[level], x))
    ensures Q(|txids|, level + 1) < Q(|txids|, level)
  {
    hide Q, IsNode, CalcTreeWidth, Pow2;
    var n := |txids|;
    var q := Q(n, level);
    QMultiple(q + 1, level);
    SmallLevel(n, level);
    QNext(n, level);
    JoinNodes(h, txids, level, q / 2, inner[level], x);
    WidthNext(n, level);
    Pow2Step(level);
    Halves(q + 1, Pow2(level));
  }

  lemma CarryEnds(h: PairHash, txids: seq<Hash>, level: nat, count: nat, x: Hash)
    requires Carried(h, txids, level, count, x) && Q(count, level) % 2 == 1
    ensures Swept(h, txids, level, count, x)
  {
    hide Q, IsNode, CalcTreeWidth, Pow2;
    QMultiple(Q(|txids|, level) + 1, level);
    QNext(|txids|, level);
  }

  lemma SweepEnds(h: PairHash, txids: seq<Hash>, level: nat, count: nat, x: Hash)
    requires txids != [] && Swept(h, txids, level, count, x) && count == Pow2(level)
    ensures x == Root(h, txids)
  {
    hide Q, CalcTreeWidth, CalcHash, Pow2;
    var q := Q(|txids|, level + 1);
    QMultiple(2 * q + 1, level);
    QMultiple(1, level);
    HeightIs(|txids|, level);
  }

  // ----- What the root tells

  /** A pair of hashes that some node of the tree is made of. */
  ghost predicate PairOf(h: PairHash, txids: seq<Hash>, x: (Hash, Hash)) {
    exists k: nat, i: nat :: k > 0 && i < CalcTreeWidth(|txids|, k) && ChildHashes(h, txids, k, i) == x
  }

  /** Two different pairs in the two trees with the same hash. */
  ghost predicate Collides(h: PairHash, a: seq<Hash>, b: seq<Hash>, x: (Hash, Hash), y: (Hash, Hash)) {
    x != y && h(x.0, x.1) == h(y.0, y.1) && (PairOf(h, a, x) || PairOf(h, b, x)) && (PairOf(h, a, y) || PairOf(h, b, y))
  }

  /** The leaves below a node. */
  function LeavesOf(txids: seq<Hash>, k: nat, i: nat): seq<Hash>
    requires i < CalcTreeWidth(|txids|, k)
  {
    LeafBounds(|txids|, k, i);
    txids[LeafLo(k, i)..LeafHi(|txids|, k, i)]
  }

  lemma LeavesSplit(txids: seq<Hash>, k: nat, i: nat)
    requires k > 0 && i < CalcTreeWidth(|txids|, k)
    ensures 2 * i < CalcTreeWidth(|txids|, k - 1)
    ensures LeavesOf(txids, k, i) == LeavesOf(txids, k - 1, 2 * i) +
            if 2 * i + 1 < CalcTreeWidth(|txids|, k - 1) then LeavesOf(txids, k - 1, 2 * i + 1) else []
  {
    hide CalcTreeWidth, LeafLo, LeafHi;
    LeafSplit(|txids|, k, i);
    LeafBounds(|txids|, k, i);
    LeafBounds(|txids|, k - 1, 2 * i);
    var lo, mid, hi := LeafLo(k, i), LeafHi(|txids|, k - 1, 2 * i), LeafHi(|txids|, k, i);
    if 2 * i + 1 < CalcTreeWidth(|txids|, k - 1) {
      LeafBounds(|txids|, k - 1, 2 * i + 1);
      assert txids[lo..hi] == txids[lo..mid] + txids[mid..hi];
    }
  }

  lemma PairAt(h: PairHash, txids: seq<Hash>, k: nat, i: nat)
    requires k > 0 && i < CalcTreeWidth(|txids|, k)
    ensures PairOf(h, txids, ChildHashes(h, txids, k, i))
    ensures var x := ChildHashes(h, txids, k, i); CalcHash(h, txids, k, i) == h(x.0, x.1)
  {
    LeafSplit(|txids|, k, i);
    CalcHashInner(h, txids, k, i);
    hide CalcTreeWidth, CalcHash;
  }

  /** Siblings with as many leaves are both complete. */
  lemma FullSiblings(h: PairHash, txids: seq<Hash>, k: nat, i: nat)
    requires 2 * i + 1 < CalcTreeWidth(|txids|, k) && |LeavesOf(txids, k, 2 * i)| == |LeavesOf(txids, k, 2 * i + 1)|
    requires CalcHash(h, txids, k, 2 * i) == CalcHash(h, txids, k, 2 * i + 1)
    ensures Mutated(h, txids)
  {
    hide CalcTreeWidth, CalcHash, Pow2;
    var n, p := |txids|, Pow2(k);
    WidthIff(n, k, 2 * i + 1);
    LeafBounds(n, k, 2 * i);
    LeafBounds(n, k, 2 * i + 1);
    assert (2 * i + 1) * p == (2 * i) * p + p && (2 * i + 2) * p == (2 * i + 1) * p + p;
    assert (2 * i + 2) * p <= n;
    QuotientAbove(n, p, 2 * i + 2);
    assert TwinAt(h, txids, k, i) && 2 * i + 2 <= Q(n, k);
  }

  /**
   * Nodes of the same row, in two trees or one, with the same hash have the same leaves, unless a tree repeats a
   * complete subtree next to itself or two different pairs have the same hash.
   */
  lemma {:induction false} SameNode(h: PairHash, a: seq<Hash>, b: seq<Hash>, k: nat, i: nat, j: nat) returns (x: (Hash, Hash), y: (Hash, Hash))
    requires i < CalcTreeWidth(|a|, k) && j < CalcTreeWidth(|b|, k) && CalcHash(h, a, k, i) == CalcHash(h, b, k, j)
    ensures LeavesOf(a, k, i) == LeavesOf(b, k, j) || Mutated(h, a) || Mutated(h, b) || Collides(h, a, b, x, y)
    decreases k, 0
  {
    hide CalcTreeWidth, Mutated, PairOf;
    if k == 0 {
      OneLeaf(h, a, i);
      OneLeaf(h, b, j);
      x, y := (0, 0), (0, 0);
    } else {
      hide CalcHash, LeavesOf;
      x, y := ChildHashes(h, a, k, i), ChildHashes(h, b, k, j);
      PairAt(h, a, k, i);
      PairAt(h, b, k, j);
      LeavesSplit(a, k, i);
      LeavesSplit(b, k, j);
      if x == y {
        var two, twob := 2 * i + 1 < CalcTreeWidth(|a|, k - 1), 2 * j + 1 < CalcTreeWidth(|b|, k - 1);
        x, y := SameNode(h, a, b, k - 1, 2 * i, 2 * j);
        if LeavesOf(a, k - 1, 2 * i) == LeavesOf(b, k - 1, 2 * j) {
          if two && twob {
            x, y := SameNode(h, a, b, k - 1, 2 * i + 1, 2 * j + 1);
          } else if two {
            x, y := Repeats(h, a, k - 1, i);
          } else if twob {
            x, y := Repeats(h, b, k - 1, j);
          }
        }
      }
    }
  }

  /** Equal siblings of which the second may be incomplete. */
  lemma {:induction false} Repeats(h: PairHash, a: seq<Hash>, k: nat, i: nat) returns (x: (Hash, Hash), y: (Hash, Hash))
    requires 2 * i + 1 < CalcTreeWidth(|a|, k) && CalcHash(h, a, k, 2 * i) == CalcHash(h, a, k, 2 * i + 1)
    ensures Mutated(h, a) || Collides(h, a, a, x, y)
    decreases k, 1
  {
    hide CalcTreeWidth, CalcHash, LeavesOf, Mutated, PairOf;
    x, y := SameNode(h, a, a, k, 2 * i, 2 * i + 1);
    if LeavesOf(a, k, 2 * i) == LeavesOf(a, k, 2 * i + 1) {
      FullSiblings(h, a, k, i);
    }
  }

  lemma OneLeaf(h: PairHash, txids: seq<Hash>, i: nat)
    requires i < CalcTreeWidth(|txids|, 0)
    ensures i < |txids| && LeavesOf(txids, 0, i) == [CalcHash(h, txids, 0, i)]
  {
    WidthZero(|txids|);
    LeafBounds(|txids|, 0, i);
  }

  /** A leaf of one tree is the hash of a pair of the other. */
  ghost predicate LeafIsPair(h: PairHash, a: seq<Hash>, b: seq<Hash>) {
    exists i: nat, x: (Hash, Hash) :: i < |a| && PairOf(h, b, x) && a[i] == h(x.0, x.1)
  }

  /** A node of a lower row with the hash of one of a higher row: a leaf is the hash of a pair, or two pairs collide. */
  lemma {:induction false} LowerNode(h: PairHash, a: seq<Hash>, b: seq<Hash>, k: nat, i: nat, l: nat, j: nat) returns (x: (Hash, Hash), y: (Hash, Hash))
    requires k < l && i < CalcTreeWidth(|a|, k) && j < CalcTreeWidth(|b|, l) && CalcHash(h, a, k, i) == CalcHash(h, b, l, j)
    ensures LeafIsPair(h, a, b) || Collides(h, a, b, x, y)
    decreases k
  {
    hide CalcTreeWidth, CalcHash, PairOf;
    PairAt(h, b, l, j);
    y := ChildHashes(h, b, l, j);
    if k == 0 {
      OneLeaf(h, a, i);
      LeafIs(h, a, i);
      x := y;
      assert a[i] == h(y.0, y.1);
    } else {
      PairAt(h, a, k, i);
      x := ChildHashes(h, a, k, i);
      if x == y {
        LeavesSplit(a, k, i);
        LeavesSplit(b, l, j);
        x, y := LowerNode(h, a, b, k - 1, 2 * i, l - 1, 2 * j);
      }
    }
  }

  lemma LeafIs(h: PairHash, txids: seq<Hash>, i: nat)
    requires i < |txids| && i < CalcTreeWidth(|txids|, 0)
    ensures CalcHash(h, txids, 0, i) == txids[i]
  {
  }

  /**
   * Two blocks with the same Merkle root have the same transactions, unless one of them is found mutated, two
   * different pairs of hashes in their trees have the same hash, or an id of one is the hash of a pair of the other.
   */
  lemma RootTellsLeaves(h: PairHash, a: seq<Hash>, b: seq<Hash>) returns (x: (Hash, Hash), y: (Hash, Hash))
    requires a != [] && b != [] && Root(h, a) == Root(h, b)
    ensures a == b || Mutated(h, a) || Mutated(h, b) || Collides(h, a, b, x, y) || LeafIsPair(h, a, b) || LeafIsPair(h, b, a)
  {
    hide CalcTreeWidth, CalcHash, PairOf, Mutated, LeavesOf, LeafIsPair;
    var k, l := TreeHeight(|a|), TreeHeight(|b|);
    RootExists(|a|);
    RootExists(|b|);
    if k < l {
      x, y := LowerNode(h, a, b, k, 0, l, 0);
    } else if l < k {
      x, y := LowerNode(h, b, a, l, 0, k, 0);
    } else {
      x, y := SameNode(h, a, b, k, 0, 0);
      AllLeaves(a);
      AllLeaves(b);
    }
  }

  lemma AllLeaves(txids: seq<Hash>)
    requires txids != []
    ensures CalcTreeWidth(|txids|, TreeHeight(|txids|)) == 1 && LeavesOf(txids, TreeHeight(|txids|), 0) == txids
  {
    var k := TreeHeight(|txids|);
    RootExists(|txids|);
    WidthIff(|txids|, k, 1);
    LeafBounds(|txids|, k, 0);
  }

  /** Repeating the last transactions of an incomplete tree keeps the root; three transactions are the least instance. */
  lemma RepeatedKeepsRoot(h: PairHash, a: Hash, b: Hash, c: Hash)
    ensures Root(h, [a, b, c]) == Root(h, [a, b, c, c]) && Mutated(h, [a, b, c, c])
    ensures Mutated(h, [a, b, c]) <==> a == b
  {
    hide Root, CalcTreeWidth, Mutated;
    RootIsByRows(h, [a, b, c]);
    RootIsByRows(h, [a, b, c, c]);
    var row := [h(a, b), h(c, c)];
    assert NextRow(h, [a, b, c]) == row && NextRow(h, [a, b, c, c]) == row;
    ThreeMutated(h, [a, b, c]);
    WidthZero(4);
    FourMutated(h, [a, b, c, c]);
  }

  lemma FourMutated(h: PairHash, s: seq<Hash>)
    requires |s| == 4 && s[2] == s[3]
    ensures Mutated(h, s)
  {
    hide CalcTreeWidth, Q;
    WidthZero(4);
    QZero(4);
    LeafIs(h, s, 2);
    LeafIs(h, s, 3);
    assert TwinAt(h, s, 0, 1) && 2 * 1 + 2 <= Q(4, 0);
  }

  lemma ThreeMutated(h: PairHash, s: seq<Hash>)
    requires |s| == 3
    ensures Mutated(h, s) <==> s[0] == s[1]
  {
    hide CalcTreeWidth, Q;
    WidthZero(3);
    QZero(3);
    LeafIs(h, s, 0);
    LeafIs(h, s, 1);
    if s[0] == s[1] {
      assert TwinAt(h, s, 0, 0) && 2 * 0 + 2 <= Q(3, 0);
    }
    if Mutated(h, s) {
      var l: nat, j: nat :| TwinAt(h, s, l, j) && 2 * j + 2 <= Q(3, l);
      QNext(3, 0);
      if l > 0 {
        QFalls(3, 1, l);
      }
    }
  }

  lemma {:induction false} QFalls(c: nat, k: nat, l: nat)
    requires k <= l
    ensures Q(c, l) <= Q(c, k)
    decreases l - k
  {
    hide Q;
    if k < l {
      QNext(c, k);
      QFalls(c, k + 1, l);
    }
  }
}
