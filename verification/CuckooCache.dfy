/** The cuckoo cache of verified signatures (src/cuckoocache.h): eight slots per element, discardable flags, epochs. */
module CuckooCache {
  import opened Powers

  type Elem = nat

  /** What a slot holds before anything is stored in it. */
  const DEFAULT: Elem := 0

  const HASH_RANGE := 0x1_0000_0000
  type Hash32 = x: int | 0 <= x < 0x1_0000_0000

  /** The slot a 32-bit hash selects. */
  function Slot(hash: Hash32, size: nat): (loc: nat)
    requires size > 0
    ensures loc < size
  {
    var p := hash * size;
    MulMono(hash, HASH_RANGE - 1, size);
    Below(p, size);
    p / HASH_RANGE
  }

  lemma Below(p: nat, size: nat)
    requires p <= (HASH_RANGE - 1) * size && size > 0
    ensures p / HASH_RANGE < size
  {
    var q := p / HASH_RANGE;
    assert p == q * HASH_RANGE + p % HASH_RANGE;
  }

  /** The first hash that selects a slot: the slot's share of the range, rounded up. */
  function FirstHash(loc: nat, size: nat): nat
    requires size > 0
  {
    (loc * HASH_RANGE + size - 1) / size
  }

  /** A slot is selected by the hashes from its first up to the next slot's. */
  lemma SlotIff(hash: Hash32, size: nat, loc: nat)
    requires size > 0
    ensures Slot(hash, size) == loc <==> FirstHash(loc, size) <= hash < FirstHash(loc + 1, size)
  {
    CeilDivIff(loc * HASH_RANGE, size, hash);
    CeilDivIff((loc + 1) * HASH_RANGE, size, hash);
    QuotientIff(hash * size, loc);
  }

  lemma QuotientIff(p: nat, loc: nat)
    ensures p / HASH_RANGE == loc <==> loc * HASH_RANGE <= p < (loc + 1) * HASH_RANGE
  {
  }

  /** Every slot has its fair share of the hashes, to within one. */
  lemma SlotsAreFair(size: nat, loc: nat)
    requires size > 0
    ensures HASH_RANGE / size <= FirstHash(loc + 1, size) - FirstHash(loc, size) <= HASH_RANGE / size + 1
    ensures FirstHash(0, size) == 0 && FirstHash(size, size) == HASH_RANGE
  {
    hide FirstHash;
    FirstIs(loc, size);
    FirstIs(loc + 1, size);
    FairGap(FirstHash(loc, size), FirstHash(loc + 1, size), loc * HASH_RANGE, HASH_RANGE, size);
    FirstIs(0, size);
    FirstIs(size, size);
    Cancel(FirstHash(0, size), 0, size);
    Cancel(FirstHash(size, size), HASH_RANGE, size);
  }

  lemma FairGap(a: nat, b: nat, lo: nat, n: nat, size: nat)
    requires size > 0 && lo <= a * size < lo + size && lo + n <= b * size < lo + n + size
    ensures n / size <= b - a <= n / size + 1
  {
    var q, r := n / size, n % size;
    assert n == q * size + r;
    assert (b - a) * size == b * size - a * size;
    FairBounds(b - a, q, r, size);
  }

  lemma FairBounds(d: int, q: int, r: int, size: nat)
    requires 0 <= r < size && q * size + r - size < d * size < q * size + r + size
    ensures q <= d <= q + 1
  {
    Bigger(d, q - 1, size);
    Bigger(q + 2, d, size);
    assert (q - 1) * size == q * size - size && (q + 2) * size == q * size + 2 * size;
  }

  lemma Bigger(a: int, b: int, size: nat)
    ensures a <= b ==> a * size <= b * size
  {
    if a <= b {
      MulMono(a, b, size);
    }
  }

  lemma Cancel(a: int, b: int, size: nat)
    requires size > 0 && size * b <= a * size < size * b + size
    ensures a == b
  {
    FairBounds(a, b, 0, size);
    Bigger(b + 1, a, size);
    assert (b + 1) * size == b * size + size;
  }

  lemma FirstIs(loc: nat, size: nat)
    requires size > 0
    ensures loc * HASH_RANGE <= FirstHash(loc, size) * size < loc * HASH_RANGE + size
  {
    var n := loc * HASH_RANGE + size - 1;
    assert n == (n / size) * size + n % size;
  }

  /** The eight slots of an element. */
  function Locs(h: (Elem, nat) -> Hash32, size: nat, e: Elem): (locs: seq<nat>)
    requires size > 0
    ensures |locs| == 8 && forall k :: 0 <= k < 8 ==> locs[k] < size
  {
    [Slot(h(e, 0), size), Slot(h(e, 1), size), Slot(h(e, 2), size), Slot(h(e, 3), size),
     Slot(h(e, 4), size), Slot(h(e, 5), size), Slot(h(e, 6), size), Slot(h(e, 7), size)]
  }

  function Max(a: nat, b: nat): nat {
    if a < b then b else a
  }

  // ----- What the tables hold

  /** Elements whose slots are not discardable. */
  function Live(table: seq<Elem>, flags: seq<bool>): set<Elem>
    requires |table| == |flags|
  {
    set i | 0 <= i < |table| && !flags[i] :: table[i]
  }

  /** What is stored, live or discardable. */
  function Stored(table: seq<Elem>): set<Elem> {
    set i | 0 <= i < |table| :: table[i]
  }

  /** Writing a slot loses at most what was there. */
  lemma StoredWrite(table: seq<Elem>, loc: nat, e: Elem)
    requires loc < |table|
    ensures Stored(table) + {e} == Stored(table[loc := e]) + {table[loc]}
  {
    var t := table[loc := e];
    forall x ensures x in Stored(table) + {e} <==> x in Stored(t) + {table[loc]} {
      if x in Stored(table) {
        var i :| 0 <= i < |table| && table[i] == x;
        assert i != loc ==> t[i] == x;
      }
      if x in Stored(t) {
        var i :| 0 <= i < |t| && t[i] == x;
        assert i != loc ==> table[i] == x;
      }
      assert t[loc] == e && table[loc] in Stored(table);
    }
  }

  /** The live elements of the current epoch. */
  function Young(table: seq<Elem>, flags: seq<bool>, epochs: seq<bool>): set<Elem>
    requires |table| == |flags| == |epochs|
  {
    set i | 0 <= i < |table| && !flags[i] && epochs[i] :: table[i]
  }

  /** Every stored element sits at one of its own slots. */
  ghost predicate Placed(h: (Elem, nat) -> Hash32, table: seq<Elem>) {
    forall i :: 0 <= i < |table| && table[i] != DEFAULT ==> i in Locs(h, |table|, table[i])
  }

  /** Every stored element is stored once. */
  ghost predicate Once(table: seq<Elem>) {
    forall i, j :: 0 <= i < j < |table| && table[i] != DEFAULT ==> table[i] != table[j]
  }

  /** An element that is at none of its slots is nowhere. */
  lemma NowhereElse(h: (Elem, nat) -> Hash32, table: seq<Elem>, e: Elem)
    requires table != [] && Placed(h, table) && e != DEFAULT
    requires forall k :: 0 <= k < 8 ==> table[Locs(h, |table|, e)[k]] != e
    ensures e !in table
  {
    hide Placed, Locs;
    if e in table {
      var i :| 0 <= i < |table| && table[i] == e;
      AtItsSlot(h, table, i);
      assert false;
    }
  }

  lemma AtItsSlot(h: (Elem, nat) -> Hash32, table: seq<Elem>, i: nat)
    requires i < |table| && Placed(h, table) && table[i] != DEFAULT
    ensures exists k :: 0 <= k < 8 && Locs(h, |table|, table[i])[k] == i
  {
    hide Locs;
    assert i in Locs(h, |table|, table[i]);
  }

  /** Storing an element that is nowhere, at one of its slots. */
  lemma StoreKeeps(h: (Elem, nat) -> Hash32, table: seq<Elem>, loc: nat, e: Elem)
    requires Placed(h, table) && Once(table) && loc < |table| && loc in Locs(h, |table|, e) && (e != DEFAULT ==> e !in table)
    ensures Placed(h, table[loc := e]) && Once(table[loc := e])
  {
  }

  lemma TakenOut(table: seq<Elem>, loc: nat, e: Elem)
    requires Once(table) && loc < |table| && e != table[loc]
    ensures table[loc] != DEFAULT ==> table[loc] !in table[loc := e]
  {
    var t := table[loc := e];
    forall i | 0 <= i < |t| && table[loc] != DEFAULT ensures t[i] != table[loc] {
      assert i != loc ==> t[i] == table[i];
    }
  }

  /** Overwriting a discardable slot and keeping it adds the element. */
  lemma StoreLive(table: seq<Elem>, flags: seq<bool>, loc: nat, e: Elem)
    requires |table| == |flags| && loc < |table| && (flags[loc] || table[loc] == e)
    ensures Live(table[loc := e], flags[loc := false]) == Live(table, flags) + {e}
  {
    var t, f := table[loc := e], flags[loc := false];
    forall x | x in Live(table, flags) + {e} ensures x in Live(t, f) {
      if x == e {
        assert t[loc] == e && !f[loc];
      } else {
        var i :| 0 <= i < |table| && !flags[i] && table[i] == x;
        assert t[i] == x && !f[i];
      }
    }
  }

  /** Swapping an element with one that is kept. */
  lemma SwapLive(table: seq<Elem>, flags: seq<bool>, loc: nat, e: Elem)
    requires |table| == |flags| && loc < |table| && !flags[loc]
    ensures Live(table[loc := e], flags) + {table[loc]} == Live(table, flags) + {e}
  {
    var t := table[loc := e];
    forall x | x in Live(table, flags) + {e} ensures x in Live(t, flags) + {table[loc]} {
      if x == e {
        assert t[loc] == e;
      } else if x != table[loc] {
        var i :| 0 <= i < |table| && !flags[i] && table[i] == x;
        assert t[i] == x;
      }
    }
    forall x | x in Live(t, flags) + {table[loc]} ensures x in Live(table, flags) + {e} {
      if x == table[loc] {
        assert !flags[loc];
      } else {
        var i :| 0 <= i < |t| && !flags[i] && t[i] == x;
        assert i == loc ==> x == e;
        assert i != loc ==> table[i] == x;
      }
    }
  }

  /** One of the slots is discardable. */
  predicate HasFree(flags: seq<bool>, locs: seq<nat>) {
    exists k :: 0 <= k < |locs| && locs[k] < |flags| && flags[locs[k]]
  }

  /** What an insertion may do: all of the old elements and the new one stay, but for one at most. */
  ghost predicate Inserted(before: set<Elem>, e: Elem, now: set<Elem>) {
    exists x :: before + {e} - {x} <= now <= before + {e}
  }

  /** How many of the first `n` slots are of the current epoch and kept. */
  function Unused(epochs: seq<bool>, flags: seq<bool>, n: nat): nat
    requires n <= |epochs| == |flags|
  {
    if n == 0 then 0 else Unused(epochs, flags, n - 1) + if epochs[n - 1] && !flags[n - 1] then 1 else 0
  }

  // ----- Flags packed in bytes

  /** The bit of position `k` in a byte. */
  function Mask(k: nat): bv8
    requires k < 8
  {
    match k
    case 0 => 1 case 1 => 2 case 2 => 4 case 3 => 8
    case 4 => 16 case 5 => 32 case 6 => 64 case _ => 128
  }

  function Set(m: bv8, k: nat): bv8
    requires k < 8
  {
    m | Mask(k)
  }

  function Unset(m: bv8, k: nat): bv8
    requires k < 8
  {
    m & !Mask(k)
  }

  predicate IsSet(m: bv8, k: nat)
    requires k < 8
  {
    m & Mask(k) != 0
  }

  lemma OneBit(m: bv8, k: nat, j: nat)
    requires k < 8 && j < 8
    ensures IsSet(Set(m, k), j) <==> j == k || IsSet(m, j)
    ensures IsSet(Unset(m, k), j) <==> j != k && IsSet(m, j)
  {
  }

  /** The bytes for so many flags, computed in 32 bits: enough up to 0xfffffff8 of them, none from there on. */
  function FlagBytes(size: nat): (r: nat)
    requires size < 0x1_0000_0000
    ensures size <= 8 * r <==> size < 0xffff_fff9
    ensures size >= 0xffff_fff9 ==> r == 0
  {
    (size + 7) % 0x1_0000_0000 / 8
  }

  class BitPackedFlags {
    var mem: seq<bv8>

    constructor (size: nat)
      requires size < 0x1_0000_0000
      ensures |mem| == FlagBytes(size) && forall s :: 0 <= s < 8 * |mem| ==> Flag(mem, s)
    {
      mem := seq(FlagBytes(size), _ => 0xff as bv8);
    }

    method BitSet(s: nat)
      requires s < 8 * |mem|
      modifies this
      ensures |mem| == old(|mem|) && forall j :: 0 <= j < 8 * |mem| ==> Flag(mem, j) == (j == s || Flag(old(mem), j))
    {
      hide Set, IsSet;
      forall j: nat | j < 8 ensures IsSet(Set(mem[s / 8], s % 8), j) <==> j == s % 8 || IsSet(mem[s / 8], j) {
        OneBit(mem[s / 8], s % 8, j);
      }
      mem := mem[s / 8 := Set(mem[s / 8], s % 8)];
    }

    method BitUnset(s: nat)
      requires s < 8 * |mem|
      modifies this
      ensures |mem| == old(|mem|) && forall j :: 0 <= j < 8 * |mem| ==> Flag(mem, j) == (j != s && Flag(old(mem), j))
    {
      hide Unset, IsSet;
      forall j: nat | j < 8 ensures IsSet(Unset(mem[s / 8], s % 8), j) <==> j != s % 8 && IsSet(mem[s / 8], j) {
        OneBit(mem[s / 8], s % 8, j);
      }
      mem := mem[s / 8 := Unset(mem[s / 8], s % 8)];
    }
  }

  /** The flag of a position: its bit in its byte. */
  predicate Flag(mem: seq<bv8>, s: nat)
    requires s < 8 * |mem|
  {
    IsSet(mem[s / 8], s % 8)
  }

  // ----- The cache

  /** The size of an epoch, computed in 32 bits: 45% of the slots up to 95443717 of them, less from there on. */
  function EpochSize(size: nat): (r: nat)
    ensures r >= 1 && (r == Max(1, 45 * size / 100) <==> size < 95_443_718)
  {
    Max(1, (45 * size) % 0x1_0000_0000 / 100)
  }

  class Cache {
    const h: (Elem, nat) -> Hash32
    var table: seq<Elem>
    var flags: seq<bool>
    var epochs: seq<bool>
    var epochCounter: nat
    var epochSize: nat
    var depthLimit: nat

    /** `setup`: at least two slots, all empty and discardable; epochs of 45% of them, while that fits 32 bits. */
    constructor (hash: (Elem, nat) -> Hash32, newSize: nat, depth: nat)
      requires newSize < 0x1_0000_0000
      ensures Valid() && h == hash && Contents() == {} && |table| == Max(2, newSize) && depthLimit == depth
      ensures (forall i :: 0 <= i < |table| ==> flags[i] && !epochs[i]) && epochCounter == epochSize == EpochSize(|table|)
    {
      var size := Max(2, newSize);
      h, depthLimit := hash, depth;
      table, flags, epochs := seq(size, _ => DEFAULT), seq(size, _ => true), seq(size, _ => false);
      epochSize, epochCounter := EpochSize(size), EpochSize(size);
    }

    ghost predicate Valid()
      reads this
    {
      && |table| == |flags| == |epochs| && |table| > 0
      && Placed(h, table) && Once(table)
    }

    /** Whether the next epoch check ages the epochs. */
    predicate AgingDue()
      reads this
      requires |table| == |flags| == |epochs|
    {
      epochCounter == 0 && Unused(epochs, flags, |table|) >= epochSize
    }

    function Contents(): set<Elem>
      reads this
      requires |table| == |flags|
    {
      Live(table, flags)
    }

    /**
     * Every so often counts the kept elements of the current epoch.  With too many, the old epoch
     * becomes discardable and the current one old; otherwise the next count is put off.
     */
    method EpochCheck()
      requires Valid()
      modifies this`flags, this`epochs, this`epochCounter
      ensures Valid() && Contents() == if old(AgingDue()) then old(Young(table, flags, epochs)) else old(Contents())
      ensures old(epochCounter) != 0 || Unused(old(epochs), old(flags), |table|) < epochSize ==> flags == old(flags) && epochs == old(epochs)
      ensures old(epochCounter) == 0 && Unused(old(epochs), old(flags), |table|) >= epochSize ==>
        forall i :: 0 <= i < |table| ==> !epochs[i] && (flags[i] <==> old(flags)[i] || !old(epochs)[i])
      ensures epochCounter ==
        if old(epochCounter) != 0 then old(epochCounter) - 1
        else if Unused(old(epochs), old(flags), |table|) >= epochSize then epochSize
        else Max(1, Max(epochSize / 16, epochSize - Unused(old(epochs), old(flags), |table|)))
    {
      if epochCounter != 0 {
        epochCounter := epochCounter - 1;
        return;
      }
      var unused, i := 0, 0;
      while i < |table|
        invariant 0 <= i <= |table| && unused == Unused(epochs, flags, i)
      {
        if epochs[i] && !flags[i] {
          unused := unused + 1;
        }
        i := i + 1;
      }
      if unused >= epochSize {
        ghost var f, ep := flags, epochs;
        i := 0;
        while i < |table|
          invariant 0 <= i <= |table| == |flags| == |epochs|
          invariant forall j :: 0 <= j < i ==> !epochs[j] && (flags[j] <==> f[j] || !ep[j])
          invariant forall j :: i <= j < |table| ==> epochs[j] == ep[j] && flags[j] == f[j]
        {
          if epochs[i] {
            epochs := epochs[i := false];
          } else {
            flags := flags[i := true];
          }
          i := i + 1;
        }
        epochCounter := epochSize;
        AgedLive(table, f, ep, flags);
      } else {
        epochCounter := Max(1, Max(epochSize / 16, epochSize - unused));
      }
    }

    /** The first of the element's slots that holds it, or 8. */
    method Find(locs: seq<nat>, e: Elem) returns (k: nat)
      requires Valid() && locs == Locs(h, |table|, e)
      ensures k <= 8 && (k < 8 ==> table[locs[k]] == e) && (k == 8 ==> forall j :: 0 <= j < 8 ==> table[locs[j]] != e)
    {
      k := 0;
      while k < 8
        invariant 0 <= k <= 8 && forall j :: 0 <= j < k ==> table[locs[j]] != e
      {
        if table[locs[k]] == e {
          return;
        }
        k := k + 1;
      }
    }

    /** The first of the slots that is discardable, or 8. */
    method FindFree(locs: seq<nat>) returns (k: nat)
      requires Valid() && |locs| == 8 && forall j :: 0 <= j < 8 ==> locs[j] < |table|
      ensures k <= 8 && (k < 8 ==> flags[locs[k]]) && (k == 8 ==> forall j :: 0 <= j < 8 ==> !flags[locs[j]])
    {
      k := 0;
      while k < 8
        invariant 0 <= k <= 8 && forall j :: 0 <= j < k ==> !flags[locs[j]]
      {
        if flags[locs[k]] {
          return;
        }
        k := k + 1;
      }
    }

    /** Puts the element in a slot and keeps it. */
    method Put(loc: nat, e: Elem, epoch: bool)
      requires Valid() && loc < |table| && loc in Locs(h, |table|, e) && (table[loc] == e || (flags[loc] && (e != DEFAULT ==> e !in table)))
      modifies this`table, this`flags, this`epochs
      ensures Valid() && |table| == old(|table|) && Contents() == old(Contents()) + {e}
      ensures exists y :: Stored(table) + {y} == old(Stored(table)) + {e}
    {
      StoredWrite(table, loc, e);
      StoreLive(table, flags, loc, e);
      if table[loc] == e {
        assert table[loc := e] == table;
      } else {
        StoreKeeps(h, table, loc, e);
      }
      table := table[loc := e];
      flags := flags[loc := false];
      epochs := epochs[loc := epoch];
    }

    /**
     * Insertion after the epoch check: everything live and the new element stay, except at most one
     * element, the one left over when the depth limit is reached; none if a slot is free at once.  Of
     * all that is stored at most one element goes, a discardable one that made room or the one left over.
     */
    method InsertNow(e0: Elem)
      requires Valid()
      modifies this`table, this`flags, this`epochs
      ensures Valid() && |table| == old(|table|) && Inserted(old(Contents()), e0, Contents())
      ensures depthLimit > 0 && HasFree(old(flags), Locs(h, |table|, e0)) ==> Contents() == old(Contents()) + {e0}
      ensures Inserted(old(Stored(table)), e0, Stored(table))
    {
      hide Locs, Placed, Once, Live, Inserted, Stored;
      var e, lastLoc, lastEpoch := e0, -1, true;
      var locs := Locs(h, |table|, e);
      var k := Find(locs, e);
      if k < 8 {
        ghost var before := Stored(table);
        Put(locs[k], e, true);
        Plain(old(Contents()), e0);
        OneOut(before, e0, Stored(table));
        return;
      }
      if e != DEFAULT {
        NowhereElse(h, table, e);
      }
      var depth := 0;
      while depth < depthLimit
        invariant Valid() && flags == old(flags) && |table| == old(|table|) && locs == Locs(h, |table|, e)
        invariant (e != DEFAULT ==> e !in table) && (depth == 0 ==> e == e0)
        invariant Contents() + {e} == old(Contents()) + {e0} && Stored(table) + {e} == old(Stored(table)) + {e0}
        invariant 0 <= depth && (depth > 0 ==> !HasFree(flags, Locs(h, |table|, e0)))
      {
        k := FindFree(locs);
        if k < 8 {
          Put(locs[k], e, lastEpoch);
          Plain(old(Contents()), e0);
          OneOut(old(Stored(table)), e0, Stored(table));
          return;
        }
        var at := NextLoc(locs, lastLoc);
        lastLoc := locs[at];
        var y := table[lastLoc];
        SwapLive(table, flags, lastLoc, e);
        StoredWrite(table, lastLoc, e);
        if e != y {
          StoreKeeps(h, table, lastLoc, e);
          TakenOut(table, lastLoc, e);
        } else {
          assert table[lastLoc := e] == table;
        }
        table := table[lastLoc := e];
        e := y;
        var epoch := lastEpoch;
        lastEpoch := epochs[lastLoc];
        epochs := epochs[lastLoc := epoch];
        locs := Locs(h, |table|, e);
        depth := depth + 1;
      }
      LeftOver(old(Contents()), e0, Contents(), e);
      LeftOver(old(Stored(table)), e0, Stored(table), e);
    }

    method Insert(e: Elem)
      requires Valid()
      modifies this
      ensures Valid() && |table| == old(|table|)
      ensures Inserted(if old(AgingDue()) then old(Young(table, flags, epochs)) else old(Contents()), e, Contents())
      ensures Inserted(old(Stored(table)), e, Stored(table))
    {
      EpochCheck();
      InsertNow(e);
    }

    /** Whether the element is stored; with `erase` its slot becomes discardable. */
    method Contains(e: Elem, erase: bool) returns (r: bool)
      requires Valid()
      modifies this`flags
      ensures Valid()
      ensures e != DEFAULT ==> (r <==> e in table)
      ensures e != DEFAULT ==> Contents() == if r && erase then old(Contents()) - {e} else old(Contents())
    {
      var locs := Locs(h, |table|, e);
      var k := Find(locs, e);
      r := k < 8;
      if r && erase {
        if e != DEFAULT {
          EraseLive(table, flags, locs[k], e);
        }
        flags := flags[locs[k] := true];
      }
      if !r && e != DEFAULT {
        NowhereElse(h, table, e);
      }
    }
  }

  /** The slot after the one last swapped, in the order of the element's slots; the second if none was. */
  method NextLoc(locs: seq<nat>, lastLoc: int) returns (at: nat)
    requires |locs| == 8
    ensures at < 8 && if exists j :: 0 <= j < 8 && locs[j] == lastLoc then locs[(at + 7) % 8] == lastLoc else at == 1
  {
    var i := 0;
    while i < 8 && locs[i] != lastLoc
      invariant 0 <= i <= 8 && forall j :: 0 <= j < i ==> locs[j] != lastLoc
    {
      i := i + 1;
    }
    at := (1 + i) % 8;
  }

  lemma AgedLive(table: seq<Elem>, flags: seq<bool>, epochs: seq<bool>, aged: seq<bool>)
    requires |table| == |flags| == |epochs| == |aged|
    requires forall i :: 0 <= i < |table| ==> (aged[i] <==> flags[i] || !epochs[i])
    ensures Live(table, aged) == Young(table, flags, epochs)
  {
    forall x ensures x in Live(table, aged) <==> x in Young(table, flags, epochs) {
      assert x in Live(table, aged) <==> exists i :: 0 <= i < |table| && !aged[i] && table[i] == x;
      assert x in Young(table, flags, epochs) <==> exists i :: 0 <= i < |table| && !flags[i] && epochs[i] && table[i] == x;
    }
  }

  lemma Plain(before: set<Elem>, e: Elem)
    ensures Inserted(before, e, before + {e})
  {
    assert before + {e} - {e} <= before + {e};
  }

  lemma OneOut(before: set<Elem>, e: Elem, now: set<Elem>)
    requires exists y :: now + {y} == before + {e}
    ensures Inserted(before, e, now)
  {
    var y :| now + {y} == before + {e};
    LeftOver(before, e, now, y);
  }

  lemma LeftOver(before: set<Elem>, e0: Elem, now: set<Elem>, e: Elem)
    requires now + {e} == before + {e0}
    ensures Inserted(before, e0, now)
  {
    assert before + {e0} - {e} <= now;
  }

  lemma EraseLive(table: seq<Elem>, flags: seq<bool>, loc: nat, e: Elem)
    requires |table| == |flags| && loc < |table| && table[loc] == e != DEFAULT && Once(table)
    ensures Live(table, flags[loc := true]) == Live(table, flags) - {e}
  {
    var f := flags[loc := true];
    forall x | x in Live(table, flags) - {e} ensures x in Live(table, f) {
      var i :| 0 <= i < |table| && !flags[i] && table[i] == x;
      assert !f[i];
    }
    forall x | x in Live(table, f) ensures x in Live(table, flags) - {e} {
      var i :| 0 <= i < |table| && !f[i] && table[i] == x;
      assert !flags[i];
      assert i < loc ==> table[i] != table[loc];
      assert loc < i ==> table[loc] != table[i];
    }
  }
}
