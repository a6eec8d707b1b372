/**
 * The address manager's file form (src/addrman.h): entries and new-table positions are written, the
 * address index, the random list and the tried table are rebuilt on loading.
 */
module AddrManFile {
  import opened Options
  import opened AddrMan

  /** The part of an entry that is written. */
  datatype Stored = Stored(addr: Address, source: Ip, lastSuccess: int, attempts: int)

  function Store(i: Info): Stored {
    Stored(i.addr, i.source, i.lastSuccess, i.attempts)
  }

  function Restore(e: Stored): Info {
    Info(e.addr, e.source, 0, 0, e.lastSuccess, e.attempts, 0, false, -1)
  }

  datatype Token = Byte(b: nat) | Key(k: nat) | Int(i: int) | Entry(e: Stored)

  const BIT30 := 0x4000_0000

  /** Exclusive or with 2^30. */
  function FlipBit30(n: int): int {
    if (n / BIT30) % 2 == 1 then n - BIT30 else n + BIT30
  }

  // ----- Writing

  /** The entries with references, by id, from `lo` up to `hi`. */
  function NewList(info: map<Id, Info>, lo: nat, hi: nat): seq<Id>
    requires lo <= hi
    decreases hi - lo
  {
    if lo == hi then []
    else (if lo in info && info[lo].refCount != 0 then [lo] else []) + NewList(info, lo + 1, hi)
  }

  function TriedList(info: map<Id, Info>, lo: nat, hi: nat): seq<Id>
    requires lo <= hi
    decreases hi - lo
  {
    if lo == hi then []
    else (if lo in info && info[lo].inTried then [lo] else []) + TriedList(info, lo + 1, hi)
  }

  /** The number an entry goes by in the file: its place among the entries with references. */
  function Rank(info: map<Id, Info>, n: Id): nat {
    |NewList(info, 0, n)|
  }

  /** The ids in bucket `b` from position `q` on, in order. */
  function BucketIds(news: map<Slot, Id>, b: nat, q: nat): seq<Id>
    requires q <= BUCKET_SIZE
    decreases BUCKET_SIZE - q
  {
    if q == BUCKET_SIZE then []
    else (if Slot(b, q) in news then [news[Slot(b, q)]] else []) + BucketIds(news, b, q + 1)
  }

  function Entries(info: map<Id, Info>, ids: seq<Id>): (t: seq<Token>)
    requires forall k :: 0 <= k < |ids| ==> ids[k] in info
    ensures |t| == |ids| && forall k :: 0 <= k < |t| ==> t[k] == Entry(Store(info[ids[k]]))
  {
    seq(|ids|, k requires 0 <= k < |ids| => Entry(Store(info[ids[k]])))
  }

  function Indices(info: map<Id, Info>, ids: seq<Id>): (t: seq<Token>)
    ensures |t| == |ids| && forall k :: 0 <= k < |t| ==> t[k] == Int(Rank(info, ids[k]))
  {
    seq(|ids|, k requires 0 <= k < |ids| => Int(Rank(info, ids[k])))
  }

  function Bucket(m: Man, b: nat): seq<Token> {
    var ids := BucketIds(m.news, b, 0);
    [Int(|ids|)] + Indices(m.info, ids)
  }

  function Buckets(m: Man, b: nat): seq<Token>
    requires b <= NEW_BUCKET_COUNT
    decreases NEW_BUCKET_COUNT - b
  {
    if b == NEW_BUCKET_COUNT then [] else Bucket(m, b) + Buckets(m, b + 1)
  }

  function Header(m: Man, key: nat): seq<Token> {
    [Byte(1), Byte(32), Key(key), Int(m.nNew), Int(m.nTried), Int(FlipBit30(NEW_BUCKET_COUNT))]
  }

  lemma {:induction false} ListFacts(info: map<Id, Info>, lo: nat, hi: nat)
    requires lo <= hi
    ensures forall k :: 0 <= k < |NewList(info, lo, hi)| ==>
              lo <= NewList(info, lo, hi)[k] < hi && NewList(info, lo, hi)[k] in info
              && info[NewList(info, lo, hi)[k]].refCount != 0
    ensures forall k :: 0 <= k < |TriedList(info, lo, hi)| ==>
              lo <= TriedList(info, lo, hi)[k] < hi && TriedList(info, lo, hi)[k] in info
              && info[TriedList(info, lo, hi)[k]].inTried
    decreases hi - lo
  {
    if lo < hi {
      ListFacts(info, lo + 1, hi);
    }
  }

  function Serialize(m: Man, key: nat): seq<Token> {
    ListFacts(m.info, 0, m.idCount);
    Header(m, key) + Entries(m.info, NewList(m.info, 0, m.idCount)) + Entries(m.info, TriedList(m.info, 0, m.idCount))
    + Buckets(m, 0)
  }

  // ----- Loading; `None` stands for an exception

  /** Entries of the new table; without usable positions each takes its home slot if that is free. */
  function LoadNew(h: Hasher, m: Man, toks: seq<Token>, p: nat, count: int, usable: bool): Option<(Man, nat)>
    decreases count - m.idCount
  {
    if m.idCount >= count then Some((m, p))
    else if p >= |toks| || !toks[p].Entry? then None
    else
      var i := Restore(toks[p].e);
      var t := Enter(m, i);
      var s := HomeSlot(h, i);
      LoadNew(h, if usable || s in t.news then t else PlaceNew(t, m.idCount, s), toks, p + 1, count, usable)
  }

  /** Entries of the tried table; one whose slot is taken is lost. */
  function LoadTried(h: Hasher, m: Man, toks: seq<Token>, p: nat, left: int, lost: nat): Option<(Man, nat, nat)>
    decreases left
  {
    if left <= 0 then Some((m, p, lost))
    else if p >= |toks| || !toks[p].Entry? then None
    else
      var i := Restore(toks[p].e);
      var s := h.TriedSlot(i.addr.service);
      if s in m.tried then LoadTried(h, m, toks, p + 1, left - 1, lost + 1)
      else LoadTried(h, Try(Enter(m, i), m.idCount, s).(nTried := m.nTried), toks, p + 1, left - 1, lost)
  }

  function LoadIndex(h: Hasher, m: Man, b: nat, idx: int, nNew: int, usable: bool): Man {
    if 0 <= idx < nNew && idx in m.info && usable
       && h.NewSlot(m.info[idx].addr.service, b) !in m.news && m.info[idx].refCount < NEW_BUCKETS_PER_ADDRESS
    then PlaceNew(m, idx, h.NewSlot(m.info[idx].addr.service, b)) else m
  }

  function LoadBucket(h: Hasher, m: Man, toks: seq<Token>, p: nat, b: nat, left: int, nNew: int, usable: bool): Option<(Man, nat)>
    decreases left
  {
    if left <= 0 then Some((m, p))
    else if p >= |toks| || !toks[p].Int? then None
    else LoadBucket(h, LoadIndex(h, m, b, toks[p].i, nNew, usable), toks, p + 1, b, left - 1, nNew, usable)
  }

  function LoadBuckets(h: Hasher, m: Man, toks: seq<Token>, p: nat, b: nat, count: int, nNew: int, usable: bool): Option<(Man, nat)>
    decreases count - b
  {
    if b >= count then Some((m, p))
    else if p >= |toks| || !toks[p].Int? then None
    else
      var r := LoadBucket(h, m, toks, p + 1, b, toks[p].i, nNew, usable);
      if r.None? then None else LoadBuckets(h, r.value.0, toks, r.value.1, b + 1, count, nNew, usable)
  }

  /** Forgets untried entries that found no slot. */
  function Prune(m: Man, n: nat, pruned: nat): Option<(Man, nat)>
    decreases m.idCount - n
  {
    if n >= m.idCount then Some((m, pruned))
    else if n in m.info && !m.info[n].inTried && m.info[n].refCount == 0 then
      if CanDelete(m, n) then Prune(Delete(m, n), n + 1, pruned + 1) else None
    else Prune(m, n + 1, pruned)
  }

  datatype Loaded = Loaded(key: nat, m: Man, lost: nat, pruned: nat)

  /** Rebuilds a manager; `hk` gives the bucket hashes for the key found in the file. */
  function Unserialize(hk: nat -> Hasher, toks: seq<Token>): Option<Loaded> {
    if |toks| < 6 || !toks[0].Byte? || toks[1] != Byte(32) || !toks[2].Key? || !toks[3].Int? || !toks[4].Int? || !toks[5].Int?
    then None
    else
      var version, key, nNew, nTried := toks[0].b, toks[2].k, toks[3].i, toks[4].i;
      var buckets := if version != 0 then FlipBit30(toks[5].i) else toks[5].i;
      if nNew > NEW_BUCKET_COUNT * BUCKET_SIZE || nTried > TRIED_BUCKET_COUNT * BUCKET_SIZE then None
      else
        Rebuild(hk(key), key, toks, nNew, nTried, buckets, version == 1 && buckets == NEW_BUCKET_COUNT)
  }

  function Rebuild(h: Hasher, key: nat, toks: seq<Token>, nNew: int, nTried: int, buckets: int, usable: bool): Option<Loaded> {
    var a := LoadNew(h, EMPTY.(nNew := nNew, nTried := nTried), toks, 6, nNew, usable);
    if a.None? then None
    else
      var b := LoadTried(h, a.value.0, toks, a.value.1, nTried, 0);
      if b.None? then None
      else
        var c := LoadBuckets(h, b.value.0.(nTried := nTried - b.value.2), toks, b.value.1, 0, buckets, nNew, usable);
        if c.None? then None
        else
          var d := Prune(c.value.0, 0, 0);
          if d.None? then None else Some(Loaded(key, d.value.0, b.value.2, d.value.1))
  }
}
