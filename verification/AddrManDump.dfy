/** Saving and loading the manager object with the source's loops (src/addrman.h). */
module AddrManDump {
  import opened Options
  import opened AddrMan
  import opened AddrManTable
  import opened AddrManFile
  import opened AddrManRoundTrip

  lemma NewListSnoc(info: map<Id, Info>, n: nat)
    ensures NewList(info, 0, n + 1) ==
            NewList(info, 0, n) + if n in info && info[n].refCount != 0 then [n] else []
  {
    NewListSplit(info, 0, n, n + 1);
    assert NewList(info, n + 1, n + 1) == [];
  }

  lemma {:induction false} TriedListSplit(info: map<Id, Info>, lo: nat, mid: nat, hi: nat)
    requires lo <= mid <= hi
    ensures TriedList(info, lo, hi) == TriedList(info, lo, mid) + TriedList(info, mid, hi)
    decreases mid - lo
  {
    if lo < mid {
      TriedListSplit(info, lo + 1, mid, hi);
    }
  }

  lemma TriedListSnoc(info: map<Id, Info>, n: nat)
    ensures TriedList(info, 0, n + 1) ==
            TriedList(info, 0, n) + if n in info && info[n].inTried then [n] else []
  {
    TriedListSplit(info, 0, n, n + 1);
    assert TriedList(info, n + 1, n + 1) == [];
  }

  /** The entries written so far leave room for the one at hand. */
  lemma FewerThanCounted(h: Hasher, m: Man, n: Id)
    requires Valid(h, m) && n in m.info
    ensures m.info[n].refCount != 0 ==> |NewList(m.info, 0, n)| < m.nNew
    ensures m.info[n].inTried ==> |TriedList(m.info, 0, n)| < m.nTried
  {
    var ns, ts := NewList(m.info, 0, m.idCount), TriedList(m.info, 0, m.idCount);
    RefAt(h, m, n);
    ListsFacts(h, m, ns, ts);
    NewListSplit(m.info, 0, n, m.idCount);
    TriedListSplit(m.info, 0, n, m.idCount);
    hide Core;
    assert m.info[n].refCount != 0 ==> NewList(m.info, n, m.idCount) != [];
    assert m.info[n].inTried ==> TriedList(m.info, n, m.idCount) != [];
  }

  ghost predicate Ranks(info: map<Id, Info>, unk: map<Id, nat>, n: nat) {
    forall k :: k in info && k < n ==> k in unk && unk[k] == Rank(info, k)
  }

  /** Writes the entries with references and numbers all ids met on the way. */
  method SaveNew(mgr: Manager) returns (toks: seq<Token>, unk: map<Id, nat>)
    requires Valid(mgr.h, mgr.State())
    ensures (forall k :: 0 <= k < |NewList(mgr.info, 0, mgr.idCount)| ==> NewList(mgr.info, 0, mgr.idCount)[k] in mgr.info)
    ensures toks == Entries(mgr.info, NewList(mgr.info, 0, mgr.idCount))
    ensures Ranks(mgr.info, unk, mgr.idCount)
  {
    hide Core, NewList, TriedList;
    var info := mgr.info;
    toks, unk := [], map[];
    var nIds := 0;
    ListFacts(info, 0, 0);
    assert NewList(info, 0, 0) == [] by { NewListNone(info); }
    for n := 0 to mgr.idCount
      invariant forall k :: 0 <= k < |NewList(info, 0, n)| ==> NewList(info, 0, n)[k] in info
      invariant nIds == |NewList(info, 0, n)| && toks == Entries(info, NewList(info, 0, n))
      invariant Ranks(info, unk, n)
    {
      NewListSnoc(info, n);
      ListFacts(info, 0, n + 1);
      if n in info {
        unk := unk[n := nIds];
        if info[n].refCount != 0 {
          FewerThanCounted(mgr.h, mgr.State(), n);
          assert nIds != mgr.nNew;
          toks := toks + [Entry(Store(info[n]))];
          nIds := nIds + 1;
        }
      }
    }
  }

  lemma NewListNone(info: map<Id, Info>)
    ensures NewList(info, 0, 0) == [] && TriedList(info, 0, 0) == []
  {
  }

  method SaveTried(mgr: Manager) returns (toks: seq<Token>)
    requires Valid(mgr.h, mgr.State())
    ensures (forall k :: 0 <= k < |TriedList(mgr.info, 0, mgr.idCount)| ==> TriedList(mgr.info, 0, mgr.idCount)[k] in mgr.info)
    ensures toks == Entries(mgr.info, TriedList(mgr.info, 0, mgr.idCount))
  {
    hide Core, NewList, TriedList;
    var info := mgr.info;
    toks := [];
    var nIds := 0;
    NewListNone(info);
    for n := 0 to mgr.idCount
      invariant forall k :: 0 <= k < |TriedList(info, 0, n)| ==> TriedList(info, 0, n)[k] in info
      invariant nIds == |TriedList(info, 0, n)| && toks == Entries(info, TriedList(info, 0, n))
    {
      TriedListSnoc(info, n);
      ListFacts(info, 0, n + 1);
      if n in info && info[n].inTried {
        FewerThanCounted(mgr.h, mgr.State(), n);
        assert nIds != mgr.nTried;
        toks := toks + [Entry(Store(info[n]))];
        nIds := nIds + 1;
      }
    }
  }

  method BucketSize(mgr: Manager, b: nat) returns (size: nat)
    requires mgr.Ok() && b < NEW_BUCKET_COUNT
    ensures size == |BucketIds(mgr.State().news, b, 0)|
  {
    hide Holds;
    ghost var m := mgr.State();
    size := 0;
    for i := 0 to BUCKET_SIZE
      invariant size + |BucketIds(m.news, b, i)| == |BucketIds(m.news, b, 0)|
    {
      var n := mgr.LookNew(Slot(b, i));
      if n != -1 {
        size := size + 1;
      }
    }
  }

  /** Writes one bucket: its size, then the numbers of its entries by position. */
  method SaveBucket(mgr: Manager, unk: map<Id, nat>, b: nat) returns (toks: seq<Token>)
    requires mgr.Ok() && Valid(mgr.h, mgr.State()) && Ranks(mgr.info, unk, mgr.idCount) && b < NEW_BUCKET_COUNT
    ensures toks == Bucket(mgr.State(), b)
  {
    hide Valid, Core, Holds, Ranks, Rank, Indices, BucketIds;
    ghost var m := mgr.State();
    var size := BucketSize(mgr, b);
    toks := [];
    IndicesNone(m.info, Indices(m.info, BucketIds(m.news, b, 0)));
    for i := 0 to BUCKET_SIZE
      invariant toks + Indices(m.info, BucketIds(m.news, b, i)) == Indices(m.info, BucketIds(m.news, b, 0))
    {
      var n := mgr.LookNew(Slot(b, i));
      BucketStep(m, b, i, toks);
      if n != -1 {
        RankKnown(mgr.h, m, unk, Slot(b, i));
        toks := toks + [Int(unk[n])];
      }
    }
    BucketEnd(m, b, toks);
    toks := [Int(size)] + toks;
  }

  lemma IndicesNone(info: map<Id, Info>, toks: seq<Token>)
    ensures toks + Indices(info, []) == toks == [] + toks
  {
  }

  lemma BucketStep(m: Man, b: nat, i: nat, toks: seq<Token>)
    requires i < BUCKET_SIZE
    ensures var more := Indices(m.info, BucketIds(m.news, b, i + 1));
      toks + Indices(m.info, BucketIds(m.news, b, i)) ==
      if Slot(b, i) in m.news then (toks + [Int(Rank(m.info, m.news[Slot(b, i)]))]) + more else toks + more
  {
    hide Rank;
    var ids := BucketIds(m.news, b, i + 1);
    if Slot(b, i) in m.news {
      var n := m.news[Slot(b, i)];
      assert Indices(m.info, [n] + ids) == [Int(Rank(m.info, n))] + Indices(m.info, ids);
    } else {
      assert [] + ids == ids;
    }
  }

  lemma BucketEnd(m: Man, b: nat, toks: seq<Token>)
    ensures toks + Indices(m.info, BucketIds(m.news, b, BUCKET_SIZE)) == toks
  {
  }

  lemma RankKnown(h: Hasher, m: Man, unk: map<Id, nat>, s: Slot)
    requires Valid(h, m) && Ranks(m.info, unk, m.idCount) && s in m.news
    ensures m.news[s] in unk && unk[m.news[s]] == Rank(m.info, m.news[s])
  {
    ValidNewOk(h, m);
    NewIn(h, m.info, m.news, s);
    RefAt(h, m, m.news[s]);
  }

  method Save(mgr: Manager, key: nat) returns (toks: seq<Token>)
    requires mgr.Ok() && Valid(mgr.h, mgr.State())
    ensures toks == Serialize(mgr.State(), key)
  {
    hide Core, Holds, NewList, TriedList, Bucket, Entries, Buckets;
    var news, unk := SaveNew(mgr);
    var tried := SaveTried(mgr);
    var buckets := SaveBuckets(mgr, unk);
    toks := [Byte(1), Byte(32), Key(key), Int(mgr.nNew), Int(mgr.nTried), Int(FlipBit30(NEW_BUCKET_COUNT))]
            + news + tried + buckets;
  }

  method SaveBuckets(mgr: Manager, unk: map<Id, nat>) returns (toks: seq<Token>)
    requires mgr.Ok() && Valid(mgr.h, mgr.State()) && Ranks(mgr.info, unk, mgr.idCount)
    ensures toks == Buckets(mgr.State(), 0)
  {
    hide Valid, Core, Holds, Bucket, Ranks, Buckets;
    ghost var m := mgr.State();
    toks := [];
    for b := 0 to NEW_BUCKET_COUNT
      invariant toks + Buckets(m, b) == Buckets(m, 0)
    {
      var one := SaveBucket(mgr, unk, b);
      BucketsNext(m, b, toks);
      toks := toks + one;
    }
    BucketsEnd(m, toks);
  }

  lemma BucketsNext(m: Man, b: nat, toks: seq<Token>)
    requires b < NEW_BUCKET_COUNT
    ensures toks + Buckets(m, b) == (toks + Bucket(m, b)) + Buckets(m, b + 1)
  {
    hide Bucket;
  }

  lemma BucketsEnd(m: Man, toks: seq<Token>)
    ensures toks + Buckets(m, NEW_BUCKET_COUNT) == toks
  {
  }

  // ----- Loading

  /** Gives an entry the next id; the object's form of `Enter`. */
  method EnterEntry(mgr: Manager, i: Info) returns (n: Id)
    requires mgr.Ok()
    modifies mgr`idCount, mgr`info, mgr`addr, mgr`random
    ensures mgr.Ok() && mgr.State() == Enter(old(mgr.State()), i) && n == old(mgr.idCount)
  {
    n := mgr.idCount;
    mgr.info := mgr.info[n := i];
    mgr.addr := mgr.addr[i.Ip() := n];
    mgr.info := mgr.info[n := mgr.info[n].(randomPos := |mgr.random|)];
    mgr.random := mgr.random + [n];
    mgr.idCount := n + 1;
  }

  method ReadNew(mgr: Manager, toks: seq<Token>, p0: nat, count: int, usable: bool) returns (ok: bool, p: nat)
    requires mgr.Ok()
    modifies mgr, mgr.vvNew
    ensures mgr.Ok()
    ensures LoadNew(mgr.h, old(mgr.State()), toks, p0, count, usable) == if ok then Some((mgr.State(), p)) else None
  {
    hide Holds, LoadNew;
    ghost var start := mgr.State();
    ok, p := true, p0;
    while mgr.idCount < count
      invariant mgr.Ok()
      invariant LoadNew(mgr.h, mgr.State(), toks, p, count, usable) == LoadNew(mgr.h, start, toks, p0, count, usable)
      decreases count - mgr.idCount
    {
      LoadNewStep(mgr.h, mgr.State(), toks, p, count, usable);
      if p >= |toks| || !toks[p].Entry? {
        return false, p;
      }
      var i := Restore(toks[p].e);
      var n := EnterEntry(mgr, i);
      if !usable {
        var s := HomeSlot(mgr.h, i);
        var id := mgr.LookNew(s);
        if id == -1 {
          mgr.SetNew(s, n);
          mgr.info := mgr.info[n := mgr.info[n].(refCount := mgr.info[n].refCount + 1)];
        }
      }
      p := p + 1;
    }
    LoadNewStep(mgr.h, mgr.State(), toks, p, count, usable);
  }

  lemma LoadNewStep(h: Hasher, m: Man, toks: seq<Token>, p: nat, count: int, usable: bool)
    ensures LoadNew(h, m, toks, p, count, usable) ==
            if m.idCount >= count then Some((m, p))
            else if p >= |toks| || !toks[p].Entry? then None
            else
              var i := Restore(toks[p].e);
              var t := Enter(m, i);
              var s := HomeSlot(h, i);
              LoadNew(h, if usable || s in t.news then t else PlaceNew(t, m.idCount, s), toks, p + 1, count, usable)
  {
  }

  method ReadTried(mgr: Manager, toks: seq<Token>, p0: nat, count: int) returns (ok: bool, p: nat, lost: nat)
    requires mgr.Ok()
    modifies mgr, mgr.vvTried
    ensures mgr.Ok()
    ensures LoadTried(mgr.h, old(mgr.State()), toks, p0, count, 0) == if ok then Some((mgr.State(), p, lost)) else None
  {
    hide Holds, LoadTried;
    ghost var start := mgr.State();
    ok, p, lost := true, p0, 0;
    var k := 0;
    while k < count
      invariant mgr.Ok() && 0 <= k
      invariant LoadTried(mgr.h, mgr.State(), toks, p, count - k, lost) == LoadTried(mgr.h, start, toks, p0, count, 0)
    {
      LoadTriedStep(mgr.h, mgr.State(), toks, p, count - k, lost);
      if p >= |toks| || !toks[p].Entry? {
        return false, p, lost;
      }
      var i := Restore(toks[p].e);
      var s := mgr.h.TriedSlot(i.addr.service);
      var id := mgr.LookTried(s);
      if id == -1 {
        ghost var before := mgr.State();
        var n := EnterEntry(mgr, i);
        mgr.info := mgr.info[n := mgr.info[n].(inTried := true)];
        mgr.SetTried(s, n);
        assert mgr.State() == Try(Enter(before, i), n, s).(nTried := before.nTried);
      } else {
        lost := lost + 1;
      }
      p, k := p + 1, k + 1;
    }
    LoadTriedStep(mgr.h, mgr.State(), toks, p, count - k, lost);
  }

  lemma LoadTriedStep(h: Hasher, m: Man, toks: seq<Token>, p: nat, left: int, lost: nat)
    ensures LoadTried(h, m, toks, p, left, lost) ==
            if left <= 0 then Some((m, p, lost))
            else if p >= |toks| || !toks[p].Entry? then None
            else
              var i := Restore(toks[p].e);
              var s := h.TriedSlot(i.addr.service);
              if s in m.tried then LoadTried(h, m, toks, p + 1, left - 1, lost + 1)
              else LoadTried(h, Try(Enter(m, i), m.idCount, s).(nTried := m.nTried), toks, p + 1, left - 1, lost)
  {
  }

  method ReadIndex(mgr: Manager, b: nat, idx: int, nNew: int, usable: bool)
    requires mgr.Ok() && (usable ==> b < NEW_BUCKET_COUNT)
    modifies mgr`info, mgr`news, mgr.vvNew
    ensures mgr.Ok() && mgr.State() == LoadIndex(mgr.h, old(mgr.State()), b, idx, nNew, usable)
  {
    hide Holds;
    if 0 <= idx < nNew && idx in mgr.info && usable {
      var n: Id := idx;
      var s := mgr.h.NewSlot(mgr.info[n].addr.service, b);
      var id := mgr.LookNew(s);
      if id == -1 && mgr.info[n].refCount < NEW_BUCKETS_PER_ADDRESS {
        mgr.info := mgr.info[n := mgr.info[n].(refCount := mgr.info[n].refCount + 1)];
        mgr.SetNew(s, n);
      }
    }
  }

  method ReadBuckets(mgr: Manager, toks: seq<Token>, p0: nat, count: int, nNew: int, usable: bool) returns (ok: bool, p: nat)
    requires mgr.Ok() && (usable ==> count <= NEW_BUCKET_COUNT)
    modifies mgr`info, mgr`news, mgr.vvNew
    ensures mgr.Ok()
    ensures LoadBuckets(mgr.h, old(mgr.State()), toks, p0, 0, count, nNew, usable) == if ok then Some((mgr.State(), p)) else None
  {
    hide Holds, LoadBuckets, LoadBucket, LoadIndex;
    ghost var start := mgr.State();
    ok, p := true, p0;
    var b := 0;
    while b < count
      invariant mgr.Ok() && 0 <= b
      invariant LoadBuckets(mgr.h, mgr.State(), toks, p, b, count, nNew, usable) ==
                LoadBuckets(mgr.h, start, toks, p0, 0, count, nNew, usable)
    {
      LoadBucketsStep(mgr.h, mgr.State(), toks, p, b, count, nNew, usable);
      if p >= |toks| || !toks[p].Int? {
        return false, p;
      }
      ok, p := ReadBucket(mgr, toks, p + 1, b, toks[p].i, nNew, usable);
      if !ok {
        return false, p;
      }
      b := b + 1;
    }
    LoadBucketsStep(mgr.h, mgr.State(), toks, p, b, count, nNew, usable);
  }

  lemma LoadBucketsStep(h: Hasher, m: Man, toks: seq<Token>, p: nat, b: nat, count: int, nNew: int, usable: bool)
    ensures LoadBuckets(h, m, toks, p, b, count, nNew, usable) ==
            if b >= count then Some((m, p))
            else if p >= |toks| || !toks[p].Int? then None
            else
              var r := LoadBucket(h, m, toks, p + 1, b, toks[p].i, nNew, usable);
              if r.None? then None else LoadBuckets(h, r.value.0, toks, r.value.1, b + 1, count, nNew, usable)
  {
  }

  method ReadBucket(mgr: Manager, toks: seq<Token>, p0: nat, b: nat, size: int, nNew: int, usable: bool) returns (ok: bool, p: nat)
    requires mgr.Ok() && (usable ==> b < NEW_BUCKET_COUNT)
    modifies mgr`info, mgr`news, mgr.vvNew
    ensures mgr.Ok()
    ensures LoadBucket(mgr.h, old(mgr.State()), toks, p0, b, size, nNew, usable) == if ok then Some((mgr.State(), p)) else None
  {
    hide Holds, LoadBucket, LoadIndex;
    ghost var start := mgr.State();
    ok, p := true, p0;
    var k := 0;
    while k < size
      invariant mgr.Ok() && 0 <= k
      invariant LoadBucket(mgr.h, mgr.State(), toks, p, b, size - k, nNew, usable) ==
                LoadBucket(mgr.h, start, toks, p0, b, size, nNew, usable)
    {
      LoadBucketStep(mgr.h, mgr.State(), toks, p, b, size - k, nNew, usable);
      if p >= |toks| || !toks[p].Int? {
        return false, p;
      }
      ReadIndex(mgr, b, toks[p].i, nNew, usable);
      p, k := p + 1, k + 1;
    }
    LoadBucketStep(mgr.h, mgr.State(), toks, p, b, size - k, nNew, usable);
  }

  lemma LoadBucketStep(h: Hasher, m: Man, toks: seq<Token>, p: nat, b: nat, left: int, nNew: int, usable: bool)
    ensures LoadBucket(h, m, toks, p, b, left, nNew, usable) ==
            if left <= 0 then Some((m, p))
            else if p >= |toks| || !toks[p].Int? then None
            else LoadBucket(h, LoadIndex(h, m, b, toks[p].i, nNew, usable), toks, p + 1, b, left - 1, nNew, usable)
  {
  }

  /** Deletes untried entries without a slot, in id order. */
  method PruneEntries(mgr: Manager) returns (ok: bool, pruned: nat)
    requires mgr.Ok()
    modifies mgr
    ensures mgr.Ok() && Prune(old(mgr.State()), 0, 0) == if ok then Some((mgr.State(), pruned)) else None
  {
    hide Holds, Delete, CanDelete, Prune;
    ghost var start := mgr.State();
    ok, pruned := true, 0;
    var n := 0;
    while n < mgr.idCount
      invariant mgr.Ok() && 0 <= n
      invariant Prune(mgr.State(), n, pruned) == Prune(start, 0, 0)
      decreases mgr.idCount - n
    {
      PruneStep(mgr.State(), n, pruned);
      if n in mgr.info && !mgr.info[n].inTried && mgr.info[n].refCount == 0 {
        var can := |mgr.random| > 0 && 0 <= mgr.info[n].randomPos < |mgr.random|
                   && mgr.random[mgr.info[n].randomPos] in mgr.info && mgr.random[|mgr.random| - 1] in mgr.info;
        CanDeleteIs(mgr.State(), n);
        if !can {
          return false, pruned;
        }
        DeleteCount(mgr.State(), n);
        mgr.DoDelete(n);
        pruned := pruned + 1;
      }
      n := n + 1;
    }
    PruneStep(mgr.State(), n, pruned);
  }

  lemma DeleteCount(m: Man, n: Id)
    requires CanDelete(m, n)
    ensures Delete(m, n).idCount == m.idCount
  {
  }

  lemma CanDeleteIs(m: Man, n: Id)
    requires n in m.info && !m.info[n].inTried && m.info[n].refCount == 0
    ensures CanDelete(m, n) <==>
            |m.random| > 0 && 0 <= m.info[n].randomPos < |m.random|
            && m.random[m.info[n].randomPos] in m.info && m.random[|m.random| - 1] in m.info
  {
  }

  lemma PruneStep(m: Man, n: nat, pruned: nat)
    ensures Prune(m, n, pruned) ==
            if n >= m.idCount then Some((m, pruned))
            else if n in m.info && !m.info[n].inTried && m.info[n].refCount == 0 then
              if CanDelete(m, n) then Prune(Delete(m, n), n + 1, pruned + 1) else None
            else Prune(m, n + 1, pruned)
  {
  }

  /** Builds a manager from a file; `ok` is false where the source throws. */
  method Load(hk: nat -> Hasher, toks: seq<Token>) returns (ok: bool, key: nat, mgr: Manager, lost: nat, pruned: nat)
    ensures mgr.Ok() && (ok ==> mgr.h == hk(key))
    ensures Unserialize(hk, toks) == if ok then Some(Loaded(key, mgr.State(), lost, pruned)) else None
  {
    ok, key, lost, pruned := false, 0, 0, 0;
    if |toks| < 6 || !toks[0].Byte? || toks[1] != Byte(32) || !toks[2].Key? || !toks[3].Int? || !toks[4].Int? || !toks[5].Int? {
      mgr := new Manager(hk(0));
      return;
    }
    hide Holds, LoadNew, LoadTried, LoadBuckets, Prune, Core;
    key := toks[2].k;
    mgr := new Manager(hk(key));
    var version, nNew, nTried, buckets := toks[0].b, toks[3].i, toks[4].i, toks[5].i;
    if version != 0 {
      buckets := FlipBit30(buckets);
    }
    if nNew > NEW_BUCKET_COUNT * BUCKET_SIZE {
      return;
    }
    if nTried > TRIED_BUCKET_COUNT * BUCKET_SIZE {
      return;
    }
    ok, lost, pruned := ReadAll(mgr, key, toks, nNew, nTried, buckets, version == 1 && buckets == NEW_BUCKET_COUNT);
  }

  method ReadAll(mgr: Manager, key: nat, toks: seq<Token>, nNew: int, nTried: int, buckets: int, usable: bool)
    returns (ok: bool, lost: nat, pruned: nat)
    requires mgr.Ok() && mgr.State() == EMPTY && (usable ==> buckets == NEW_BUCKET_COUNT)
    modifies mgr, mgr.vvNew, mgr.vvTried
    ensures mgr.Ok()
    ensures Rebuild(mgr.h, key, toks, nNew, nTried, buckets, usable) ==
            if ok then Some(Loaded(key, mgr.State(), lost, pruned)) else None
  {
    hide Holds, LoadNew, LoadTried, LoadBuckets, Prune, Core;
    lost, pruned := 0, 0;
    mgr.nNew, mgr.nTried := nNew, nTried;
    var p;
    ok, p := ReadNew(mgr, toks, 6, nNew, usable);
    if !ok {
      return;
    }
    ok, p, lost := ReadTried(mgr, toks, p, nTried);
    if !ok {
      return;
    }
    mgr.nTried := nTried - lost;
    ok, p := ReadBuckets(mgr, toks, p, buckets, nNew, usable);
    if !ok {
      return;
    }
    ok, pruned := PruneEntries(mgr);
  }

  /** Saving a consistent manager object and loading the result gives an equivalent consistent object. */
  method SaveAndLoad(hk: nat -> Hasher, mgr: Manager, key: nat) returns (again: Manager)
    requires mgr.Ok() && mgr.h == hk(key) && Valid(mgr.h, mgr.State())
    ensures again.Ok() && again.h == mgr.h && Valid(again.h, again.State())
    ensures SameTables(mgr.State(), again.State())
    ensures again.nNew == mgr.nNew && again.nTried == mgr.nTried
  {
    hide Core, Holds, SameTables, Serialize, Unserialize;
    var toks := Save(mgr, key);
    SavedIsRestored(hk, mgr.State(), key);
    var ok, key', lost, pruned;
    ok, key', again, lost, pruned := Load(hk, toks);
  }
}
