/** Loading what was saved: nothing is lost, and every slot holds the address it held. */
module AddrManRoundTrip {
  import opened Options
  import opened AddrMan
  import opened AddrManRuns
  import opened AddrManFile

  // ----- The two lists of ids

  ghost predicate Increasing(s: seq<Id>) {
    forall j, k :: 0 <= j < k < |s| ==> s[j] < s[k]
  }

  lemma {:induction false} NewListFacts(info: map<Id, Info>, lo: nat, hi: nat)
    requires lo <= hi
    ensures Increasing(NewList(info, lo, hi))
    ensures forall n :: lo <= n < hi && n in info && info[n].refCount != 0 ==> n in NewList(info, lo, hi)
    ensures forall k :: 0 <= k < |NewList(info, lo, hi)| ==> lo <= NewList(info, lo, hi)[k] < hi
    decreases hi - lo
  {
    if lo < hi {
      NewListFacts(info, lo + 1, hi);
    }
  }

  lemma {:induction false} TriedListFacts(info: map<Id, Info>, lo: nat, hi: nat)
    requires lo <= hi
    ensures Increasing(TriedList(info, lo, hi))
    ensures forall n :: lo <= n < hi && n in info && info[n].inTried ==> n in TriedList(info, lo, hi)
    ensures forall k :: 0 <= k < |TriedList(info, lo, hi)| ==> lo <= TriedList(info, lo, hi)[k] < hi
    decreases hi - lo
  {
    if lo < hi {
      TriedListFacts(info, lo + 1, hi);
    }
  }

  lemma {:induction false} NewListSplit(info: map<Id, Info>, lo: nat, mid: nat, hi: nat)
    requires lo <= mid <= hi
    ensures NewList(info, lo, hi) == NewList(info, lo, mid) + NewList(info, mid, hi)
    decreases mid - lo
  {
    if lo < mid {
      NewListSplit(info, lo + 1, mid, hi);
    }
  }

  /** An entry's rank is its place in the list of entries with references. */
  lemma RankIsPlace(info: map<Id, Info>, n: Id, hi: nat)
    requires n < hi && n in info && info[n].refCount != 0
    ensures Rank(info, n) < |NewList(info, 0, hi)| && NewList(info, 0, hi)[Rank(info, n)] == n
  {
    NewListSplit(info, 0, n, hi);
    assert NewList(info, n, hi)[0] == n;
  }

  ghost function SetOf(s: seq<Id>): set<Id> {
    set n | n in s
  }

  lemma {:induction false} SetOfSize(s: seq<Id>)
    requires Increasing(s)
    ensures |SetOf(s)| == |s|
  {
    if s != [] {
      var k := |s| - 1;
      SetOfSize(s[..k]);
      SetOfSnoc(s[..k], s[k]);
      assert s == s[..k] + [s[k]];
    }
  }

  lemma SetOfSnoc(s: seq<Id>, x: Id)
    requires forall j :: 0 <= j < |s| ==> s[j] < x
    ensures |SetOf(s + [x])| == |SetOf(s)| + 1
  {
    assert SetOf(s + [x]) == SetOf(s) + {x};
    assert x !in s;
  }

  /** What the file's two lists are, for a consistent manager. */
  ghost predicate Lists(h: Hasher, m: Man, ns: seq<Id>, ts: seq<Id>) {
    && Valid(h, m)
    && ns == NewList(m.info, 0, m.idCount) && ts == TriedList(m.info, 0, m.idCount)
  }

  lemma ListsFacts(h: Hasher, m: Man, ns: seq<Id>, ts: seq<Id>)
    requires Lists(h, m, ns, ts)
    ensures Increasing(ns) && Increasing(ts)
    ensures forall k :: 0 <= k < |ns| ==> ns[k] in m.info && !m.info[ns[k]].inTried
    ensures forall k :: 0 <= k < |ts| ==> ts[k] in m.info && m.info[ts[k]].inTried
    ensures m.nNew == |ns| && m.nTried == |ts|
  {
    NewListFacts(m.info, 0, m.idCount);
    TriedListFacts(m.info, 0, m.idCount);
    ListFacts(m.info, 0, m.idCount);
    ListsSets(h, m, ns, ts);
    hide NewList, TriedList;
    SetOfSize(ns);
    SetOfSize(ts);
    forall k | 0 <= k < |ns| ensures !m.info[ns[k]].inTried {
      RefAt(h, m, ns[k]);
    }
  }

  lemma RefAt(h: Hasher, m: Man, n: Id)
    requires Valid(h, m) && n in m.info
    ensures m.info[n].inTried <==> m.info[n].refCount == 0
    ensures m.info[n].refCount == |Slots(m.news, n)| <= NEW_BUCKETS_PER_ADDRESS && n < m.idCount
  {
    assert RefOk(m.info, m.news, {}) && IdsOk(m.info, m.idCount);
  }

  lemma ListsSets(h: Hasher, m: Man, ns: seq<Id>, ts: seq<Id>)
    requires Lists(h, m, ns, ts)
    ensures SetOf(ns) == NewIds(m.info) && SetOf(ts) == TriedIds(m.info)
    ensures m.nNew == |NewIds(m.info)| && m.nTried == |TriedIds(m.info)|
  {
    hide NewList, TriedList, Core;
    NewListFacts(m.info, 0, m.idCount);
    TriedListFacts(m.info, 0, m.idCount);
    ListFacts(m.info, 0, m.idCount);
    ValidCounts(h, m);
    forall n | n in m.info ensures (m.info[n].inTried <==> m.info[n].refCount == 0) && n < m.idCount {
      RefAt(h, m, n);
    }
    SameSet(ns, NewIds(m.info));
    SameSet(ts, TriedIds(m.info));
  }

  lemma SameSet(s: seq<Id>, t: set<Id>)
    requires forall k :: 0 <= k < |s| ==> s[k] in t
    requires forall n :: n in t ==> n in s
    ensures SetOf(s) == t
  {
  }

  lemma ValidCounts(h: Hasher, m: Man)
    requires Valid(h, m)
    ensures CountsOk(m.info, m.nTried, m.nNew, 0)
  {
    hide RandomOk, AddrOk, TriedOk, NewOk, RefOk, StatsOk, CountsOk, IdsOk;
  }

  // ----- Pigeonhole: the size limits never reject a consistent manager

  ghost function AllSlots(buckets: nat): set<Slot> {
    set b, p | 0 <= b < buckets && 0 <= p < BUCKET_SIZE :: Slot(b, p)
  }

  ghost function Row(b: nat, q: nat): set<Slot> {
    set p | 0 <= p < q :: Slot(b, p)
  }

  lemma {:induction false} RowSize(b: nat, q: nat)
    ensures |Row(b, q)| == q
  {
    if q > 0 {
      RowSize(b, q - 1);
      assert Row(b, q) == Row(b, q - 1) + {Slot(b, q - 1)};
    } else {
      assert Row(b, 0) == {};
    }
  }

  lemma {:induction false} AllSlotsSize(buckets: nat)
    ensures |AllSlots(buckets)| == buckets * BUCKET_SIZE
  {
    if buckets > 0 {
      AllSlotsSize(buckets - 1);
      var row := Row(buckets - 1, BUCKET_SIZE);
      RowSize(buckets - 1, BUCKET_SIZE);
      assert AllSlots(buckets) == AllSlots(buckets - 1) + row;
      assert AllSlots(buckets - 1) !! row;
    } else {
      assert AllSlots(0) == {};
    }
  }

  /** Entries placed at distinct slots are no more than the slots. */
  lemma {:induction false} NoMoreThanSlots(ids: set<Id>, place: map<Slot, Id>, slots: set<Slot>)
    requires forall n :: n in ids ==> exists s :: s in slots && s in place && place[s] == n
    ensures |ids| <= |slots|
    decreases |ids|
  {
    if ids != {} {
      var n :| n in ids;
      var s :| s in slots && s in place && place[s] == n;
      forall k | k in ids - {n} ensures exists t :: t in slots - {s} && t in place && place[t] == k {
        var t :| t in slots && t in place && place[t] == k;
        assert t in slots - {s};
      }
      NoMoreThanSlots(ids - {n}, place, slots - {s});
    }
  }

  lemma WithinLimits(h: Hasher, m: Man)
    requires Valid(h, m)
    ensures m.nNew <= NEW_BUCKET_COUNT * BUCKET_SIZE && m.nTried <= TRIED_BUCKET_COUNT * BUCKET_SIZE
  {
    ValidCounts(h, m);
    AllSlotsSize(NEW_BUCKET_COUNT);
    AllSlotsSize(TRIED_BUCKET_COUNT);
    hide Core;
    forall n | n in NewIds(m.info) ensures exists s :: s in AllSlots(NEW_BUCKET_COUNT) && s in m.news && m.news[s] == n {
      NewHasSlot(h, m, n);
    }
    NoMoreThanSlots(NewIds(m.info), m.news, AllSlots(NEW_BUCKET_COUNT));
    forall n | n in TriedIds(m.info) ensures exists s :: s in AllSlots(TRIED_BUCKET_COUNT) && s in m.tried && m.tried[s] == n {
      TriedHasSlot(h, m, n);
    }
    NoMoreThanSlots(TriedIds(m.info), m.tried, AllSlots(TRIED_BUCKET_COUNT));
  }

  lemma NewHasSlot(h: Hasher, m: Man, n: Id)
    requires Valid(h, m) && n in NewIds(m.info)
    ensures exists s :: s in AllSlots(NEW_BUCKET_COUNT) && s in m.news && m.news[s] == n
  {
    RefAt(h, m, n);
    var s :| s in Slots(m.news, n);
    assert NewOk(h, m.info, m.news);
    NewIn(h, m.info, m.news, s);
    assert s in AllSlots(NEW_BUCKET_COUNT);
  }

  lemma TriedHasSlot(h: Hasher, m: Man, n: Id)
    requires Valid(h, m) && n in TriedIds(m.info)
    ensures exists s :: s in AllSlots(TRIED_BUCKET_COUNT) && s in m.tried && m.tried[s] == n
  {
    var s := h.TriedSlot(m.info[n].addr.service);
    assert TriedOk(h, m.info, m.tried);
    assert s in AllSlots(TRIED_BUCKET_COUNT);
  }

  // ----- Loading the entries

  ghost function Below(k: nat): (s: set<Id>)
    ensures forall i :: i in s <==> 0 <= i < k
  {
    if k == 0 then {} else Below(k - 1) + {k - 1}
  }

  /** The entry of the saved manager that loaded entry `i` came from, with `a` new entries loaded. */
  ghost function Origin(ns: seq<Id>, ts: seq<Id>, a: nat, i: nat): Id
    requires a <= |ns| && i < a + |ts|
  {
    if i < a then ns[i] else ts[i - a]
  }

  /** `u` holds copies of the first `a` new and the first `b` tried entries, in file order. */
  ghost predicate Copied(m: Man, ns: seq<Id>, ts: seq<Id>, u: Man, a: nat, b: nat) {
    && a <= |ns| && b <= |ts| && u.idCount == a + b
    && (forall i :: i in u.info <==> 0 <= i < a + b)
    && (forall i :: 0 <= i < a + b ==> CopyOf(m, ns, ts, u, a, i))
  }

  ghost predicate CopyOf(m: Man, ns: seq<Id>, ts: seq<Id>, u: Man, a: nat, i: nat)
    requires a <= |ns| && i < a + |ts|
  {
    var x := Origin(ns, ts, a, i);
    i in u.info && x in m.info && Store(u.info[i]) == Store(m.info[x]) && (u.info[i].inTried <==> i >= a)
  }

  /** The tables being rebuilt agree with each other, counting what has been loaded. */
  ghost predicate Growing(h: Hasher, u: Man, a: nat, b: nat, limbo: set<Id>) {
    Core(h, u.(nNew := a, nTried := b), limbo, 0)
  }

  lemma Origins(h: Hasher, m: Man, ns: seq<Id>, ts: seq<Id>, a: nat, i: nat, j: nat)
    requires Lists(h, m, ns, ts) && a <= |ns| && i < a + |ts| && j < a + |ts| && i != j
    ensures Origin(ns, ts, a, i) != Origin(ns, ts, a, j)
    ensures Origin(ns, ts, a, i) in m.info && Origin(ns, ts, a, j) in m.info
  {
    ListsFacts(h, m, ns, ts);
    hide Core;
  }

  /** An address not loaded yet is not in the index yet. */
  lemma NextIpIsFree(h: Hasher, m: Man, ns: seq<Id>, ts: seq<Id>, u: Man, a: nat, b: nat, x: Id)
    requires Lists(h, m, ns, ts) && Copied(m, ns, ts, u, a, b) && AddrOk(u.info, u.addr) && x in m.info
    requires forall i :: 0 <= i < a + b ==> Origin(ns, ts, a, i) != x
    ensures m.info[x].Ip() !in u.addr
  {
    CoreAddr(h, m);
    hide Core;
    assert m.addr[m.info[x].Ip()] == x;
    forall y | y in u.addr ensures y in m.addr && m.addr[y] != x {
      var i := u.addr[y];
      assert CopyOf(m, ns, ts, u, a, i);
      assert m.addr[m.info[Origin(ns, ts, a, i)].Ip()] == Origin(ns, ts, a, i);
    }
  }

  lemma GrowingAddr(h: Hasher, u: Man, a: nat, b: nat, limbo: set<Id>)
    requires Growing(h, u, a, b, limbo)
    ensures AddrOk(u.info, u.addr)
  {
    hide RandomOk, AddrOk, TriedOk, NewOk, RefOk, StatsOk, CountsOk, IdsOk;
  }

  lemma EnterCopied(m: Man, ns: seq<Id>, ts: seq<Id>, u: Man, a: nat, x: Id)
    requires Copied(m, ns, ts, u, a, 0) && a < |ns| && ns[a] == x && x in m.info
    ensures Copied(m, ns, ts, Enter(u, Restore(Store(m.info[x]))), a + 1, 0)
  {
    var t := Enter(u, Restore(Store(m.info[x])));
    var a' := a + 1;
    forall i | 0 <= i < a' ensures CopyOf(m, ns, ts, t, a', i) {
      if i < a {
        assert CopyOf(m, ns, ts, u, a, i);
      }
    }
  }

  lemma EnterOne(h: Hasher, m: Man, ns: seq<Id>, ts: seq<Id>, u: Man)
    requires Lists(h, m, ns, ts) && u.idCount < |ns| && Copied(m, ns, ts, u, u.idCount, 0)
    requires Growing(h, u, u.idCount, 0, Below(u.idCount))
    ensures var a := u.idCount;
            && ns[a] in m.info
            && var t := Enter(u, Restore(Store(m.info[ns[a]])));
            && Copied(m, ns, ts, t, a + 1, 0) && Growing(h, t, a + 1, 0, Below(a + 1))
  {
    hide Core, Copied, Store, NewList, TriedList;
    var a := u.idCount;
    ListsFacts(h, m, ns, ts);
    var x := ns[a];
    var i := Restore(Store(m.info[x]));
    forall j | 0 <= j < a ensures Origin(ns, ts, a, j) != x {
    }
    GrowingAddr(h, u, a, 0, Below(a));
    NextIpIsFree(h, m, ns, ts, u, a, 0, x);
    StatsAt(h, m, x);
    assert i.Ip() == m.info[x].Ip() && i.lastSuccess == m.info[x].lastSuccess by { RestoreFacts(m.info[x]); }
    EnterKeeps(h, u.(nNew := a, nTried := 0), i, Below(a), 0);
    assert Below(a) + {a} == Below(a + 1);
    EnterCopied(m, ns, ts, u, a, x);
  }

  lemma RestoreFacts(i: Info)
    ensures var r := Restore(Store(i));
            r.Ip() == i.Ip() && r.addr == i.addr && r.lastSuccess == i.lastSuccess
  {
  }

  /** The tokens from `p` on are the entries `ids[k..]` of `m`. */
  ghost predicate EntriesAt(m: Man, ids: seq<Id>, toks: seq<Token>, p: nat, k: nat) {
    k <= |ids| && p + |ids| - k <= |toks| &&
    forall i :: k <= i < |ids| ==> ids[i] in m.info && toks[p + i - k] == Entry(Store(m.info[ids[i]]))
  }

  lemma EntriesNext(m: Man, ids: seq<Id>, toks: seq<Token>, p: nat, k: nat)
    requires EntriesAt(m, ids, toks, p, k) && k < |ids|
    ensures ids[k] in m.info && toks[p] == Entry(Store(m.info[ids[k]])) && EntriesAt(m, ids, toks, p + 1, k + 1)
  {
    assert toks[p + k - k] == Entry(Store(m.info[ids[k]]));
    forall i | k + 1 <= i < |ids| ensures ids[i] in m.info && toks[p + 1 + i - (k + 1)] == Entry(Store(m.info[ids[i]])) {
      assert toks[p + i - k] == Entry(Store(m.info[ids[i]]));
    }
  }

  lemma {:induction false} LoadNewAll(h: Hasher, m: Man, ns: seq<Id>, ts: seq<Id>, u: Man, toks: seq<Token>, p: nat)
    returns (r: Man)
    requires Lists(h, m, ns, ts) && u.idCount <= |ns| && Copied(m, ns, ts, u, u.idCount, 0)
    requires Growing(h, u, u.idCount, 0, Below(u.idCount)) && u.news == map[] && u.tried == map[]
    requires EntriesAt(m, ns, toks, p, u.idCount)
    ensures LoadNew(h, u, toks, p, |ns|, true) == Some((r, p + |ns| - u.idCount))
    ensures Copied(m, ns, ts, r, |ns|, 0) && Growing(h, r, |ns|, 0, Below(|ns|))
    ensures r.news == map[] && r.tried == map[] && r.nNew == u.nNew && r.nTried == u.nTried && r.lastGood == u.lastGood
    decreases |ns| - u.idCount
  {
    hide Core, Copied, Growing, Store, EntriesAt;
    var a := u.idCount;
    if a == |ns| {
      r := u;
    } else {
      EntriesNext(m, ns, toks, p, a);
      EnterOne(h, m, ns, ts, u);
      r := LoadNewAll(h, m, ns, ts, Enter(u, Restore(Store(m.info[ns[a]]))), toks, p + 1);
    }
  }

  // ----- Loading the tried table

  function EnterTried(h: Hasher, u: Man, i: Info): Man {
    Try(Enter(u, i), u.idCount, h.TriedSlot(i.addr.service)).(nTried := u.nTried)
  }

  lemma EnterTriedCopied(h: Hasher, m: Man, ns: seq<Id>, ts: seq<Id>, u: Man, b: nat, x: Id)
    requires Copied(m, ns, ts, u, |ns|, b) && b < |ts| && ts[b] == x && x in m.info
    ensures Copied(m, ns, ts, EnterTried(h, u, Restore(Store(m.info[x]))), |ns|, b + 1)
  {
    var t := EnterTried(h, u, Restore(Store(m.info[x])));
    var a := |ns|;
    forall i | 0 <= i < a + (b + 1) ensures CopyOf(m, ns, ts, t, a, i) {
      if i < a + b {
        assert CopyOf(m, ns, ts, u, a, i);
      }
    }
  }

  /** Two entries of one tried slot are one entry, so the next entry's slot is free. */
  lemma NextSlotIsFree(h: Hasher, m: Man, ns: seq<Id>, ts: seq<Id>, u: Man, b: nat, x: Id)
    requires Lists(h, m, ns, ts) && Copied(m, ns, ts, u, |ns|, b) && TriedOk(h, u.info, u.tried)
    requires x in m.info && m.info[x].inTried && forall i :: 0 <= i < b ==> ts[i] != x
    ensures h.TriedSlot(m.info[x].addr.service) !in u.tried
  {
    var a := |ns|;
    ValidTried(h, m);
    ListsFacts(h, m, ns, ts);
    hide Core, NewList, TriedList;
    assert m.tried[h.TriedSlot(m.info[x].addr.service)] == x;
    forall s | s in u.tried ensures s in m.tried && m.tried[s] != x {
      var i := u.tried[s];
      TriedIn(h, u.info, u.tried, s);
      assert CopyOf(m, ns, ts, u, a, i);
      assert m.info[ts[i - a]].inTried;
    }
  }

  lemma ValidTried(h: Hasher, m: Man)
    requires Valid(h, m)
    ensures TriedOk(h, m.info, m.tried)
  {
    hide RandomOk, AddrOk, TriedOk, NewOk, RefOk, StatsOk, CountsOk, IdsOk;
  }

  lemma GrowingTried(h: Hasher, u: Man, a: nat, b: nat, limbo: set<Id>)
    requires Growing(h, u, a, b, limbo)
    ensures TriedOk(h, u.info, u.tried)
  {
    hide RandomOk, AddrOk, TriedOk, NewOk, RefOk, StatsOk, CountsOk, IdsOk;
  }

  lemma Uncount(h: Hasher, m: Man, limbo: set<Id>, debt: nat)
    requires Core(h, m, limbo, debt)
    ensures Core(h, m.(nNew := m.nNew - 1), limbo, debt + 1)
  {
    hide RandomOk, AddrOk, TriedOk, NewOk, RefOk, StatsOk, IdsOk, TriedIds, NewIds;
  }

  lemma EnterTriedGrows(h: Hasher, u: Man, i: Info, a: nat, b: nat)
    requires Growing(h, u, a, b, Below(a)) && u.idCount == a + b && i.Ip() !in u.addr
    requires i.refCount == 0 && !i.inTried && i.lastTry >= 0 && i.lastSuccess > 0
    requires h.TriedSlot(i.addr.service) !in u.tried
    ensures Growing(h, EnterTried(h, u, i), a, b + 1, Below(a))
  {
    hide Core;
    var v := u.(nNew := a, nTried := b);
    EnterKeeps(h, v, i, Below(a), 0);
    var w := Enter(v, i).(nNew := a + 1);
    Uncount(h, w, Below(a) + {a + b}, 0);
    TryKeeps(h, w.(nNew := a), a + b, h.TriedSlot(i.addr.service), Below(a) + {a + b}, 1);
    assert Below(a) + {a + b} - {a + b} == Below(a);
  }

  lemma TriedOne(h: Hasher, m: Man, ns: seq<Id>, ts: seq<Id>, u: Man, b: nat)
    requires Lists(h, m, ns, ts) && b < |ts| && Copied(m, ns, ts, u, |ns|, b)
    requires Growing(h, u, |ns|, b, Below(|ns|))
    ensures ts[b] in m.info
    ensures var i := Restore(Store(m.info[ts[b]]));
            && h.TriedSlot(i.addr.service) !in u.tried
            && Copied(m, ns, ts, EnterTried(h, u, i), |ns|, b + 1)
            && Growing(h, EnterTried(h, u, i), |ns|, b + 1, Below(|ns|))
  {
    hide Core, Growing, Store, NewList, TriedList, EnterTried;
    ListsFacts(h, m, ns, ts);
    var a, x := |ns|, ts[b];
    var i := Restore(Store(m.info[x]));
    RestoreFacts(m.info[x]);
    StatsAt(h, m, x);
    GrowingAddr(h, u, a, b, Below(a));
    GrowingTried(h, u, a, b, Below(a));
    forall j | 0 <= j < a + b ensures Origin(ns, ts, a, j) != x {
      Origins(h, m, ns, ts, a, j, a + b);
    }
    NextIpIsFree(h, m, ns, ts, u, a, b, x);
    NextSlotIsFree(h, m, ns, ts, u, b, x);
    EnterTriedCopied(h, m, ns, ts, u, b, x);
    EnterTriedGrows(h, u, i, a, b);
  }

  lemma {:induction false} LoadTriedAll(h: Hasher, m: Man, ns: seq<Id>, ts: seq<Id>, u: Man, b: nat, toks: seq<Token>, p: nat)
    returns (r: Man)
    requires Lists(h, m, ns, ts) && b <= |ts| && Copied(m, ns, ts, u, |ns|, b)
    requires Growing(h, u, |ns|, b, Below(|ns|)) && u.news == map[]
    requires EntriesAt(m, ts, toks, p, b)
    ensures LoadTried(h, u, toks, p, |ts| - b, 0) == Some((r, p + |ts| - b, 0))
    ensures Copied(m, ns, ts, r, |ns|, |ts|) && Growing(h, r, |ns|, |ts|, Below(|ns|))
    ensures r.news == map[] && r.nNew == u.nNew && r.nTried == u.nTried && r.lastGood == u.lastGood
    decreases |ts| - b
  {
    hide Core, Copied, Growing, Store, EntriesAt;
    if b == |ts| {
      r := u;
    } else {
      EntriesNext(m, ts, toks, p, b);
      TriedOne(h, m, ns, ts, u, b);
      r := LoadTriedAll(h, m, ns, ts, EnterTried(h, u, Restore(Store(m.info[ts[b]]))), b + 1, toks, p + 1);
    }
  }

  // ----- Loading the positions of the new table

  /** Slots the file lists before position `q` of bucket `b`. */
  predicate Before(s: Slot, b: nat, q: nat) {
    s.bucket < b || (s.bucket == b && s.pos < q)
  }

  /** The new table so far: the saved one up to (`b`, `q`), with ids renumbered. */
  ghost predicate Placed(m: Man, ns: seq<Id>, u: Man, b: nat, q: nat) {
    && (forall s :: s in u.news <==> s in m.news && Before(s, b, q))
    && (forall s :: s in u.news ==> u.news[s] < |ns| && ns[u.news[s]] == m.news[s])
  }

  /** New entries without a slot so far. */
  ghost function Idle(u: Man, a: nat): set<Id> {
    set i | i in Below(a) && i in u.info && u.info[i].refCount == 0
  }

  /** Everything known while positions are being loaded. */
  ghost predicate Filling(h: Hasher, m: Man, ns: seq<Id>, ts: seq<Id>, u: Man, b: nat, q: nat) {
    && Copied(m, ns, ts, u, |ns|, |ts|)
    && Growing(h, u, |ns|, |ts|, Idle(u, |ns|))
    && Placed(m, ns, u, b, q)
  }

  lemma FillingStart(h: Hasher, m: Man, ns: seq<Id>, ts: seq<Id>, u: Man)
    requires Copied(m, ns, ts, u, |ns|, |ts|) && Growing(h, u, |ns|, |ts|, Below(|ns|)) && u.news == map[]
    ensures Filling(h, m, ns, ts, u, 0, 0)
  {
    hide Core;
    forall i | i in Below(|ns|) ensures i in u.info && u.info[i].refCount == 0 {
      LimboFacts(h, u.(nNew := |ns|, nTried := |ts|), i, Below(|ns|), 0);
    }
    assert Idle(u, |ns|) == Below(|ns|);
  }

  lemma GrowingRefs(h: Hasher, u: Man, a: nat, b: nat, limbo: set<Id>, i: Id)
    requires Growing(h, u, a, b, limbo) && i in u.info
    ensures u.info[i].refCount == |Slots(u.news, i)|
  {
    assert RefOk(u.info, u.news, limbo);
  }

  lemma SubsetSmaller(a: set<Slot>, b: set<Slot>, s: Slot)
    requires a <= b && s in b && s !in a
    ensures |a| < |b|
  {
    assert a <= b - {s};
    SubsetSize(a, b - {s});
  }

  lemma {:induction false} SubsetSize(a: set<Slot>, b: set<Slot>)
    requires a <= b
    ensures |a| <= |b|
    decreases |a|
  {
    if a != {} {
      var s :| s in a;
      SubsetSize(a - {s}, b - {s});
    }
  }

  /** The slot about to be filled is not counted yet, so the entry has room for one more reference. */
  lemma RoomForOne(h: Hasher, m: Man, ns: seq<Id>, ts: seq<Id>, u: Man, s: Slot, idx: Id, b: nat, q: nat)
    requires Lists(h, m, ns, ts) && Filling(h, m, ns, ts, u, b, q)
    requires s in m.news && s !in u.news && idx < |ns| && ns[idx] == m.news[s] && idx in u.info
    ensures u.info[idx].refCount < NEW_BUCKETS_PER_ADDRESS
  {
    ListsFacts(h, m, ns, ts);
    RefAt(h, m, ns[idx]);
    GrowingRefs(h, u, |ns|, |ts|, Idle(u, |ns|), idx);
    hide Core, Copied, Growing, NewList, TriedList;
    assert Slots(u.news, idx) <= Slots(m.news, ns[idx]);
    SubsetSmaller(Slots(u.news, idx), Slots(m.news, ns[idx]), s);
  }

  lemma PlaceCopied(m: Man, ns: seq<Id>, ts: seq<Id>, u: Man, idx: Id, s: Slot)
    requires Copied(m, ns, ts, u, |ns|, |ts|) && idx in u.info
    ensures Copied(m, ns, ts, PlaceNew(u, idx, s), |ns|, |ts|)
  {
    var t, a, b := PlaceNew(u, idx, s), |ns|, |ts|;
    forall i | 0 <= i < a + b ensures CopyOf(m, ns, ts, t, a, i) {
      assert CopyOf(m, ns, ts, u, a, i);
    }
  }

  lemma PlaceGrows(h: Hasher, u: Man, idx: Id, s: Slot, a: nat, b: nat)
    requires Growing(h, u, a, b, Idle(u, a)) && idx in u.info && idx < a && s !in u.news && !u.info[idx].inTried
    requires 0 <= u.info[idx].refCount < NEW_BUCKETS_PER_ADDRESS
    requires s.bucket < NEW_BUCKET_COUNT && h.NewSlot(u.info[idx].addr.service, s.bucket) == s
    ensures Growing(h, PlaceNew(u, idx, s), a, b, Idle(PlaceNew(u, idx, s), a))
  {
    hide Core;
    PlaceKeeps(h, u.(nNew := a, nTried := b), idx, s, Idle(u, a), 0);
    assert Idle(PlaceNew(u, idx, s), a) == Idle(u, a) - {idx};
  }

  lemma PlacePlaced(m: Man, ns: seq<Id>, u: Man, idx: Id, b: nat, q: nat)
    requires Placed(m, ns, u, b, q) && idx in u.info && Slot(b, q) in m.news
    requires idx < |ns| && ns[idx] == m.news[Slot(b, q)]
    ensures Placed(m, ns, PlaceNew(u, idx, Slot(b, q)), b, q + 1)
  {
  }

  lemma SkipPlaced(m: Man, ns: seq<Id>, u: Man, b: nat, q: nat)
    requires Placed(m, ns, u, b, q) && Slot(b, q) !in m.news
    ensures Placed(m, ns, u, b, q + 1)
  {
    forall s ensures s in m.news ==> (Before(s, b, q) <==> Before(s, b, q + 1)) {
      assert s.bucket == b && s.pos == q ==> s == Slot(b, q);
    }
  }

  /** Reading one index puts the entry back into the slot it had. */
  lemma LoadOneIndex(h: Hasher, m: Man, ns: seq<Id>, ts: seq<Id>, u: Man, b: nat, q: nat)
    requires Lists(h, m, ns, ts) && Filling(h, m, ns, ts, u, b, q) && Slot(b, q) in m.news
    ensures Filling(h, m, ns, ts, LoadIndex(h, u, b, Rank(m.info, m.news[Slot(b, q)]), |ns|, true), b, q + 1)
    ensures var r := LoadIndex(h, u, b, Rank(m.info, m.news[Slot(b, q)]), |ns|, true);
            r.nNew == u.nNew && r.nTried == u.nTried && r.lastGood == u.lastGood
  {
    hide Core, NewOk, NewList, TriedList, Rank, Growing, Copied, Placed, Lists;
    IndexFacts(h, m, ns, ts, u, b, q);
    var s := Slot(b, q);
    var idx, a := Rank(m.info, m.news[s]), |ns|;
    RoomForOne(h, m, ns, ts, u, s, idx, b, q);
    GrowingRefs(h, u, a, |ts|, Idle(u, a), idx);
    PlaceCopied(m, ns, ts, u, idx, s);
    PlaceGrows(h, u, idx, s, a, |ts|);
    PlacePlaced(m, ns, u, idx, b, q);
  }

  /** The number read names the copy of the slot's entry, and the copy hashes to the same slot. */
  lemma IndexFacts(h: Hasher, m: Man, ns: seq<Id>, ts: seq<Id>, u: Man, b: nat, q: nat)
    requires Lists(h, m, ns, ts) && Copied(m, ns, ts, u, |ns|, |ts|) && Placed(m, ns, u, b, q) && Slot(b, q) in m.news
    ensures var s := Slot(b, q);
            var idx := Rank(m.info, m.news[s]);
            && idx < |ns| && ns[idx] == m.news[s] && idx in u.info && !u.info[idx].inTried && s !in u.news
            && b < NEW_BUCKET_COUNT && h.NewSlot(u.info[idx].addr.service, b) == s
  {
    hide Core, NewList, TriedList, Rank;
    var s := Slot(b, q);
    var x := m.news[s];
    ValidNewOk(h, m);
    NewIn(h, m.info, m.news, s);
    RefAt(h, m, x);
    RankIsPlace(m.info, x, m.idCount);
    var idx, a := Rank(m.info, x), |ns|;
    assert CopyOf(m, ns, ts, u, a, idx);
  }

  lemma ValidNewOk(h: Hasher, m: Man)
    requires Valid(h, m)
    ensures NewOk(h, m.info, m.news)
  {
    hide RandomOk, AddrOk, TriedOk, NewOk, RefOk, StatsOk, CountsOk, IdsOk;
  }

  /** The tokens from `p` on are the numbers of `ids`. */
  ghost predicate IndicesAt(m: Man, ids: seq<Id>, toks: seq<Token>, p: nat) {
    p + |ids| <= |toks| && forall k :: 0 <= k < |ids| ==> toks[p + k] == Int(Rank(m.info, ids[k]))
  }

  lemma IndicesNext(m: Man, ids: seq<Id>, toks: seq<Token>, p: nat, rest: seq<Id>)
    requires IndicesAt(m, ids, toks, p) && ids != [] && rest == ids[1..]
    ensures toks[p] == Int(Rank(m.info, ids[0])) && IndicesAt(m, rest, toks, p + 1)
  {
    assert toks[p + 0] == Int(Rank(m.info, ids[0]));
    forall k | 0 <= k < |rest| ensures toks[p + 1 + k] == Int(Rank(m.info, rest[k])) {
      assert toks[p + (k + 1)] == Int(Rank(m.info, ids[k + 1]));
    }
  }

  lemma {:induction false} LoadBucketAll(h: Hasher, m: Man, ns: seq<Id>, ts: seq<Id>, u: Man, b: nat, q: nat,
                                         toks: seq<Token>, p: nat)
    returns (r: Man)
    requires Lists(h, m, ns, ts) && q <= BUCKET_SIZE && Filling(h, m, ns, ts, u, b, q)
    requires IndicesAt(m, BucketIds(m.news, b, q), toks, p)
    ensures LoadBucket(h, u, toks, p, b, |BucketIds(m.news, b, q)|, |ns|, true) == Some((r, p + |BucketIds(m.news, b, q)|))
    ensures Filling(h, m, ns, ts, r, b, BUCKET_SIZE)
    ensures r.nNew == u.nNew && r.nTried == u.nTried && r.lastGood == u.lastGood
    decreases BUCKET_SIZE - q
  {
    hide Core, Lists, Copied, Growing, Placed, Rank, IndicesAt, LoadIndex;
    var ids := BucketIds(m.news, b, q);
    if q == BUCKET_SIZE {
      r := u;
    } else if Slot(b, q) in m.news {
      var rest := BucketIds(m.news, b, q + 1);
      assert ids[1..] == rest;
      IndicesNext(m, ids, toks, p, rest);
      LoadOneIndex(h, m, ns, ts, u, b, q);
      r := LoadBucketAll(h, m, ns, ts, LoadIndex(h, u, b, Rank(m.info, ids[0]), |ns|, true), b, q + 1, toks, p + 1);
    } else {
      SkipPlaced(m, ns, u, b, q);
      assert ids == BucketIds(m.news, b, q + 1);
      r := LoadBucketAll(h, m, ns, ts, u, b, q + 1, toks, p);
    }
  }

  lemma NextBucket(h: Hasher, m: Man, ns: seq<Id>, ts: seq<Id>, u: Man, b: nat)
    requires Valid(h, m) && Placed(m, ns, u, b, BUCKET_SIZE)
    ensures Placed(m, ns, u, b + 1, 0)
  {
    hide Valid, Core;
    ValidNewOk(h, m);
    forall s | s in m.news ensures Before(s, b, BUCKET_SIZE) <==> Before(s, b + 1, 0) {
      NewIn(h, m.info, m.news, s);
    }
  }

  lemma BucketTokens(m: Man, toks: seq<Token>, p: nat, b: nat)
    requires b < NEW_BUCKET_COUNT && p <= |toks| && toks[p..] == Buckets(m, b)
    ensures var ids := BucketIds(m.news, b, 0);
            && p < |toks| && toks[p] == Int(|ids|) && IndicesAt(m, ids, toks, p + 1)
            && toks[p + 1 + |ids|..] == Buckets(m, b + 1)
  {
    hide BucketIds, Rank;
    var ids := BucketIds(m.news, b, 0);
    SuffixParts(toks, p, Int(|ids|), Indices(m.info, ids), Buckets(m, b + 1));
  }

  lemma {:induction false} LoadBucketsAll(h: Hasher, m: Man, ns: seq<Id>, ts: seq<Id>, u: Man, b: nat, toks: seq<Token>, p: nat)
    returns (r: Man)
    requires Lists(h, m, ns, ts) && b <= NEW_BUCKET_COUNT && Filling(h, m, ns, ts, u, b, 0)
    requires p <= |toks| && toks[p..] == Buckets(m, b)
    ensures LoadBuckets(h, u, toks, p, b, NEW_BUCKET_COUNT, |ns|, true) == Some((r, |toks|))
    ensures Filling(h, m, ns, ts, r, NEW_BUCKET_COUNT, 0)
    ensures r.nNew == u.nNew && r.nTried == u.nTried && r.lastGood == u.lastGood
    decreases NEW_BUCKET_COUNT - b
  {
    hide Core, Copied, Growing, Placed, BucketIds, IndicesAt, NewList, TriedList;
    if b == NEW_BUCKET_COUNT {
      r := u;
      assert |toks[p..]| == 0;
    } else {
      BucketTokens(m, toks, p, b);
      var ids := BucketIds(m.news, b, 0);
      var v := LoadBucketAll(h, m, ns, ts, u, b, 0, toks, p + 1);
      NextBucket(h, m, ns, ts, v, b);
      r := LoadBucketsAll(h, m, ns, ts, v, b + 1, toks, p + 1 + |ids|);
    }
  }

  // ----- The whole file

  lemma {:induction false} PruneNothing(m: Man, n: nat)
    requires forall k :: k in m.info ==> m.info[k].inTried || m.info[k].refCount != 0
    ensures Prune(m, n, 0) == Some((m, 0))
    decreases m.idCount - n
  {
    if n < m.idCount {
      PruneNothing(m, n + 1);
    }
  }

  /** Once all positions are loaded, every new entry has a slot again. */
  lemma NothingIdle(h: Hasher, m: Man, ns: seq<Id>, ts: seq<Id>, u: Man)
    requires Lists(h, m, ns, ts) && Filling(h, m, ns, ts, u, NEW_BUCKET_COUNT, 0)
    ensures Idle(u, |ns|) == {}
  {
    forall i | 0 <= i < |ns| ensures i in u.info && u.info[i].refCount != 0 {
      HasSlotAgain(h, m, ns, ts, u, i);
    }
  }

  lemma HasSlotAgain(h: Hasher, m: Man, ns: seq<Id>, ts: seq<Id>, u: Man, i: Id)
    requires Lists(h, m, ns, ts) && Filling(h, m, ns, ts, u, NEW_BUCKET_COUNT, 0) && i < |ns|
    ensures i in u.info && u.info[i].refCount != 0
  {
    hide Core, NewList, TriedList, Growing;
    ListsFacts(h, m, ns, ts);
    ValidNewOk(h, m);
    RefAt(h, m, ns[i]);
    var s :| s in Slots(m.news, ns[i]);
    NewIn(h, m.info, m.news, s);
    assert s in u.news && ns[u.news[s]] == ns[i];
    assert u.news[s] == i;
    assert s in Slots(u.news, i);
    GrowingRefs(h, u, |ns|, |ts|, Idle(u, |ns|), i);
  }

  /** Both managers hold the same stored entry in this slot of either table. */
  ghost predicate SameSlot(m: Man, u: Man, s: Slot) {
    && (s in m.news <==> s in u.news)
    && (s in m.news ==>
          m.news[s] in m.info && u.news[s] in u.info && Store(u.info[u.news[s]]) == Store(m.info[m.news[s]]))
    && (s in m.tried <==> s in u.tried)
    && (s in m.tried ==>
          m.tried[s] in m.info && u.tried[s] in u.info && Store(u.info[u.tried[s]]) == Store(m.info[m.tried[s]]))
  }

  ghost predicate SameTables(m: Man, u: Man) {
    forall s :: SameSlot(m, u, s)
  }

  lemma NewSame(h: Hasher, m: Man, ns: seq<Id>, ts: seq<Id>, u: Man, s: Slot)
    requires Lists(h, m, ns, ts) && Filling(h, m, ns, ts, u, NEW_BUCKET_COUNT, 0)
    ensures s in m.news <==> s in u.news
    ensures s in m.news ==>
              m.news[s] in m.info && u.news[s] in u.info && Store(u.info[u.news[s]]) == Store(m.info[m.news[s]])
  {
    hide Core, NewList, TriedList, Growing;
    ValidNewOk(h, m);
    if s in m.news {
      NewIn(h, m.info, m.news, s);
      var a := |ns|;
      assert s in u.news;
      assert CopyOf(m, ns, ts, u, a, u.news[s]);
    }
  }

  lemma TriedSame(h: Hasher, m: Man, ns: seq<Id>, ts: seq<Id>, u: Man, s: Slot)
    requires Lists(h, m, ns, ts) && Copied(m, ns, ts, u, |ns|, |ts|) && TriedOk(h, u.info, u.tried)
    ensures s in m.tried <==> s in u.tried
    ensures s in m.tried ==>
              m.tried[s] in m.info && u.tried[s] in u.info && Store(u.info[u.tried[s]]) == Store(m.info[m.tried[s]])
  {
    hide Core, NewList, TriedList;
    ValidTried(h, m);
    ListsFacts(h, m, ns, ts);
    var a := |ns|;
    if s in m.tried {
      TriedIn(h, m.info, m.tried, s);
      TriedListed(h, m, ns, ts, m.tried[s]);
      var k :| 0 <= k < |ts| && ts[k] == m.tried[s];
      assert CopyOf(m, ns, ts, u, a, a + k);
    }
    if s in u.tried {
      TriedIn(h, u.info, u.tried, s);
      var i := u.tried[s];
      assert CopyOf(m, ns, ts, u, a, i);
      assert m.info[ts[i - a]].inTried;
    }
  }

  lemma TriedListed(h: Hasher, m: Man, ns: seq<Id>, ts: seq<Id>, n: Id)
    requires Lists(h, m, ns, ts) && n in m.info && m.info[n].inTried
    ensures n in ts
  {
    RefAt(h, m, n);
    hide Core;
    TriedListFacts(m.info, 0, m.idCount);
  }

  lemma Tokens(h: Hasher, m: Man, ns: seq<Id>, ts: seq<Id>, key: nat)
    requires Lists(h, m, ns, ts)
    ensures var toks := Serialize(m, key);
            && |toks| >= 6 && toks[..6] == Header(m, key)
            && EntriesAt(m, ns, toks, 6, 0) && EntriesAt(m, ts, toks, 6 + |ns|, 0)
            && 6 + |ns| + |ts| <= |toks| && toks[6 + |ns| + |ts|..] == Buckets(m, 0)
  {
    hide Core, NewList, TriedList, Buckets, Store, EntriesAt, Entries;
    ListFacts(m.info, 0, m.idCount);
    var e, f := Entries(m.info, ns), Entries(m.info, ts);
    FourParts(Header(m, key), e, f, Buckets(m, 0));
    assert |Header(m, key)| == 6;
    hide Header;
    AreEntriesAt(m, ns, Serialize(m, key), 6);
    AreEntriesAt(m, ts, Serialize(m, key), 6 + |ns|);
  }

  lemma AreEntriesAt(m: Man, ids: seq<Id>, toks: seq<Token>, p: nat)
    requires forall k :: 0 <= k < |ids| ==> ids[k] in m.info
    requires p + |ids| <= |toks| && toks[p..p + |ids|] == Entries(m.info, ids)
    ensures EntriesAt(m, ids, toks, p, 0)
  {
    forall i | 0 <= i < |ids| ensures toks[p + i - 0] == Entry(Store(m.info[ids[i]])) {
      assert toks[p + i] == toks[p..p + |ids|][i];
    }
  }

  lemma FourParts(a: seq<Token>, b: seq<Token>, c: seq<Token>, d: seq<Token>)
    ensures var t := a + b + c + d;
            && t[..|a|] == a
            && t[|a|..|a| + |b|] == b
            && t[|a| + |b|..|a| + |b| + |c|] == c
            && t[|a| + |b| + |c|..] == d
  {
  }

  lemma SuffixParts(toks: seq<Token>, p: nat, x: Token, y: seq<Token>, z: seq<Token>)
    requires p <= |toks| && toks[p..] == [x] + y + z
    ensures p + 1 + |y| <= |toks| && toks[p] == x
    ensures forall k :: 0 <= k < |y| ==> toks[p + 1 + k] == y[k]
    ensures toks[p + 1 + |y|..] == z
  {
    var t := toks[p..];
    assert toks[p] == t[0];
    forall k | 0 <= k < |y| ensures toks[p + 1 + k] == y[k] {
      assert toks[p + 1 + k] == t[1 + k];
    }
    assert toks[p + 1 + |y|..] == t[1 + |y|..];
  }

  lemma RebuildAll(h: Hasher, m: Man, ns: seq<Id>, ts: seq<Id>, key: nat, toks: seq<Token>) returns (u: Man)
    requires Lists(h, m, ns, ts) && EntriesAt(m, ns, toks, 6, 0) && EntriesAt(m, ts, toks, 6 + |ns|, 0)
    requires 6 + |ns| + |ts| <= |toks| && toks[6 + |ns| + |ts|..] == Buckets(m, 0)
    ensures Rebuild(h, key, toks, |ns|, |ts|, NEW_BUCKET_COUNT, true) == Some(Loaded(key, u, 0, 0))
    ensures Valid(h, u) && SameTables(m, u) && u.nNew == |ns| && u.nTried == |ts|
  {
    hide Core, NewList, TriedList, EntriesAt, Buckets, Lists, LoadNew, LoadTried, LoadBuckets, Prune;
    var start := EMPTY.(nNew := |ns|, nTried := |ts|);
    EmptyIsValid(h);
    assert Below(0) == {};
    assert Copied(m, ns, ts, start, 0, 0);
    assert Growing(h, start, 0, 0, Below(0));
    var a := LoadNewAll(h, m, ns, ts, start, toks, 6);
    var b := LoadTriedAll(h, m, ns, ts, a, 0, toks, 6 + |ns|);
    FillingStart(h, m, ns, ts, b);
    assert b.(nTried := |ts| - 0) == b;
    u := LoadBucketsAll(h, m, ns, ts, b, 0, toks, 6 + |ns| + |ts|);
    hide Filling, Copied, Growing;
    RebuiltIsWhole(h, m, ns, ts, u);
    PruneNothing(u, 0);
  }

  lemma RebuiltIsWhole(h: Hasher, m: Man, ns: seq<Id>, ts: seq<Id>, u: Man)
    requires Lists(h, m, ns, ts) && Filling(h, m, ns, ts, u, NEW_BUCKET_COUNT, 0)
    requires u.nNew == |ns| && u.nTried == |ts|
    ensures Valid(h, u) && SameTables(m, u)
    ensures forall k :: k in u.info ==> u.info[k].inTried || u.info[k].refCount != 0
  {
    hide Core, Lists, Copied, Placed;
    NothingIdle(h, m, ns, ts, u);
    GrowingTried(h, u, |ns|, |ts|, {});
    assert u.(nNew := |ns|, nTried := |ts|) == u;
    forall k | k in u.info ensures u.info[k].inTried || u.info[k].refCount != 0 {
      RefAt(h, u, k);
    }
    forall s ensures SameSlot(m, u, s) {
      NewSame(h, m, ns, ts, u, s);
      TriedSame(h, m, ns, ts, u, s);
    }
  }

  /**
   * Saving a consistent manager and loading it again loses nothing: no limit rejects the file, no
   * tried entry collides, nothing is pruned, the counters are the same, every slot of both tables
   * holds the same stored entry, and the rebuilt manager is consistent.
   */
  lemma SavedIsRestored(hk: nat -> Hasher, m: Man, key: nat)
    requires Valid(hk(key), m)
    ensures var r := Unserialize(hk, Serialize(m, key));
            && r.Some? && r.value.key == key && r.value.lost == 0 && r.value.pruned == 0
            && Valid(hk(key), r.value.m) && SameTables(m, r.value.m)
            && r.value.m.nNew == m.nNew && r.value.m.nTried == m.nTried
  {
    var h := hk(key);
    var ns, ts := NewList(m.info, 0, m.idCount), TriedList(m.info, 0, m.idCount);
    hide Core, NewList, TriedList, Buckets, Rebuild, SameTables, Serialize, Unserialize, Header, EntriesAt;
    ListsFacts(h, m, ns, ts);
    WithinLimits(h, m);
    Tokens(h, m, ns, ts, key);
    var toks := Serialize(m, key);
    var u := RebuildAll(h, m, ns, ts, key, toks);
    HeaderRead(hk, m, key, toks);
  }

  lemma HeaderRead(hk: nat -> Hasher, m: Man, key: nat, toks: seq<Token>)
    requires |toks| >= 6 && toks[..6] == Header(m, key)
    requires m.nNew <= NEW_BUCKET_COUNT * BUCKET_SIZE && m.nTried <= TRIED_BUCKET_COUNT * BUCKET_SIZE
    ensures Unserialize(hk, toks) == Rebuild(hk(key), key, toks, m.nNew, m.nTried, NEW_BUCKET_COUNT, true)
  {
    hide Rebuild;
    var t := toks[..6];
    assert toks[0] == t[0] && toks[1] == t[1] && toks[2] == t[2] && toks[3] == t[3] && toks[4] == t[4] && toks[5] == t[5];
    assert FlipBit30(FlipBit30(NEW_BUCKET_COUNT)) == NEW_BUCKET_COUNT;
  }
}
