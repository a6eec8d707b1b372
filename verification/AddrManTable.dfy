/**
 * The address manager as an object: entry and address maps, the random list, and two fixed bucket
 * tables of ids with -1 for an empty slot, all updated in place (src/addrman.cpp).  The source's
 * assertions appear as assertions.
 */
module AddrManTable {
  import opened Powers
  import opened AddrMan
  import opened AddrManRuns

  /** A bucket table holds exactly the slots of `m`. */
  ghost predicate Holds(a: array2<int>, m: map<Slot, Id>)
    reads a
  {
    && (forall b, p :: 0 <= b < a.Length0 && 0 <= p < a.Length1 ==>
          if Slot(b, p) in m then a[b, p] == m[Slot(b, p)] else a[b, p] == -1)
    && (forall s :: s in m ==> s.bucket < a.Length0 && s.pos < a.Length1)
  }

  class Manager {
    const h: Hasher
    var idCount: nat
    var info: map<Id, Info>
    var addr: map<Ip, Id>
    var random: seq<Id>
    var nTried: int
    const vvTried: array2<int>
    var nNew: int
    const vvNew: array2<int>
    var lastGood: int

    ghost var tried: map<Slot, Id>
    ghost var news: map<Slot, Id>

    ghost predicate Ok()
      reads this, vvNew, vvTried
    {
      && vvNew != vvTried
      && vvNew.Length0 == NEW_BUCKET_COUNT && vvTried.Length0 == TRIED_BUCKET_COUNT
      && vvNew.Length1 == BUCKET_SIZE && vvTried.Length1 == BUCKET_SIZE
      && Holds(vvNew, news) && Holds(vvTried, tried)
    }

    ghost function State(): Man
      reads this
    {
      Man(idCount, info, addr, random, nTried, tried, nNew, news, lastGood)
    }

    constructor (h: Hasher)
      ensures this.h == h && Ok() && State() == EMPTY && Valid(h, State())
      ensures fresh(vvNew) && fresh(vvTried)
    {
      this.h := h;
      vvNew := new int[NEW_BUCKET_COUNT, BUCKET_SIZE]((_, _) => -1);
      vvTried := new int[TRIED_BUCKET_COUNT, BUCKET_SIZE]((_, _) => -1);
      idCount, info, addr, random, nTried, nNew, lastGood := 0, map[], map[], [], 0, 0, 1;
      tried, news := map[], map[];
      new;
      EmptyIsValid(h);
    }

    method SetNew(s: Slot, n: int)
      requires Ok() && s.bucket < NEW_BUCKET_COUNT && s.pos < BUCKET_SIZE && n >= -1
      modifies this`news, vvNew
      ensures Ok() && news == if n == -1 then old(news) - {s} else old(news)[s := n]
    {
      vvNew[s.bucket, s.pos] := n;
      news := if n == -1 then news - {s} else news[s := n];
    }

    method SetTried(s: Slot, n: int)
      requires Ok() && s.bucket < TRIED_BUCKET_COUNT && s.pos < BUCKET_SIZE && n >= -1
      modifies this`tried, vvTried
      ensures Ok() && tried == if n == -1 then old(tried) - {s} else old(tried)[s := n]
    {
      vvTried[s.bucket, s.pos] := n;
      tried := if n == -1 then tried - {s} else tried[s := n];
    }

    method DoCreate(a: Address, source: Ip) returns (n: Id)
      modifies this`idCount, this`info, this`addr, this`random
      ensures State() == Create(old(State()), a, source) && n == old(idCount)
    {
      n := idCount;
      idCount := idCount + 1;
      info := info[n := NewInfo(a, source)];
      addr := addr[a.service.ip := n];
      info := info[n := info[n].(randomPos := |random|)];
      random := random + [n];
    }

    method DoSwapRandom(p1: nat, p2: nat)
      requires p1 < |random| && p2 < |random| && random[p1] in info && random[p2] in info
      modifies this`info, this`random
      ensures State() == SwapRandom(old(State()), p1, p2)
    {
      if p1 == p2 {
        return;
      }
      var n1, n2 := random[p1], random[p2];
      info := info[n1 := info[n1].(randomPos := p2)];
      info := info[n2 := info[n2].(randomPos := p1)];
      random := random[p1 := n2];
      random := random[p2 := n1];
    }

    method DoDelete(n: Id)
      requires CanDelete(State(), n)
      modifies this`info, this`random, this`addr, this`nNew
      ensures State() == Delete(old(State()), n)
    {
      assert !info[n].inTried;
      assert info[n].refCount == 0;
      var i := info[n];
      DoSwapRandom(i.randomPos, |random| - 1);
      random := random[..|random| - 1];
      addr := addr - {i.Ip()};
      info := info - {n};
      nNew := nNew - 1;
    }

    method DoClearNew(s: Slot, ghost limbo: set<Id>, ghost debt: nat)
      requires Ok() && s.bucket < NEW_BUCKET_COUNT && s.pos < BUCKET_SIZE
      requires Core(h, State(), limbo, debt)
      modifies this, vvNew
      ensures Ok()
      ensures CanClear(old(State()), s) && State() == ClearNew(old(State()), s)
    {
      hide Core, CanDelete, Delete;
      ClearNewKeeps(h, State(), s, limbo, debt);
      var n := vvNew[s.bucket, s.pos];
      if n != -1 {
        assert info[n].refCount > 0;
        info := info[n := info[n].(refCount := info[n].refCount - 1)];
        SetNew(s, -1);
        assert State() == VacateSlot(old(State()), s);
        if info[n].refCount == 0 {
          DoDelete(n);
        }
      }
    }

    /** Takes `n` out of every bucket of the new table. */
    method RemoveFromNew(n: Id)
      requires Ok() && Valid(h, State()) && n in info
      modifies this`info, this`news, this`nNew, vvNew
      ensures Ok() && State() == VacateAll(old(State()), n)
    {
      hide Core, Holds, VacateUpTo;
      ghost var m := State();
      ValidNew(h, m);
      VacateNone(m, n);
      for bucket := 0 to NEW_BUCKET_COUNT
        invariant Ok() && n in info && State() == VacateUpTo(m, n, bucket)
      {
        VacateNext(h, m, n, bucket);
        var slot := h.NewSlot(info[n].addr.service, bucket);
        var id := LookNew(slot);
        if id == n {
          SetNew(slot, -1);
          info := info[n := info[n].(refCount := info[n].refCount - 1)];
        }
      }
      VacateEnd(h, m, n);
      nNew := nNew - 1;
    }

    method LookNew(s: Slot) returns (n: int)
      requires Ok() && s.bucket < NEW_BUCKET_COUNT && s.pos < BUCKET_SIZE
      ensures if s in news then n == news[s] else n == -1
    {
      n := vvNew[s.bucket, s.pos];
    }

    method LookTried(s: Slot) returns (n: int)
      requires Ok() && s.bucket < TRIED_BUCKET_COUNT && s.pos < BUCKET_SIZE
      ensures if s in tried then n == tried[s] else n == -1
    {
      n := vvTried[s.bucket, s.pos];
    }

    /** Sends the holder of a tried slot back to the new table. */
    method DoEvict(s: Slot, ghost limbo: set<Id>, ghost debt: nat)
      requires Ok() && s.bucket < TRIED_BUCKET_COUNT && s.pos < BUCKET_SIZE && s in tried
      requires Core(h, State(), limbo, debt)
      modifies this, vvNew, vvTried
      ensures Ok()
      ensures old(tried)[s] in old(info) && CanEvict(h, old(State()), s) && State() == Evict(h, old(State()), s)
    {
      hide Core, Holds, ClearNew, CanEvict;
      EvictKeeps(h, State(), s, limbo, debt);
      EvictStart(h, State(), s, limbo, debt);
      var n := LookTried(s);
      assert n in info;
      info := info[n := info[n].(inTried := false)];
      SetTried(s, -1);
      nTried := nTried - 1;
      assert State() == Untry(old(State()), s);
      var u := HomeSlot(h, info[n]);
      DoClearNew(u, limbo + {n}, debt + 1);
      var id := LookNew(u);
      assert id == -1;
      info := info[n := info[n].(refCount := 1)];
      SetNew(u, n);
      nNew := nNew + 1;
    }

    /** Moves an untried entry to the tried table. */
    method DoMakeTried(n: Id)
      requires Ok() && Valid(h, State()) && n in info && !info[n].inTried && info[n].lastSuccess != 0
      modifies this, vvNew, vvTried
      ensures Ok() && CanMakeTried(h, old(State()), n) && State() == MakeTried(h, old(State()), n)
    {
      hide Core, Holds, CanEvict, Evict, VacateAll;
      ghost var t := VacateAll(State(), n);
      MakeTriedKeeps(h, State(), n);
      VacateAllKeeps(h, State(), n);
      VacateAllFacts(State(), n);
      RemoveFromNew(n);
      assert info[n].refCount == 0;
      var s := h.TriedSlot(info[n].addr.service);
      var id := LookTried(s);
      if id != -1 {
        EvictKeeps(h, t, s, {n}, 1);
        DoEvict(s, {n}, 1);
        id := LookTried(s);
      }
      assert id == -1;
      SetTried(s, n);
      nTried := nTried + 1;
      info := info[n := info[n].(inTried := true)];
    }

    /** Finds the bucket of the new table an entry sits in, searching from a random one. */
    method FindBucket(n: Id, rnd: nat) returns (bucket: int)
      requires Ok() && n in info
      ensures -1 <= bucket < NEW_BUCKET_COUNT
      ensures bucket != -1 <==> InSomeBucket(h, State(), n)
    {
      hide Core, Holds;
      var s := info[n].addr.service;
      var start := rnd % NEW_BUCKET_COUNT;
      for k := 0 to NEW_BUCKET_COUNT
        invariant forall j :: 0 <= j < k ==> !HeldFrom(h, news, s, n, start, j)
      {
        var b := (k + start) % NEW_BUCKET_COUNT;
        var id := LookNew(h.NewSlot(s, b));
        if id == n {
          assert HoldsAt(h, news, s, n, b);
          return b;
        }
      }
      forall b | 0 <= b < NEW_BUCKET_COUNT ensures !HoldsAt(h, news, s, n, b) {
        var j := (b - start) % NEW_BUCKET_COUNT;
        assert (j + start) % NEW_BUCKET_COUNT == b;
        assert !HeldFrom(h, news, s, n, start, j);
      }
      bucket := -1;
    }

    /** Marks an address as reached; an untried entry moves to the tried table. */
    method DoGood(s: Service, time: int, rnd: nat)
      requires Ok() && Valid(h, State()) && time > 0
      modifies this, vvNew, vvTried
      ensures Ok() && State() == Good(h, old(State()), s, time) && Valid(h, State())
    {
      hide Core, Holds, MakeTried, CanMakeTried, InSomeBucket;
      GoodKeeps(h, State(), s, time);
      lastGood := time;
      if s.ip !in addr || addr[s.ip] !in info {
        return;
      }
      var n := addr[s.ip];
      if info[n].addr.service != s {
        return;
      }
      MarkedKeeps(h, old(State()), n, time);
      info := info[n := info[n].(lastSuccess := time)];
      info := info[n := info[n].(lastTry := time)];
      info := info[n := info[n].(attempts := 0)];
      assert info == old(info)[n := Marked(old(info)[n], time)];
      if info[n].inTried {
        return;
      }
      var bucket := FindBucket(n, rnd);
      if bucket == -1 {
        return;
      }
      DoMakeTried(n);
    }

    /** Enters `n` into the bucket chosen by `source`, or forgets it when it found no place at all. */
    method DoInsert(n: Id, source: Ip, now: int, ghost limbo: set<Id>)
      requires Ok() && Core(h, State(), limbo, 0) && n in info && (limbo == {n} || limbo == {}) && !info[n].inTried
      requires info[n].refCount == 0 ==> n in limbo
      modifies this, vvNew
      ensures Ok() && State() == Insert(h, old(State()), n, source, now, limbo)
    {
      hide Core, Holds, CanDelete, Delete, ClearNew, IsTerrible;
      var s := h.NewSlot(info[n].addr.service, h.NewBucket(info[n].addr.service, source));
      ClearNewKeeps(h, State(), s, limbo, 0);
      var id := LookNew(s);
      if id != n {
        var insert := id == -1;
        if !insert {
          insert := IsTerrible(info[id], now) || (info[id].refCount > 1 && info[n].refCount == 0);
        }
        if insert {
          DoClearNew(s, limbo, 0);
          info := info[n := info[n].(refCount := info[n].refCount + 1)];
          SetNew(s, n);
        } else if info[n].refCount == 0 {
          DeleteKeeps(h, State(), n, limbo, 0);
          DoDelete(n);
        }
      }
    }

    /** Hears of an address; returns whether it was new. */
    method DoAdd(routable: bool, a: Address, source: Ip, penalty0: int, now: int, rnd: nat) returns (isNew: bool)
      requires Ok() && Valid(h, State())
      modifies this, vvNew
      ensures Ok() && (State(), isNew) == Add(h, old(State()), routable, a, source, penalty0, now, rnd)
      ensures Valid(h, State())
    {
      hide Core, Holds, Insert;
      AddKeeps(h, State(), routable, a, source, penalty0, now, rnd);
      isNew := false;
      if !routable {
        return;
      }
      var penalty := if a.service.ip == source then 0 else penalty0;
      if a.service.ip in addr && addr[a.service.ip] in info {
        var n := addr[a.service.ip];
        RefreshKeeps(h, State(), n, a, penalty, now);
        var may := DoRefresh(n, a, penalty, now, rnd);
        if !may {
          return;
        }
        DoInsert(n, source, now, {});
      } else {
        FindIn(h, State(), a.service.ip);
        CreateKeeps(h, State(), a.(time := Max(0, a.time - penalty)), source);
        var n := DoFirst(a, source, penalty);
        isNew := true;
        DoInsert(n, source, now, {n});
      }
    }

    /** Creates the entry of an address heard of for the first time. */
    method DoFirst(a: Address, source: Ip, penalty: int) returns (n: Id)
      modifies this`idCount, this`info, this`addr, this`random, this`nNew
      ensures State() == Created(old(State()), a, source, penalty) && n == old(idCount)
    {
      n := DoCreate(a, source);
      info := info[n := info[n].(addr := info[n].addr.(time := Max(0, info[n].addr.time - penalty)))];
      nNew := nNew + 1;
    }

    /** Takes over news about a known address; returns whether it may be given another slot. */
    method DoRefresh(n: Id, a: Address, penalty: int, now: int, rnd: nat) returns (may: bool)
      requires n in info
      modifies this`info
      ensures info == old(info)[n := Refresh(old(info)[n], a, penalty, now)]
      ensures may == MayRepeat(info[n], a, rnd)
    {
      var i := info[n];
      var online := now - a.time < 24 * 60 * 60;
      var interval := if online then 60 * 60 else 24 * 60 * 60;
      if a.time != 0 && (i.addr.time == 0 || i.addr.time < a.time - interval - penalty) {
        i := i.(addr := i.addr.(time := Max(0, a.time - penalty)));
      }
      i := i.(addr := i.addr.(services := i.addr.services + a.services));
      info := info[n := i];
      if a.time == 0 || (i.addr.time != 0 && a.time <= i.addr.time) {
        return false;
      }
      if i.inTried {
        return false;
      }
      if i.refCount == NEW_BUCKETS_PER_ADDRESS {
        return false;
      }
      var factor := 1;
      var k := 0;
      while k < i.refCount
        invariant 0 <= k && (k <= i.refCount || k == 0) && factor == Pow2(k)
      {
        factor := factor * 2;
        k := k + 1;
      }
      may := !(factor > 1 && rnd % factor != 0);
    }

    method DoAttempt(s: Service, countFailure: bool, time: int)
      requires Valid(h, State()) && time >= 0
      modifies this`info
      ensures State() == Attempt(old(State()), s, countFailure, time) && Valid(h, State())
    {
      hide Core;
      AttemptKeeps(h, State(), s, countFailure, time);
      if s.ip in addr && addr[s.ip] in info && info[addr[s.ip]].addr.service == s {
        var n := addr[s.ip];
        info := info[n := info[n].(lastTry := time)];
        if countFailure && info[n].lastCountAttempt < lastGood {
          info := info[n := info[n].(lastCountAttempt := time, attempts := info[n].attempts + 1)];
        }
      }
    }

    method DoConnected(s: Service, time: int)
      requires Valid(h, State())
      modifies this`info
      ensures State() == Connected(old(State()), s, time) && Valid(h, State())
    {
      hide Core;
      ConnectedKeeps(h, State(), s, time);
      if s.ip in addr && addr[s.ip] in info && info[addr[s.ip]].addr.service == s {
        var n := addr[s.ip];
        if time - info[n].addr.time > 20 * 60 {
          info := info[n := info[n].(addr := info[n].addr.(time := time))];
        }
        assert info[n := info[n]] == info;
      }
    }

    method DoSetServices(s: Service, services: set<nat>)
      requires Valid(h, State())
      modifies this`info
      ensures State() == SetServices(old(State()), s, services) && Valid(h, State())
    {
      hide Core;
      SetServicesKeeps(h, State(), s, services);
      if s.ip in addr && addr[s.ip] in info && info[addr[s.ip]].addr.service == s {
        var n := addr[s.ip];
        info := info[n := info[n].(addr := info[n].addr.(services := services))];
      }
    }

    /** Hands out a random sample of the addresses that are not terrible. */
    method DoGetAddr(rnd: nat -> nat, now: int) returns (got: seq<Address>)
      requires Ok() && Valid(h, State())
      modifies this`info, this`random
      ensures Ok() && (State(), got) == GetAddr(h, old(State()), rnd, now) && Valid(h, State())
    {
      hide Core, Holds, Sample, SwapRandom, SameButPos, IsTerrible;
      ghost var m := State();
      SampleStart(m, now);
      SampleKeeps(h, m, 0, SampleSize(m), [], rnd, now);
      var limit := GETADDR_MAX_PCT * |random| / 100;
      if limit > GETADDR_MAX {
        limit := GETADDR_MAX;
      }
      got := [];
      var n := 0;
      while n < |random| && |got| < limit
        invariant n <= |random| && Valid(h, State()) && Ok()
        invariant Sample(h, State(), n, limit, got, rnd, now) == Sample(h, m, 0, limit, [], rnd, now)
        decreases |random| - n
      {
        var p := rnd(n) % (|random| - n) + n;
        SwapKeeps(h, State(), n, p, {}, 0);
        SwapLength(State(), n, p);
        ghost var before := State();
        DoSwapRandom(n, p);
        CoreRandom(h, State(), {}, 0);
        assert random[n] in info;
        SampleUnfold(h, before, n, limit, got, rnd, now, State());
        var i := info[random[n]];
        if !IsTerrible(i, now) {
          got := got + [i.addr];
        }
        n := n + 1;
      }
      SampleDone(h, State(), n, limit, got, rnd, now);
    }
  }

  /** The bucket `j` steps after `start`, wrapping around, holds `n`. */
  predicate HeldFrom(h: Hasher, news: map<Slot, Id>, s: Service, n: Id, start: nat, j: nat) {
    HoldsAt(h, news, s, n, (j + start) % NEW_BUCKET_COUNT)
  }

  lemma SampleStart(m: Man, now: int)
    ensures Collected(m, [], 0, now)
  {
  }

  lemma VacateAllFacts(m: Man, n: Id)
    requires n in m.info
    ensures VacateAll(m, n).info.Keys == m.info.Keys && VacateAll(m, n).info[n].addr == m.info[n].addr
  {
  }

  lemma EvictStart(h: Hasher, m: Man, s: Slot, limbo: set<Id>, debt: nat)
    requires Core(h, m, limbo, debt) && s in m.tried
    ensures m.tried[s] in m.info && Core(h, Untry(m, s), limbo + {m.tried[s]}, debt + 1)
    ensures var u := HomeSlot(h, m.info[m.tried[s]]);
            && CanClear(Untry(m, s), u)
            && m.tried[s] in ClearNew(Untry(m, s), u).info && u !in ClearNew(Untry(m, s), u).news
  {
    hide Core;
    UntryKeeps(h, m, s, limbo, debt);
    var n := m.tried[s];
    var t, u := Untry(m, s), HomeSlot(h, m.info[n]);
    ClearNewKeeps(h, t, u, limbo + {n}, debt + 1);
    LimboFacts(h, ClearNew(t, u), n, limbo + {n}, debt + 1);
  }

  /** The slots of `n` in the first `b` buckets. */
  ghost function Held(news: map<Slot, Id>, n: Id, b: nat): set<Slot> {
    set s | s in Slots(news, n) && s.bucket < b
  }

  lemma ValidNew(h: Hasher, m: Man)
    requires Valid(h, m)
    ensures NewOk(h, m.info, m.news)
  {
    hide RandomOk, AddrOk, TriedOk, NewOk, RefOk, StatsOk, CountsOk, IdsOk;
  }

  /** `n` taken out of the first `b` buckets. */
  ghost function VacateUpTo(m: Man, n: Id, b: nat): Man
    requires n in m.info
  {
    m.(info := m.info[n := m.info[n].(refCount := m.info[n].refCount - |Held(m.news, n, b)|)],
       news := m.news - Held(m.news, n, b))
  }

  lemma VacateNone(m: Man, n: Id)
    requires n in m.info
    ensures VacateUpTo(m, n, 0) == m
  {
    assert Held(m.news, n, 0) == {};
    assert m.news - {} == m.news;
    assert m.info[n := m.info[n]] == m.info;
  }

  lemma HeldNext(h: Hasher, info: map<Id, Info>, news: map<Slot, Id>, n: Id, b: nat)
    requires NewOk(h, info, news) && n in info
    ensures var s := h.NewSlot(info[n].addr.service, b);
            && s !in Held(news, n, b)
            && Held(news, n, b + 1) == if s in news && news[s] == n then Held(news, n, b) + {s} else Held(news, n, b)
  {
    var s := h.NewSlot(info[n].addr.service, b);
    forall t | t in Slots(news, n) && t.bucket == b ensures t == s {
      NewIn(h, info, news, t);
    }
  }

  lemma VacateNext(h: Hasher, m: Man, n: Id, b: nat)
    requires NewOk(h, m.info, m.news) && n in m.info
    ensures var t := VacateUpTo(m, n, b);
            var s := h.NewSlot(m.info[n].addr.service, b);
            && n in t.info && t.info[n].addr == m.info[n].addr
            && VacateUpTo(m, n, b + 1) ==
               if s in t.news && t.news[s] == n
               then t.(info := t.info[n := t.info[n].(refCount := t.info[n].refCount - 1)], news := t.news - {s}) else t
  {
    hide NewOk, Held;
    HeldNext(h, m.info, m.news, n, b);
    var s := h.NewSlot(m.info[n].addr.service, b);
    var g := Held(m.news, n, b);
    var t := VacateUpTo(m, n, b);
    if s in m.news && m.news[s] == n {
      assert |g + {s}| == |g| + 1;
      assert m.news - g - {s} == m.news - (g + {s});
    }
  }

  lemma VacateEnd(h: Hasher, m: Man, n: Id)
    requires NewOk(h, m.info, m.news) && n in m.info
    ensures var t := VacateUpTo(m, n, NEW_BUCKET_COUNT);
            t.nNew == m.nNew && VacateAll(m, n) == t.(nNew := t.nNew - 1)
  {
    assert Held(m.news, n, NEW_BUCKET_COUNT) == Slots(m.news, n);
  }
}
