/**
 * The address manager's operations and whole runs of them: adding gossiped addresses, marking them
 * good, attempted or connected, and sampling the list (src/addrman.cpp).
 */
module AddrManRuns {
  import opened Options
  import opened Powers
  import opened AddrMan

  const HORIZON := 30 * 24 * 60 * 60
  const RETRIES := 3
  const MIN_FAIL := 7 * 24 * 60 * 60
  const MAX_FAILURES := 10
  const GETADDR_MAX_PCT := 23
  const GETADDR_MAX := 2500

  function IsTerrible(i: Info, now: int): bool {
    if i.lastTry != 0 && i.lastTry >= now - 60 then false
    else if i.addr.time > now + 10 * 60 then true
    else if i.addr.time == 0 || now - i.addr.time > HORIZON then true
    else if i.lastSuccess == 0 && i.attempts >= RETRIES then true
    else now - i.lastSuccess > MIN_FAIL && i.attempts >= MAX_FAILURES
  }

  /** The entry for an address, whatever its port. */
  function Find(m: Man, ip: Ip): Option<Id> {
    if ip in m.addr && m.addr[ip] in m.info then Some(m.addr[ip]) else None
  }

  /** The entry for exactly this address and port. */
  function FindService(m: Man, s: Service): Option<Id> {
    var f := Find(m, s.ip);
    if f.Some? && m.info[f.value].addr.service == s then f else None
  }

  lemma FindIn(h: Hasher, m: Man, ip: Ip)
    requires Valid(h, m)
    ensures Find(m, ip).Some? <==> ip in m.addr
    ensures Find(m, ip).Some? ==> Find(m, ip).value in m.info && m.info[Find(m, ip).value].Ip() == ip
  {
    assert AddrOk(m.info, m.addr);
  }

  lemma StatsAt(h: Hasher, m: Man, n: Id)
    requires Valid(h, m) && n in m.info
    ensures m.info[n].lastTry >= 0 && m.info[n].lastSuccess >= 0 && (m.info[n].inTried ==> m.info[n].lastSuccess != 0)
  {
    CoreStats(h, m, {}, 0);
  }

  // ----- Good

  /** Some bucket of the new table holds `n` at its position. */
  predicate InSomeBucket(h: Hasher, m: Man, n: Id)
    requires n in m.info
  {
    exists b :: 0 <= b < NEW_BUCKET_COUNT && HoldsAt(h, m.news, m.info[n].addr.service, n, b)
  }

  predicate HoldsAt(h: Hasher, news: map<Slot, Id>, s: Service, n: Id, b: nat) {
    h.NewSlot(s, b) in news && news[h.NewSlot(s, b)] == n
  }

  lemma UntriedIsInSomeBucket(h: Hasher, m: Man, n: Id)
    requires Valid(h, m) && n in m.info
    ensures InSomeBucket(h, m, n) <==> !m.info[n].inTried
  {
    if !m.info[n].inTried {
      assert |Slots(m.news, n)| > 0;
      var s :| s in Slots(m.news, n);
      assert HoldsAt(h, m.news, m.info[n].addr.service, n, s.bucket);
    }
  }

  function Marked(i: Info, time: int): Info {
    i.(lastSuccess := time, lastTry := time, attempts := 0)
  }

  ghost function Good(h: Hasher, m: Man, s: Service, time: int): Man
    requires Valid(h, m) && time > 0
  {
    var t := m.(lastGood := time);
    var f := FindService(m, s);
    if f.None? then t
    else
      var n := f.value;
      var u := t.(info := t.info[n := Marked(t.info[n], time)]);
      if u.info[n].inTried || !InSomeBucket(h, u, n) then u
      else
        GoodCanMove(h, m, n, time);
        MakeTried(h, u, n)
  }

  lemma LastGoodKeeps(h: Hasher, m: Man, time: int)
    requires Valid(h, m)
    ensures Valid(h, m.(lastGood := time))
  {
    hide RandomOk, AddrOk, TriedOk, NewOk, RefOk, StatsOk, CountsOk, IdsOk;
  }

  lemma MarkedKeeps(h: Hasher, m: Man, n: Id, time: int)
    requires Valid(h, m) && n in m.info && time > 0
    ensures Valid(h, m.(lastGood := time, info := m.info[n := Marked(m.info[n], time)]))
  {
    hide Core;
    LastGoodKeeps(h, m, time);
    StatsKeep(h, m.(lastGood := time), n, Marked(m.info[n], time));
  }

  lemma GoodCanMove(h: Hasher, m: Man, n: Id, time: int)
    requires Valid(h, m) && n in m.info && time > 0
    ensures var u := m.(lastGood := time, info := m.info[n := Marked(m.info[n], time)]);
            !u.info[n].inTried ==> CanMakeTried(h, u, n) && Valid(h, MakeTried(h, u, n))
  {
    hide Core, MakeTried, CanMakeTried;
    MarkedKeeps(h, m, n, time);
    var u := m.(lastGood := time, info := m.info[n := Marked(m.info[n], time)]);
    if !u.info[n].inTried {
      MakeTriedKeeps(h, u, n);
    }
  }

  lemma GoodKeeps(h: Hasher, m: Man, s: Service, time: int)
    requires Valid(h, m) && time > 0
    ensures Valid(h, Good(h, m, s, time))
  {
    hide Core, MakeTried, CanMakeTried, InSomeBucket;
    LastGoodKeeps(h, m, time);
    var f := FindService(m, s);
    if f.Some? {
      MarkedKeeps(h, m, f.value, time);
      GoodCanMove(h, m, f.value, time);
    }
  }

  // ----- Add

  function Max(a: int, b: int): int {
    if a < b then b else a
  }

  /** A known address heard of again: newer time and more services are taken over. */
  function Refresh(i: Info, addr: Address, penalty: int, now: int): Info {
    var online := now - addr.time < 24 * 60 * 60;
    var interval := if online then 60 * 60 else 24 * 60 * 60;
    var time := if addr.time != 0 && (i.addr.time == 0 || i.addr.time < addr.time - interval - penalty)
                then Max(0, addr.time - penalty) else i.addr.time;
    i.(addr := i.addr.(time := time, services := i.addr.services + addr.services))
  }

  /** Whether a known entry may take one more slot; each slot it has halves the chance. */
  predicate MayRepeat(i: Info, addr: Address, rnd: nat) {
    && addr.time != 0 && !(i.addr.time != 0 && addr.time <= i.addr.time)
    && !i.inTried && i.refCount != NEW_BUCKETS_PER_ADDRESS
    && (i.refCount <= 0 || rnd % Pow2(i.refCount) == 0)
  }

  /** Puts entry `n` into the bucket its source selects, if the slot is free or its holder expendable. */
  ghost function Insert(h: Hasher, m: Man, n: Id, source: Ip, now: int, limbo: set<Id>): Man
    requires Core(h, m, limbo, 0) && n in m.info && (limbo == {n} || limbo == {}) && !m.info[n].inTried
    requires m.info[n].refCount == 0 ==> n in limbo
  {
    var i := m.info[n];
    var s := h.NewSlot(i.addr.service, h.NewBucket(i.addr.service, source));
    if s in m.news && m.news[s] == n then m
    else if s !in m.news || Expendable(h, m, s, i, now) then
      ClearNewKeeps(h, m, s, limbo, 0);
      PlaceNew(ClearNew(m, s), n, s)
    else if i.refCount == 0 then
      DeleteKeeps(h, m, n, limbo, 0);
      Delete(m, n)
    else m
  }

  predicate Expendable(h: Hasher, m: Man, s: Slot, i: Info, now: int)
    requires s in m.news
  {
    m.news[s] in m.info &&
    (IsTerrible(m.info[m.news[s]], now) || (m.info[m.news[s]].refCount > 1 && i.refCount == 0))
  }

  lemma InsertKeeps(h: Hasher, m: Man, n: Id, source: Ip, now: int, limbo: set<Id>)
    requires Core(h, m, limbo, 0) && n in m.info && (limbo == {n} || limbo == {}) && !m.info[n].inTried
    requires m.info[n].refCount == 0 ==> n in limbo
    requires m.info[n].refCount < NEW_BUCKETS_PER_ADDRESS
    ensures Valid(h, Insert(h, m, n, source, now, limbo))
  {
    hide Core, ClearNew, PlaceNew, Delete;
    var i := m.info[n];
    var s := h.NewSlot(i.addr.service, h.NewBucket(i.addr.service, source));
    assert limbo - {n} == {};
    LimboOrHeld(h, m, n, limbo, s);
    if s in m.news && m.news[s] == n {
    } else if s !in m.news || Expendable(h, m, s, i, now) {
      ClearNewKeeps(h, m, s, limbo, 0);
      PlaceKeeps(h, ClearNew(m, s), n, s, limbo, 0);
    } else if i.refCount == 0 {
      DeleteKeeps(h, m, n, limbo, 0);
    }
  }

  lemma LimboOrHeld(h: Hasher, m: Man, n: Id, limbo: set<Id>, s: Slot)
    requires Core(h, m, limbo, 0) && n in m.info && (limbo == {n} || limbo == {})
    ensures s in m.news && m.news[s] == n ==> limbo == {}
    ensures n in limbo ==> m.info[n].refCount == 0
  {
    assert RefOk(m.info, m.news, limbo);
    if s in m.news && m.news[s] == n {
      assert s in Slots(m.news, n);
    }
  }

  /** A first sighting: the entry is created and counted as new, its time lowered by the penalty. */
  function Created(m: Man, addr: Address, source: Ip, penalty: int): Man {
    var c := Create(m, addr.(time := Max(0, addr.time - penalty)), source);
    c.(nNew := c.nNew + 1)
  }

  /** The manager after `addr` was heard from `source`, and whether the address was new. */
  ghost function Add(h: Hasher, m: Man, routable: bool, addr: Address, source: Ip, penalty0: int, now: int, rnd: nat): (Man, bool)
    requires Valid(h, m)
  {
    hide Core;
    var penalty := if addr.service.ip == source then 0 else penalty0;
    var f := Find(m, addr.service.ip);
    if !routable then (m, false)
    else if f.Some? then
      var n := f.value;
      var i := Refresh(m.info[n], addr, penalty, now);
      var t := m.(info := m.info[n := i]);
      if !MayRepeat(i, addr, rnd) then (t, false)
      else
        RefreshKeeps(h, m, n, addr, penalty, now);
        (Insert(h, t, n, source, now, {}), false)
    else
      FindIn(h, m, addr.service.ip);
      CreateKeeps(h, m, addr.(time := Max(0, addr.time - penalty)), source);
      (Insert(h, Created(m, addr, source, penalty), m.idCount, source, now, {m.idCount}), true)
  }

  lemma RefreshKeeps(h: Hasher, m: Man, n: Id, addr: Address, penalty: int, now: int)
    requires Valid(h, m) && n in m.info
    ensures Valid(h, m.(info := m.info[n := Refresh(m.info[n], addr, penalty, now)]))
    ensures !m.info[n].inTried ==> 0 < m.info[n].refCount <= NEW_BUCKETS_PER_ADDRESS
  {
    StatsAt(h, m, n);
    assert RefOk(m.info, m.news, {});
    hide Core;
    StatsKeep(h, m, n, Refresh(m.info[n], addr, penalty, now));
  }

  lemma AddKeeps(h: Hasher, m: Man, routable: bool, addr: Address, source: Ip, penalty0: int, now: int, rnd: nat)
    requires Valid(h, m)
    ensures Valid(h, Add(h, m, routable, addr, source, penalty0, now, rnd).0)
  {
    hide Core, Insert, Refresh;
    var penalty := if addr.service.ip == source then 0 else penalty0;
    var f := Find(m, addr.service.ip);
    if routable && f.Some? {
      var n := f.value;
      RefreshKeeps(h, m, n, addr, penalty, now);
      RefreshSame(m.info[n], addr, penalty, now);
      var t := m.(info := m.info[n := Refresh(m.info[n], addr, penalty, now)]);
      if MayRepeat(t.info[n], addr, rnd) {
        InsertKeeps(h, t, n, source, now, {});
      }
    } else if routable {
      FindIn(h, m, addr.service.ip);
      CreateKeeps(h, m, addr.(time := Max(0, addr.time - penalty)), source);
      InsertKeeps(h, Created(m, addr, source, penalty), m.idCount, source, now, {m.idCount});
    }
  }

  lemma RefreshSame(i: Info, addr: Address, penalty: int, now: int)
    ensures var j := Refresh(i, addr, penalty, now);
            j.inTried == i.inTried && j.refCount == i.refCount && j.addr.service == i.addr.service
  {
  }

  // ----- Attempt, Connected, SetServices

  function Attempt(m: Man, s: Service, countFailure: bool, time: int): Man {
    var f := FindService(m, s);
    if f.None? then m
    else
      var i := m.info[f.value].(lastTry := time);
      m.(info := m.info[f.value := if countFailure && i.lastCountAttempt < m.lastGood
                                   then i.(lastCountAttempt := time, attempts := i.attempts + 1) else i])
  }

  function Connected(m: Man, s: Service, time: int): Man {
    var f := FindService(m, s);
    if f.None? then m
    else
      var i := m.info[f.value];
      m.(info := m.info[f.value := if time - i.addr.time > 20 * 60 then i.(addr := i.addr.(time := time)) else i])
  }

  function SetServices(m: Man, s: Service, services: set<nat>): Man {
    var f := FindService(m, s);
    if f.None? then m
    else m.(info := m.info[f.value := m.info[f.value].(addr := m.info[f.value].addr.(services := services))])
  }

  lemma AttemptKeeps(h: Hasher, m: Man, s: Service, countFailure: bool, time: int)
    requires Valid(h, m) && time >= 0
    ensures Valid(h, Attempt(m, s, countFailure, time))
  {
    hide Core;
    var f := FindService(m, s);
    if f.Some? {
      StatsAt(h, m, f.value);
      StatsKeep(h, m, f.value, Attempt(m, s, countFailure, time).info[f.value]);
    }
  }

  lemma ConnectedKeeps(h: Hasher, m: Man, s: Service, time: int)
    requires Valid(h, m)
    ensures Valid(h, Connected(m, s, time))
  {
    hide Core;
    var f := FindService(m, s);
    if f.Some? {
      StatsAt(h, m, f.value);
      StatsKeep(h, m, f.value, Connected(m, s, time).info[f.value]);
    }
  }

  lemma SetServicesKeeps(h: Hasher, m: Man, s: Service, services: set<nat>)
    requires Valid(h, m)
    ensures Valid(h, SetServices(m, s, services))
  {
    hide Core;
    var f := FindService(m, s);
    if f.Some? {
      StatsAt(h, m, f.value);
      StatsKeep(h, m, f.value, SetServices(m, s, services).info[f.value]);
    }
  }

  // ----- GetAddr

  function SampleSize(m: Man): nat {
    var k := GETADDR_MAX_PCT * |m.random| / 100;
    if k > GETADDR_MAX then GETADDR_MAX else k
  }

  /** Shuffles the list from position `n` on, collecting entries that are not terrible, up to `limit`. */
  ghost function Sample(h: Hasher, m: Man, n: nat, limit: nat, got: seq<Address>, rnd: nat -> nat, now: int): (Man, seq<Address>)
    requires Valid(h, m) && n <= |m.random|
    decreases |m.random| - n
  {
    hide Core, SameButPos;
    if n == |m.random| || |got| >= limit then (m, got)
    else
      var p := rnd(n) % (|m.random| - n) + n;
      SwapKeeps(h, m, n, p, {}, 0);
      var t := SwapRandom(m, n, p);
      CoreRandom(h, t, {}, 0);
      var i := t.info[t.random[n]];
      Sample(h, t, n + 1, limit, if IsTerrible(i, now) then got else got + [i.addr], rnd, now)
  }

  ghost function GetAddr(h: Hasher, m: Man, rnd: nat -> nat, now: int): (Man, seq<Address>)
    requires Valid(h, m)
  {
    Sample(h, m, 0, SampleSize(m), [], rnd, now)
  }

  /** An address the manager would hand out: that of an entry which is not terrible. */
  ghost predicate Offered(m: Man, a: Address, now: int) {
    exists n :: n in m.info && m.info[n].addr == a && !IsTerrible(m.info[n], now)
  }

  /** Addresses collected so far: offered, distinct, and found before position `n` of the list. */
  ghost predicate Collected(m: Man, got: seq<Address>, n: nat, now: int) {
    && (forall j :: 0 <= j < |got| ==> Offered(m, got[j], now) && ListedBefore(m, got[j].service.ip, n))
    && (forall j, k :: 0 <= j < k < |got| ==> got[j].service.ip != got[k].service.ip)
  }

  /** The address at some position before `n` of the random list. */
  ghost predicate ListedBefore(m: Man, ip: Ip, n: nat) {
    exists i :: 0 <= i < n && i < |m.random| && m.random[i] in m.info && m.info[m.random[i]].Ip() == ip
  }

  /** Sampling only permutes the list.  It returns distinct known addresses, none terrible, up to the limit. */
  lemma {:induction false} SampleKeeps(h: Hasher, m: Man, n: nat, limit: nat, got: seq<Address>, rnd: nat -> nat, now: int)
    requires Valid(h, m) && n <= |m.random| && |got| <= limit && Collected(m, got, n, now)
    ensures var r := Sample(h, m, n, limit, got, rnd, now);
            && Valid(h, r.0) && SameButPos(m.info, r.0.info) && |r.1| <= limit
            && Collected(r.0, r.1, |r.0.random|, now)
    decreases |m.random| - n
  {
    hide Core, SwapRandom, SameButPos, IsTerrible, Collected, RandomOk, AddrOk, Sample;
    SameButPosRefl(m.info);
    if n == |m.random| || |got| >= limit {
      SampleDone(h, m, n, limit, got, rnd, now);
      CollectedLater(m, got, n, now);
    } else {
      var p := rnd(n) % (|m.random| - n) + n;
      SwapKeeps(h, m, n, p, {}, 0);
      var t := SwapRandom(m, n, p);
      CoreRandom(h, m, {}, 0);
      CoreAddr(h, m);
      SwapLength(m, n, p);
      SampleStep(m, n, p, got, now);
      var i := t.info[t.random[n]];
      var got' := if IsTerrible(i, now) then got else got + [i.addr];
      SampleUnfold(h, m, n, limit, got, rnd, now, t);
      SampleKeeps(h, t, n + 1, limit, got', rnd, now);
      SameButPosTrans(m.info, t.info, Sample(h, t, n + 1, limit, got', rnd, now).0.info);
    }
  }

  lemma SampleDone(h: Hasher, m: Man, n: nat, limit: nat, got: seq<Address>, rnd: nat -> nat, now: int)
    requires Valid(h, m) && n <= |m.random| && (n == |m.random| || |got| >= limit)
    ensures Sample(h, m, n, limit, got, rnd, now) == (m, got)
  {
    hide Core;
  }

  lemma SampleUnfold(h: Hasher, m: Man, n: nat, limit: nat, got: seq<Address>, rnd: nat -> nat, now: int, t: Man)
    requires Valid(h, m) && n < |m.random| && |got| < limit
    requires var p := rnd(n) % (|m.random| - n) + n;
             m.random[n] in m.info && m.random[p] in m.info && t == SwapRandom(m, n, p)
    requires Valid(h, t) && n < |t.random| && t.random[n] in t.info
    ensures Sample(h, m, n, limit, got, rnd, now) ==
            Sample(h, t, n + 1, limit,
                   if IsTerrible(t.info[t.random[n]], now) then got else got + [t.info[t.random[n]].addr], rnd, now)
  {
    hide Core, SwapRandom, IsTerrible;
  }

  lemma CollectedLater(m: Man, got: seq<Address>, n: nat, now: int)
    requires Collected(m, got, n, now) && n <= |m.random|
    ensures Collected(m, got, |m.random|, now)
  {
    forall j | 0 <= j < |got| ensures ListedBefore(m, got[j].service.ip, |m.random|) {
      assert ListedBefore(m, got[j].service.ip, n);
    }
  }

  lemma SwapLength(m: Man, n: nat, p: nat)
    requires n < |m.random| && p < |m.random| && m.random[n] in m.info && m.random[p] in m.info
    ensures |SwapRandom(m, n, p).random| == |m.random|
  {
  }

  lemma CoreAddr(h: Hasher, m: Man)
    requires Valid(h, m)
    ensures AddrOk(m.info, m.addr)
  {
    hide RandomOk, AddrOk, TriedOk, NewOk, RefOk, StatsOk, CountsOk, IdsOk;
  }

  lemma SameButPosRefl(a: map<Id, Info>)
    ensures SameButPos(a, a)
  {
  }

  lemma SameButPosTrans(a: map<Id, Info>, b: map<Id, Info>, c: map<Id, Info>)
    requires SameButPos(a, b) && SameButPos(b, c)
    ensures SameButPos(a, c)
  {
    forall n | n in a ensures c[n].(randomPos := a[n].randomPos) == a[n] {
      assert b[n].(randomPos := a[n].randomPos) == a[n];
      assert c[n].(randomPos := b[n].randomPos) == b[n];
    }
  }

  lemma OfferedSame(m: Man, t: Man, a: Address, now: int)
    requires SameButPos(m.info, t.info)
    ensures Offered(m, a, now) <==> Offered(t, a, now)
  {
    forall n | n in m.info ensures m.info[n].addr == t.info[n].addr && IsTerrible(m.info[n], now) == IsTerrible(t.info[n], now) {
      assert t.info[n].(randomPos := m.info[n].randomPos) == m.info[n];
    }
  }

  lemma SampleStep(m: Man, n: nat, p: nat, got: seq<Address>, now: int)
    requires RandomOk(m.info, m.random) && AddrOk(m.info, m.addr) && n <= p < |m.random|
    requires m.random[n] in m.info && m.random[p] in m.info && Collected(m, got, n, now)
    ensures var t := SwapRandom(m, n, p);
            t.random[n] in t.info &&
            var i := t.info[t.random[n]];
            Collected(t, if IsTerrible(i, now) then got else got + [i.addr], n + 1, now)
  {
    hide SameButPos, IsTerrible, RandomOk, AddrOk, Offered;
    var t := SwapRandom(m, n, p);
    var x := t.random[n];
    assert x == m.random[p];
    SwapSameButPos(m, n, p);
    SameAddr(m.info, t.info, x);
    CollectedKept(m, n, p, got, now);
    hide SwapRandom;
    assert ListedBefore(t, t.info[x].Ip(), n + 1);
    if !IsTerrible(t.info[x], now) {
      OfferedBy(t, x, now);
    }
  }

  lemma OfferedBy(m: Man, n: Id, now: int)
    requires n in m.info && !IsTerrible(m.info[n], now)
    ensures Offered(m, m.info[n].addr, now)
  {
  }

  lemma SameAddr(a: map<Id, Info>, b: map<Id, Info>, n: Id)
    requires SameButPos(a, b) && n in a
    ensures n in b && b[n].addr == a[n].addr
  {
    assert b[n].(randomPos := a[n].randomPos) == a[n];
  }

  lemma CollectedKept(m: Man, n: nat, p: nat, got: seq<Address>, now: int)
    requires RandomOk(m.info, m.random) && AddrOk(m.info, m.addr) && n <= p < |m.random|
    requires m.random[n] in m.info && m.random[p] in m.info && Collected(m, got, n, now)
    ensures Collected(SwapRandom(m, n, p), got, n + 1, now)
    ensures forall j :: 0 <= j < |got| ==> got[j].service.ip != m.info[m.random[p]].Ip()
  {
    hide RandomOk, AddrOk, SwapRandom, SameButPos, Offered, ListedBefore;
    SwapSameButPos(m, n, p);
    var t := SwapRandom(m, n, p);
    forall j | 0 <= j < |got|
      ensures Offered(t, got[j], now) && ListedBefore(t, got[j].service.ip, n + 1)
              && got[j].service.ip != m.info[m.random[p]].Ip()
    {
      OfferedSame(m, t, got[j], now);
      ListedStill(m, n, p, got[j].service.ip);
    }
  }

  lemma ListedStill(m: Man, n: nat, p: nat, ip: Ip)
    requires RandomOk(m.info, m.random) && AddrOk(m.info, m.addr) && n <= p < |m.random|
    requires m.random[n] in m.info && m.random[p] in m.info && ListedBefore(m, ip, n)
    ensures ListedBefore(SwapRandom(m, n, p), ip, n + 1) && m.info[m.random[p]].Ip() != ip
  {
    var i :| 0 <= i < n && i < |m.random| && m.random[i] in m.info && m.info[m.random[i]].Ip() == ip;
    RandomIn(m.info, m.random, i);
    RandomIn(m.info, m.random, p);
    assert m.addr[m.info[m.random[p]].Ip()] == m.random[p] && m.addr[ip] == m.random[i];
    hide RandomOk, AddrOk;
    SwapSameButPos(m, n, p);
    var t := SwapRandom(m, n, p);
    assert t.random[i] == m.random[i];
    assert t.info[t.random[i]].(randomPos := m.info[m.random[i]].randomPos) == m.info[m.random[i]];
  }

  // ----- Runs

  datatype Op =
    | OpAdd(routable: bool, addr: Address, source: Ip, penalty: int, now: int, rnd: nat)
    | OpGood(s: Service, goodTime: int)
    | OpAttempt(s: Service, countFailure: bool, time: int)
    | OpConnected(s: Service, time: int)
    | OpSetServices(s: Service, services: set<nat>)
    | OpGetAddr(rnds: nat -> nat, now: int)

  /** Clocks: a success is dated after the epoch, an attempt not before it. */
  predicate Dated(op: Op) {
    && (op.OpGood? ==> op.goodTime > 0)
    && (op.OpAttempt? ==> op.time >= 0)
  }

  ghost function Step(h: Hasher, m: Man, op: Op): Man
    requires Valid(h, m) && Dated(op)
  {
    match op
    case OpAdd(routable, addr, source, penalty, now, rnd) => Add(h, m, routable, addr, source, penalty, now, rnd).0
    case OpGood(s, time) => Good(h, m, s, time)
    case OpAttempt(s, countFailure, time) => Attempt(m, s, countFailure, time)
    case OpConnected(s, time) => Connected(m, s, time)
    case OpSetServices(s, services) => SetServices(m, s, services)
    case OpGetAddr(rnds, now) => GetAddr(h, m, rnds, now).0
  }

  lemma StepKeeps(h: Hasher, m: Man, op: Op)
    requires Valid(h, m) && Dated(op)
    ensures Valid(h, Step(h, m, op))
  {
    hide Core, Add, Good, Attempt, Connected, SetServices, Sample;
    match op
    case OpAdd(routable, addr, source, penalty, now, rnd) => AddKeeps(h, m, routable, addr, source, penalty, now, rnd);
    case OpGood(s, time) => GoodKeeps(h, m, s, time);
    case OpAttempt(s, countFailure, time) => AttemptKeeps(h, m, s, countFailure, time);
    case OpConnected(s, time) => ConnectedKeeps(h, m, s, time);
    case OpSetServices(s, services) => SetServicesKeeps(h, m, s, services);
    case OpGetAddr(rnds, now) => SampleKeeps(h, m, 0, SampleSize(m), [], rnds, now);
  }

  /** A state reached by some run of dated operations from the empty manager. */
  ghost predicate Reached(h: Hasher, ops: seq<Op>, states: seq<Man>) {
    && |states| == |ops| + 1 && states[0] == EMPTY
    && forall k :: 0 <= k < |ops| ==> Dated(ops[k]) && (Valid(h, states[k]) ==> states[k + 1] == Step(h, states[k], ops[k]))
  }

  /** Every state of every run satisfies the whole consistency check. */
  lemma {:induction false} RunsStayValid(h: Hasher, ops: seq<Op>, states: seq<Man>, k: nat)
    requires Reached(h, ops, states) && k <= |ops|
    ensures Valid(h, states[k])
  {
    hide Core, Step;
    if k == 0 {
      EmptyIsValid(h);
    } else {
      RunsStayValid(h, ops, states, k - 1);
      assert Dated(ops[k - 1]);
      StepKeeps(h, states[k - 1], ops[k - 1]);
    }
  }
}
