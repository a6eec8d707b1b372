/** What the address manager's operations do to entries and slots (src/addrman.cpp). */
module AddrManEffects {
  import opened Options
  import opened Powers
  import opened AddrMan
  import opened AddrManRuns

  /** Entry `k` is as it was, up to its position in the random list. */
  ghost predicate Same(a: map<Id, Info>, b: map<Id, Info>, k: Id) {
    k in a && k in b && b[k].(randomPos := a[k].randomPos) == a[k]
  }

  /** Entry `k` has become `i`, up to its position in the random list. */
  ghost predicate Becomes(b: map<Id, Info>, k: Id, i: Info) {
    k in b && b[k].(randomPos := i.randomPos) == i
  }

  /** Entry `x` has lost one slot of the new table, and is gone if that was its last. */
  ghost predicate LosesOne(a: map<Id, Info>, b: map<Id, Info>, x: Id) {
    x in a && if a[x].refCount == 1 then x !in b else Becomes(b, x, a[x].(refCount := a[x].refCount - 1))
  }

  /** All entries but those of `but` are as they were, and only `more` may be new. */
  ghost predicate OthersSame(a: map<Id, Info>, b: map<Id, Info>, but: set<Id>, more: set<Id>) {
    (forall k :: k in a && k !in but ==> Same(a, b, k)) && b.Keys <= a.Keys + more
  }

  // ----- Emptying a slot

  /** Who holds a slot of the new table. */
  function Holder(m: Man, s: Slot): set<Id> {
    if s in m.news then {m.news[s]} else {}
  }

  lemma ClearNewEffect(h: Hasher, m: Man, s: Slot, limbo: set<Id>, debt: nat)
    requires Core(h, m, limbo, debt)
    ensures CanClear(m, s)
    ensures var t := ClearNew(m, s);
      && t.news == m.news - {s} && t.tried == m.tried && t.idCount == m.idCount && t.lastGood == m.lastGood
      && (s in m.news ==> LosesOne(m.info, t.info, m.news[s])) && OthersSame(m.info, t.info, Holder(m, s), {})
  {
    hide Core;
    ClearNewKeeps(h, m, s, limbo, debt);
    if s in m.news {
      var n := m.news[s];
      VacateKeeps(h, m, s, limbo, debt);
      var t := VacateSlot(m, s);
      if t.info[n].refCount == 0 {
        DeleteKeeps(h, t, n, limbo + {n}, debt);
        assert Delete(t, n).info.Keys == t.info.Keys - {n};
      }
    }
  }

  // ----- Adding

  /** The slot an address gets in the bucket its source selects. */
  function SourceSlot(h: Hasher, s: Service, source: Ip): Slot {
    h.NewSlot(s, h.NewBucket(s, source))
  }

  /** The slot can be given to an entry: it is free, or its holder is terrible or, against a newcomer, has other slots. */
  predicate HasRoom(m: Man, s: Slot, newcomer: bool, now: int) {
    s in m.news ==> m.news[s] in m.info && (IsTerrible(m.info[m.news[s]], now) || (newcomer && m.info[m.news[s]].refCount > 1))
  }

  /** Entry `n` gets slot `s`, whose holder loses it. */
  ghost predicate GetsSlot(m: Man, r: Man, n: Id, s: Slot) {
    && n in m.info && r.news == m.news[s := n] && Becomes(r.info, n, m.info[n].(refCount := m.info[n].refCount + 1))
    && (s in m.news ==> LosesOne(m.info, r.info, m.news[s])) && OthersSame(m.info, r.info, Holder(m, s) + {n}, {})
  }

  ghost predicate SameButInfo(m: Man, r: Man) {
    r.tried == m.tried && r.idCount == m.idCount && r.lastGood == m.lastGood
  }

  lemma InsertEffect(h: Hasher, m: Man, n: Id, source: Ip, now: int, limbo: set<Id>)
    requires Core(h, m, limbo, 0) && n in m.info && (limbo == {n} || limbo == {}) && !m.info[n].inTried
    requires m.info[n].refCount == 0 ==> n in limbo
    ensures var s, r := SourceSlot(h, m.info[n].addr.service, source), Insert(h, m, n, source, now, limbo);
      && SameButInfo(m, r)
      && if s in m.news && m.news[s] == n then r == m
         else if HasRoom(m, s, m.info[n].refCount == 0, now) then GetsSlot(m, r, n, s)
         else if m.info[n].refCount == 0 then r.news == m.news && n !in r.info && OthersSame(m.info, r.info, {n}, {})
         else r == m
  {
    hide Core, ClearNew, Delete;
    var i := m.info[n];
    var s := SourceSlot(h, i.addr.service, source);
    HolderIn(h, m, s, limbo);
    if s in m.news && m.news[s] == n {
    } else if HasRoom(m, s, i.refCount == 0, now) {
      ClearNewEffect(h, m, s, limbo, 0);
      GivenSlot(m, ClearNew(m, s), n, s);
    } else if i.refCount == 0 {
      DeleteKeeps(h, m, n, limbo, 0);
      DeleteRest(m, n);
    }
  }

  lemma HolderIn(h: Hasher, m: Man, s: Slot, limbo: set<Id>)
    requires Core(h, m, limbo, 0)
    ensures s in m.news ==> m.news[s] in m.info
  {
    assert NewOk(h, m.info, m.news);
  }

  lemma GivenSlot(m: Man, t: Man, n: Id, s: Slot)
    requires n in m.info && n in t.info && (s in m.news ==> m.news[s] != n) && t.news == m.news - {s} && SameButInfo(m, t)
    requires (s in m.news ==> LosesOne(m.info, t.info, m.news[s])) && OthersSame(m.info, t.info, Holder(m, s), {})
    ensures SameButInfo(m, PlaceNew(t, n, s)) && GetsSlot(m, PlaceNew(t, n, s), n, s)
  {
    assert (m.news - {s})[s := n] == m.news[s := n];
    assert Same(m.info, t.info, n);
  }

  lemma DeleteRest(m: Man, n: Id)
    requires CanDelete(m, n) && SameButPos(m.info - {n}, Delete(m, n).info)
    ensures SameButInfo(m, Delete(m, n)) && n !in Delete(m, n).info && OthersSame(m.info, Delete(m, n).info, {n}, {})
  {
    assert Delete(m, n).info.Keys == m.info.Keys - {n};
  }

  /** The entry of an address heard of for the first time. */
  function FirstEntry(a: Address, source: Ip, penalty: int): Info {
    Info(Address(a.service, Max(0, a.time - penalty), a.services), source, 0, 0, 0, 0, 0, false, -1)
  }

  function Penalty(a: Address, source: Ip, penalty: int): int {
    if a.service.ip == source then 0 else penalty
  }

  /** An address that cannot be routed changes nothing and is not new; another is new if and only if its ip was unknown. */
  lemma AddTells(h: Hasher, m: Man, routable: bool, a: Address, source: Ip, penalty: int, now: int, rnd: nat)
    requires Valid(h, m)
    ensures !routable ==> Add(h, m, routable, a, source, penalty, now, rnd) == (m, false)
    ensures Add(h, m, routable, a, source, penalty, now, rnd).1 <==> routable && a.service.ip !in m.addr
  {
    hide Core, Insert;
    FindIn(h, m, a.service.ip);
  }

  /**
   * A new address: it is known afterwards if and only if its slot was free or its holder terrible or in other slots too.
   * Then its entry is in that slot alone and the holder has lost it.  No other entry changes.
   */
  lemma AddUnknown(h: Hasher, m: Man, a: Address, source: Ip, penalty: int, now: int, rnd: nat)
    requires Valid(h, m) && a.service.ip !in m.addr
    ensures var s, r := SourceSlot(h, a.service, source), Add(h, m, true, a, source, penalty, now, rnd).0;
      var n, room := m.idCount, HasRoom(m, s, true, now);
      && (a.service.ip in r.addr <==> room) && r.tried == m.tried && r.lastGood == m.lastGood && r.idCount == n + 1
      && r.news == (if room then m.news[s := n] else m.news)
      && (room ==> r.addr[a.service.ip] == n && Becomes(r.info, n, FirstEntry(a, source, Penalty(a, source, penalty)).(refCount := 1)))
      && (room && s in m.news ==> LosesOne(m.info, r.info, m.news[s]))
      && OthersSame(m.info, r.info, if room then Holder(m, s) else {}, if room then {n} else {})
  {
    hide Core, Insert, Add, IsTerrible, Created, Becomes, LosesOne, OthersSame, GetsSlot, AddrOk, HasRoom;
    var pen := Penalty(a, source, penalty);
    var s, n := SourceSlot(h, a.service, source), m.idCount;
    var c, r := Created(m, a, source, pen), Add(h, m, true, a, source, penalty, now, rnd).0;
    AddInserts(h, m, a, source, penalty, now, rnd);
    CreatedIs(h, m, a, source, pen, s, now);
    InsertEffect(h, c, n, source, now, {n});
    CoreAddr(h, m);
    CoreAddr(h, r);
    AfterCreated(m, c, r, n, s, a.service.ip, HasRoom(m, s, true, now), FirstEntry(a, source, pen));
  }

  /** A new address is created and then inserted. */
  lemma AddInserts(h: Hasher, m: Man, a: Address, source: Ip, penalty: int, now: int, rnd: nat)
    requires Valid(h, m) && a.service.ip !in m.addr
    ensures var c, n := Created(m, a, source, Penalty(a, source, penalty)), m.idCount;
      && Core(h, c, {n}, 0) && n in c.info && !c.info[n].inTried && c.info[n].refCount == 0
      && Add(h, m, true, a, source, penalty, now, rnd).0 == Insert(h, c, n, source, now, {n})
    ensures Valid(h, Add(h, m, true, a, source, penalty, now, rnd).0)
  {
    hide Core, Insert;
    var pen := Penalty(a, source, penalty);
    FindIn(h, m, a.service.ip);
    CreateKeeps(h, m, a.(time := Max(0, a.time - pen)), source);
    AddKeeps(h, m, true, a, source, penalty, now, rnd);
  }

  lemma CreatedIs(h: Hasher, m: Man, a: Address, source: Ip, pen: int, s: Slot, now: int)
    requires Valid(h, m)
    ensures var c, n := Created(m, a, source, pen), m.idCount;
      && n !in m.info && Becomes(c.info, n, FirstEntry(a, source, pen)) && c.info == m.info[n := c.info[n]]
      && c.news == m.news && c.tried == m.tried && c.lastGood == m.lastGood && c.idCount == n + 1
      && c.info[n].addr.service == a.service && c.info[n].refCount == 0
      && (s in m.news ==> m.news[s] != n && m.news[s] in m.info) && HasRoom(c, s, true, now) == HasRoom(m, s, true, now)
  {
    hide Core, IsTerrible;
    HolderIn(h, m, s, {});
    IdFree(h, m, {}, 0);
  }

  lemma AfterCreated(m: Man, c: Man, r: Man, n: Id, s: Slot, ip: Ip, room: bool, i: Info)
    requires n !in m.info && Becomes(c.info, n, i) && i.refCount == 0 && i.Ip() == ip && c.info == m.info[n := c.info[n]] && c.news == m.news
    requires s in m.news ==> m.news[s] != n && m.news[s] in m.info
    requires AddrOk(r.info, r.addr) && ip !in m.addr && AddrOk(m.info, m.addr)
    requires if room then GetsSlot(c, r, n, s) else r.news == c.news && n !in r.info && OthersSame(c.info, r.info, {n}, {})
    ensures (ip in r.addr <==> room) && r.news == (if room then m.news[s := n] else m.news)
    ensures room ==> r.addr[ip] == n && Becomes(r.info, n, i.(refCount := 1))
    ensures room && s in m.news ==> LosesOne(m.info, r.info, m.news[s])
    ensures OthersSame(m.info, r.info, if room then Holder(m, s) else {}, if room then {n} else {})
  {
    hide AddrOk, LosesOne, OthersSame;
    if room {
      NewEntryIs(r, n, ip, i);
      NotThere(m, c, r, n, Holder(m, s), if s in m.news then m.news[s] else n);
    } else {
      assert {} + {n} == {n};
      NotThere(m, c, r, n, {}, n);
      StillUnknown(m, r, ip);
    }
  }

  lemma NewEntryIs(r: Man, n: Id, ip: Ip, i: Info)
    requires AddrOk(r.info, r.addr) && Becomes(r.info, n, i.(refCount := 1)) && i.Ip() == ip
    ensures ip in r.addr && r.addr[ip] == n
  {
    assert r.info[n].Ip() == ip;
  }

  /** Comparing with the entries before `n` was created. */
  lemma NotThere(m: Man, c: Man, r: Man, n: Id, but: set<Id>, x: Id)
    requires n in c.info && n !in m.info && n !in but && c.info == m.info[n := c.info[n]] && OthersSame(c.info, r.info, but + {n}, {})
    ensures OthersSame(m.info, r.info, but, {n}) && (n !in r.info ==> OthersSame(m.info, r.info, but, {}))
    ensures x != n && LosesOne(c.info, r.info, x) ==> LosesOne(m.info, r.info, x)
  {
    hide Becomes;
    forall k | k in m.info ensures k in c.info && c.info[k] == m.info[k] {}
  }

  lemma StillUnknown(m: Man, r: Man, ip: Ip)
    requires AddrOk(m.info, m.addr) && AddrOk(r.info, r.addr) && ip !in m.addr && OthersSame(m.info, r.info, {}, {})
    ensures ip !in r.addr
  {
    forall k | k in r.info ensures r.info[k].Ip() != ip {
      assert Same(m.info, r.info, k);
      assert m.info[k].Ip() in m.addr;
    }
  }

  /** The time of a known entry after it was heard of again. */
  function HeardTime(i: Info, a: Address, penalty: int, now: int): int {
    var interval := if now - a.time < 86400 then 3600 else 86400;
    if a.time != 0 && (i.addr.time == 0 || i.addr.time < a.time - interval - penalty) then Max(0, a.time - penalty) else i.addr.time
  }

  /** What a known entry takes over: newer time and the services of both, its own address and port kept. */
  function Heard(i: Info, a: Address, penalty: int, now: int): Info {
    i.(addr := Address(i.addr.service, HeardTime(i, a, penalty, now), i.addr.services + a.services))
  }

  /**
   * A known address: its entry takes over time and services.  It gets one more slot if and only if the news is newer
   * than its time, it is untried and in fewer than eight slots, the draw allows it, and its slot is free or its holder
   * terrible; then the holder has lost it.  No other entry changes.
   */
  lemma AddKnown(h: Hasher, m: Man, a: Address, source: Ip, penalty: int, now: int, rnd: nat)
    requires Valid(h, m) && a.service.ip in m.addr && m.addr[a.service.ip] in m.info
    ensures var n, r := m.addr[a.service.ip], Add(h, m, true, a, source, penalty, now, rnd).0;
      var i := Heard(m.info[n], a, Penalty(a, source, penalty), now);
      var s := SourceSlot(h, i.addr.service, source);
      var gets := && a.time != 0 && (i.addr.time == 0 || i.addr.time < a.time) && !i.inTried && i.refCount < 8
                  && rnd % Pow2(i.refCount) == 0 && (s in m.news ==> m.news[s] != n) && HasRoom(m, s, false, now);
      && SameButInfo(m, r)
      && r.news == (if gets then m.news[s := n] else m.news)
      && Becomes(r.info, n, i.(refCount := i.refCount + if gets then 1 else 0))
      && (gets && s in m.news ==> LosesOne(m.info, r.info, m.news[s]))
      && OthersSame(m.info, r.info, (if gets then Holder(m, s) else {}) + {n}, {})
  {
    hide Core, Insert, Add, IsTerrible, Heard, Pow2, MayRepeat, Becomes, LosesOne, OthersSame, GetsSlot, HasRoom;
    var n, pen := m.addr[a.service.ip], Penalty(a, source, penalty);
    var i := Heard(m.info[n], a, pen, now);
    var s := SourceSlot(h, i.addr.service, source);
    var t, r := m.(info := m.info[n := i]), Add(h, m, true, a, source, penalty, now, rnd).0;
    AddRefreshes(h, m, a, source, penalty, now, rnd);
    RepeatIff(i, a, rnd);
    HolderIn(h, m, s, {});
    RoomStill(m, n, i, s, now);
    if MayRepeat(i, a, rnd) {
      InsertEffect(h, t, n, source, now, {});
    }
    if MayRepeat(i, a, rnd) && (s in m.news ==> m.news[s] != n) && HasRoom(m, s, false, now) {
      AfterRefresh(m, t, r, n, s, i);
    } else {
      assert {} + {n} == {n};
      JustRefreshed(m, n, i);
    }
  }

  /** A known address is refreshed, and then inserted where it may be repeated. */
  lemma AddRefreshes(h: Hasher, m: Man, a: Address, source: Ip, penalty: int, now: int, rnd: nat)
    requires Valid(h, m) && a.service.ip in m.addr && m.addr[a.service.ip] in m.info
    ensures var n := m.addr[a.service.ip];
      var i := Heard(m.info[n], a, Penalty(a, source, penalty), now);
      var t := m.(info := m.info[n := i]);
      && Valid(h, t) && i.addr.service == m.info[n].addr.service && i.refCount <= 8 && (!i.inTried ==> i.refCount > 0)
      && (MayRepeat(i, a, rnd) ==> !i.inTried)
      && Add(h, m, true, a, source, penalty, now, rnd).0 == if MayRepeat(i, a, rnd) then Insert(h, t, n, source, now, {}) else t
  {
    hide Core, Insert, Refresh, IsTerrible, Pow2;
    var n, pen := m.addr[a.service.ip], Penalty(a, source, penalty);
    RefreshKeeps(h, m, n, a, pen, now);
    RefreshIs(m.info[n], a, pen, now);
    RefsIn(h, m, n);
  }

  lemma RepeatIff(i: Info, a: Address, rnd: nat)
    requires i.refCount <= 8 && (!i.inTried ==> i.refCount > 0)
    ensures MayRepeat(i, a, rnd) <==>
      a.time != 0 && (i.addr.time == 0 || i.addr.time < a.time) && !i.inTried && i.refCount < 8 && rnd % Pow2(i.refCount) == 0
  {
    hide Pow2;
  }

  lemma RoomStill(m: Man, n: Id, i: Info, s: Slot, now: int)
    requires s in m.news ==> m.news[s] in m.info
    ensures (s in m.news ==> m.news[s] != n) ==> (HasRoom(m.(info := m.info[n := i]), s, false, now) <==> HasRoom(m, s, false, now))
  {
    hide IsTerrible;
  }

  lemma JustRefreshed(m: Man, n: Id, i: Info)
    requires n in m.info
    ensures Becomes(m.info[n := i], n, i) && OthersSame(m.info, m.info[n := i], {n}, {})
  {
  }

  lemma RefreshIs(i: Info, a: Address, penalty: int, now: int)
    ensures Refresh(i, a, penalty, now) == Heard(i, a, penalty, now)
  {
  }

  lemma RefsIn(h: Hasher, m: Man, n: Id)
    requires Valid(h, m) && n in m.info
    ensures m.info[n].refCount <= 8 && (!m.info[n].inTried ==> m.info[n].refCount > 0)
  {
    assert RefOk(m.info, m.news, {});
  }

  lemma AfterRefresh(m: Man, t: Man, r: Man, n: Id, s: Slot, i: Info)
    requires n in m.info && t == m.(info := m.info[n := i]) && (s in m.news ==> m.news[s] in m.info)
    requires GetsSlot(t, r, n, s) && (s in m.news ==> m.news[s] != n)
    ensures r.news == m.news[s := n] && Becomes(r.info, n, i.(refCount := i.refCount + 1))
    ensures (s in m.news ==> LosesOne(m.info, r.info, m.news[s])) && OthersSame(m.info, r.info, Holder(m, s) + {n}, {})
  {
  }

  // ----- Marking as good

  /** Entry `x` goes back from its tried slot to the new slot of its own source, whose holder loses it. */
  ghost predicate GoesBack(h: Hasher, m: Man, r: Man, x: Id) {
    && x in m.info && var u := HomeSlot(h, m.info[x]);
    && r.news == m.news[u := x] && Becomes(r.info, x, m.info[x].(inTried := false, refCount := 1))
    && (u in m.news ==> LosesOne(m.info, r.info, m.news[u])) && OthersSame(m.info, r.info, Holder(m, u) + {x}, {})
  }

  lemma EvictEffect(h: Hasher, m: Man, s: Slot, limbo: set<Id>, debt: nat)
    requires Core(h, m, limbo, debt) && s in m.tried
    ensures m.tried[s] in m.info && CanEvict(h, m, s)
    ensures var r := Evict(h, m, s);
      GoesBack(h, m, r, m.tried[s]) && r.tried == m.tried - {s} && r.idCount == m.idCount && r.lastGood == m.lastGood
    ensures HomeSlot(h, m.info[m.tried[s]]) in m.news ==> m.news[HomeSlot(h, m.info[m.tried[s]])] != m.tried[s]
  {
    hide Core, ClearNew;
    EvictKeeps(h, m, s, limbo, debt);
    UntryKeeps(h, m, s, limbo, debt);
    var x, t := m.tried[s], Untry(m, s);
    var u := HomeSlot(h, m.info[x]);
    ClearNewKeeps(h, t, u, limbo + {x}, debt + 1);
    ClearNewEffect(h, t, u, limbo + {x}, debt + 1);
    var c := ClearNew(t, u);
    assert (m.news - {u})[u := x] == m.news[u := x];
    assert Same(t.info, c.info, x);
  }

  /** The service has an entry of its own. */
  predicate Known(m: Man, s: Service) {
    s.ip in m.addr && m.addr[s.ip] in m.info && m.info[m.addr[s.ip]].addr.service == s
  }

  /** Without an entry for the service only the time of the last success changes. */
  lemma GoodUnknown(h: Hasher, m: Man, s: Service, time: int)
    requires Valid(h, m) && time > 0 && !Known(m, s)
    ensures Good(h, m, s, time) == m.(lastGood := time)
  {
    hide Core;
  }

  /** The entry of a service after a success. */
  function Reached(i: Info, time: int): Info {
    i.(lastSuccess := time, lastTry := time, attempts := 0, inTried := true, refCount := 0)
  }

  /**
   * The entry of a service that was reached is in its tried slot, in no new slot, and its failures are forgotten.
   * Whoever held the tried slot is untried again and sits in the new slot of its own source, whose holder has lost it.
   * No other entry changes.
   */
  lemma GoodKnown(h: Hasher, m: Man, s: Service, time: int)
    requires Valid(h, m) && time > 0 && Known(m, s)
    ensures var n, k, r := m.addr[s.ip], h.TriedSlot(s), Good(h, m, s, time);
      && Becomes(r.info, n, Reached(m.info[n], time)) && r.tried == m.tried[k := n] && r.lastGood == time && r.idCount == m.idCount
      && if k in m.tried && m.tried[k] != n then
           var x := m.tried[k];
           && x in m.info && var u := HomeSlot(h, m.info[x]);
           && r.news == (m.news - Slots(m.news, n))[u := x] && Becomes(r.info, x, m.info[x].(inTried := false, refCount := 1))
           && (u in m.news && m.news[u] != n ==> LosesOne(m.info, r.info, m.news[u]))
           && OthersSame(m.info, r.info, Holder(m, u) + {x, n}, {})
         else r.news == m.news - Slots(m.news, n) && OthersSame(m.info, r.info, {n}, {})
  {
    hide Core, Good, MakeTried, CanMakeTried, InSomeBucket, Becomes, LosesOne, OthersSame, VacateAll, Slots;
    var n, k := m.addr[s.ip], h.TriedSlot(s);
    var u := m.(lastGood := time, info := m.info[n := Marked(m.info[n], time)]);
    GoodMoves(h, m, s, time);
    TriedPlace(h, m, n);
    if m.info[n].inTried {
      OnlyMarked(m, n, time);
    } else {
      MakeTriedEffect(h, u, n);
      assert VacateAll(u, n).news == m.news - Slots(m.news, n) by { VacatedNews(u, n); }
      AfterMarked(h, m, u, Good(h, m, s, time), n, k, time);
    }
  }

  /** A known entry is marked, and moves to the tried table unless it is there. */
  lemma GoodMoves(h: Hasher, m: Man, s: Service, time: int)
    requires Valid(h, m) && time > 0 && Known(m, s)
    ensures var n := m.addr[s.ip];
      var u := m.(lastGood := time, info := m.info[n := Marked(m.info[n], time)]);
      && Valid(h, u) && (!m.info[n].inTried ==> CanMakeTried(h, u, n))
      && Good(h, m, s, time) == if m.info[n].inTried then u else MakeTried(h, u, n)
  {
    hide Core, MakeTried, CanMakeTried, InSomeBucket;
    var n := m.addr[s.ip];
    var u := m.(lastGood := time, info := m.info[n := Marked(m.info[n], time)]);
    MarkedKeeps(h, m, n, time);
    GoodCanMove(h, m, n, time);
    UntriedIsInSomeBucket(h, u, n);
  }

  lemma VacatedNews(m: Man, n: Id)
    requires n in m.info
    ensures VacateAll(m, n).news == m.news - Slots(m.news, n)
  {
  }

  lemma OnlyMarked(m: Man, n: Id, time: int)
    requires n in m.info && m.info[n].inTried && m.info[n].refCount == 0 && Slots(m.news, n) == {}
    ensures var u := m.(lastGood := time, info := m.info[n := Marked(m.info[n], time)]);
      && Becomes(u.info, n, Reached(m.info[n], time)) && u.news == m.news - Slots(m.news, n) && OthersSame(m.info, u.info, {n}, {})
  {
    assert m.news - {} == m.news;
  }

  /** A tried entry is in its tried slot and in no new slot, an untried one in no tried slot. */
  lemma TriedPlace(h: Hasher, m: Man, n: Id)
    requires Valid(h, m) && n in m.info
    ensures var k := h.TriedSlot(m.info[n].addr.service);
      if m.info[n].inTried then k in m.tried && m.tried[k] == n && Slots(m.news, n) == {} && m.info[n].refCount == 0
      else k in m.tried ==> m.tried[k] != n
  {
    assert TriedOk(h, m.info, m.tried) && RefOk(m.info, m.news, {});
  }

  lemma MakeTriedEffect(h: Hasher, m: Man, n: Id)
    requires Valid(h, m) && n in m.info && !m.info[n].inTried && m.info[n].lastSuccess != 0
    ensures CanMakeTried(h, m, n)
    ensures var k, v, r := h.TriedSlot(m.info[n].addr.service), VacateAll(m, n), MakeTried(h, m, n);
      && Becomes(r.info, n, m.info[n].(inTried := true, refCount := 0)) && r.tried == m.tried[k := n]
      && r.idCount == m.idCount && r.lastGood == m.lastGood
      && if k in m.tried then
           var x := m.tried[k];
           && x != n && x in m.info && var u := HomeSlot(h, m.info[x]);
           && r.news == v.news[u := x] && Becomes(r.info, x, m.info[x].(inTried := false, refCount := 1))
           && (u in v.news ==> v.news[u] != n && LosesOne(m.info, r.info, v.news[u])) && OthersSame(m.info, r.info, Holder(v, u) + {x, n}, {})
         else r.news == v.news && OthersSame(m.info, r.info, {n}, {})
  {
    hide Core, Evict, CanEvict, MakeTried, VacateAll, Becomes, LosesOne, OthersSame;
    MakeTriedKeeps(h, m, n);
    TriedPlace(h, m, n);
    if h.TriedSlot(m.info[n].addr.service) in m.tried {
      TakesHeld(h, m, n);
    } else {
      TakesFree(h, m, n);
    }
  }

  lemma TakesFree(h: Hasher, m: Man, n: Id)
    requires Valid(h, m) && n in m.info && !m.info[n].inTried && CanMakeTried(h, m, n) && h.TriedSlot(m.info[n].addr.service) !in m.tried
    ensures var k, v, r := h.TriedSlot(m.info[n].addr.service), VacateAll(m, n), MakeTried(h, m, n);
      && Becomes(r.info, n, m.info[n].(inTried := true, refCount := 0)) && r.tried == m.tried[k := n]
      && r.idCount == m.idCount && r.lastGood == m.lastGood && r.news == v.news && OthersSame(m.info, r.info, {n}, {})
  {
    hide Core, Slots, Evict, CanEvict;
    VacateAllKeeps(h, m, n);
  }

  lemma TakesHeld(h: Hasher, m: Man, n: Id)
    requires Valid(h, m) && n in m.info && !m.info[n].inTried && CanMakeTried(h, m, n)
    requires var k := h.TriedSlot(m.info[n].addr.service); k in m.tried && m.tried[k] != n
    ensures var k, v, r := h.TriedSlot(m.info[n].addr.service), VacateAll(m, n), MakeTried(h, m, n);
      && Becomes(r.info, n, m.info[n].(inTried := true, refCount := 0)) && r.tried == m.tried[k := n]
      && r.idCount == m.idCount && r.lastGood == m.lastGood
      && var x := m.tried[k];
      && x in m.info && var u := HomeSlot(h, m.info[x]);
      && r.news == v.news[u := x] && Becomes(r.info, x, m.info[x].(inTried := false, refCount := 1))
      && (u in v.news ==> v.news[u] != n && LosesOne(m.info, r.info, v.news[u])) && OthersSame(m.info, r.info, Holder(v, u) + {x, n}, {})
  {
    hide Core, Slots, Evict, CanEvict, Becomes, LosesOne, OthersSame, GoesBack;
    var k, v := h.TriedSlot(m.info[n].addr.service), VacateAll(m, n);
    VacateAllKeeps(h, m, n);
    EvictKeeps(h, v, k, {n}, 1);
    EvictEffect(h, v, k, {n}, 1);
    var x := m.tried[k];
    assert x in m.info && v.info[x] == m.info[x];
    NotHeld(h, v, n, HomeSlot(h, v.info[x]));
    assert (m.tried - {k})[k := n] == m.tried[k := n];
    AfterEvict(h, m, v, Evict(h, v, k), n, x, k);
  }

  lemma NotHeld(h: Hasher, m: Man, n: Id, u: Slot)
    requires Core(h, m, {n}, 1)
    ensures u in m.news ==> m.news[u] != n && m.news[u] in m.info
  {
    assert RefOk(m.info, m.news, {n}) && NewOk(h, m.info, m.news);
    NoSlots(m.news, n);
  }

  lemma AfterEvict(h: Hasher, m: Man, v: Man, e: Man, n: Id, x: Id, k: Slot)
    requires n in m.info && x in m.info && x != n && v.info == m.info[n := m.info[n].(refCount := 0)] && !m.info[n].inTried
    requires GoesBack(h, v, e, x)
    requires var u := HomeSlot(h, m.info[x]); u in v.news ==> v.news[u] != n && v.news[u] in m.info && v.news[u] != x
    ensures n in e.info
    ensures var r, u := Try(e, n, k), HomeSlot(h, m.info[x]);
      && Becomes(r.info, n, m.info[n].(inTried := true, refCount := 0))
      && r.news == v.news[u := x] && Becomes(r.info, x, m.info[x].(inTried := false, refCount := 1))
      && (u in v.news ==> LosesOne(m.info, r.info, v.news[u])) && OthersSame(m.info, r.info, Holder(v, u) + {x, n}, {})
  {
    assert Same(v.info, e.info, n);
  }

  lemma AfterMarked(h: Hasher, m: Man, u: Man, r: Man, n: Id, k: Slot, time: int)
    requires n in m.info && u == m.(lastGood := time, info := m.info[n := Marked(m.info[n], time)]) && (k in m.tried ==> m.tried[k] != n)
    requires Becomes(r.info, n, u.info[n].(inTried := true, refCount := 0))
    requires if k in m.tried then
        var x, v := m.tried[k], m.news - Slots(m.news, n);
        && x in u.info && var w := HomeSlot(h, u.info[x]);
        && Becomes(r.info, x, u.info[x].(inTried := false, refCount := 1))
        && (w in v ==> v[w] != n && LosesOne(u.info, r.info, v[w])) && OthersSame(u.info, r.info, (if w in v then {v[w]} else {}) + {x, n}, {})
      else OthersSame(u.info, r.info, {n}, {})
    ensures Becomes(r.info, n, Reached(m.info[n], time))
    ensures if k in m.tried then
        var x := m.tried[k];
        && x in m.info && var w := HomeSlot(h, m.info[x]);
        && Becomes(r.info, x, m.info[x].(inTried := false, refCount := 1))
        && (w in m.news && m.news[w] != n ==> LosesOne(m.info, r.info, m.news[w])) && OthersSame(m.info, r.info, Holder(m, w) + {x, n}, {})
      else OthersSame(m.info, r.info, {n}, {})
  {
    if k in m.tried {
      var x, v := m.tried[k], m.news - Slots(m.news, n);
      var w := HomeSlot(h, m.info[x]);
      assert w in v <==> w in m.news && m.news[w] != n;
      hide LosesOne, OthersSame, Slots;
      Before(m.info, n, u.info[n], r.info, (if w in v then {v[w]} else {}) + {x, n}, if w in v then v[w] else x);
      MoreBut(m.info, r.info, (if w in v then {v[w]} else {}) + {x, n}, Holder(m, w) + {x, n});
    } else {
      Before(m.info, n, u.info[n], r.info, {n}, n);
    }
  }

  lemma MoreBut(a: map<Id, Info>, b: map<Id, Info>, but: set<Id>, more: set<Id>)
    requires OthersSame(a, b, but, {}) && but <= more
    ensures OthersSame(a, b, more, {})
  {
  }

  /** Comparing with the entries before one of them changed. */
  lemma Before(a: map<Id, Info>, n: Id, i: Info, b: map<Id, Info>, but: set<Id>, y: Id)
    requires n in but && n in a && OthersSame(a[n := i], b, but, {})
    ensures OthersSame(a, b, but, {}) && (y != n && LosesOne(a[n := i], b, y) ==> LosesOne(a, b, y))
  {
  }

  // ----- Attempts, connections and services

  /** Nothing changes but the entry of exactly this service. */
  ghost predicate OnlyThis(m: Man, r: Man, s: Service) {
    && r == m.(info := r.info) && r.info.Keys == m.info.Keys
    && forall k :: k in m.info && m.info[k].addr.service != s ==> r.info[k] == m.info[k]
  }

  lemma FindServiceIs(h: Hasher, m: Man, s: Service, k: Id)
    requires Valid(h, m) && k in m.info
    ensures FindService(m, s) == Some(k) <==> m.info[k].addr.service == s
  {
    assert AddrOk(m.info, m.addr);
  }

  /** An attempt is dated; it counts as a failure where asked to and none was counted since the last success of any address. */
  lemma AttemptIs(h: Hasher, m: Man, s: Service, countFailure: bool, time: int)
    requires Valid(h, m)
    ensures var r := Attempt(m, s, countFailure, time);
      OnlyThis(m, r, s) && forall k :: k in m.info && m.info[k].addr.service == s ==>
        var i, counts := m.info[k], countFailure && m.info[k].lastCountAttempt < m.lastGood;
        r.info[k] == i.(lastTry := time, lastCountAttempt := if counts then time else i.lastCountAttempt,
                        attempts := if counts then i.attempts + 1 else i.attempts)
  {
    hide Core;
    AllFound(h, m, s);
  }

  lemma AllFound(h: Hasher, m: Man, s: Service)
    requires Valid(h, m)
    ensures forall k :: k in m.info ==> (FindService(m, s) == Some(k) <==> m.info[k].addr.service == s)
  {
    hide Core;
    forall k | k in m.info ensures FindService(m, s) == Some(k) <==> m.info[k].addr.service == s {
      FindServiceIs(h, m, s, k);
    }
  }

  /** However often an address is tried after the last success, at most one failure is counted. */
  lemma {:induction false} FailuresCountOnce(h: Hasher, m: Man, s: Service, times: seq<int>, k: Id)
    requires Valid(h, m) && k in m.info && (forall j :: 0 <= j < |times| ==> times[j] >= m.lastGood && times[j] >= 0)
    ensures var r := Attempts(m, s, times);
      && Valid(h, r) && r.lastGood == m.lastGood && k in r.info && r.info[k].addr == m.info[k].addr
      && r.info[k].attempts == m.info[k].attempts + Counted(m, s, times, k)
      && (Counted(m, s, times, k) == 1 ==> r.info[k].lastCountAttempt >= m.lastGood)
      && (Counted(m, s, times, k) == 0 ==> r.info[k].lastCountAttempt == m.info[k].lastCountAttempt)
  {
    hide Core, Attempt;
    if times != [] {
      var last := |times| - 1;
      FailuresCountOnce(h, m, s, times[..last], k);
      var r := Attempts(m, s, times[..last]);
      AttemptIs(h, r, s, true, times[last]);
      AttemptKeeps(h, r, s, true, times[last]);
    }
  }

  /** The manager after attempts at these times, each to be counted. */
  function Attempts(m: Man, s: Service, times: seq<int>): Man {
    if times == [] then m else Attempt(Attempts(m, s, times[..|times| - 1]), s, true, times[|times| - 1])
  }

  /** One if the address was tried at all and no failure had been counted since the last success. */
  function Counted(m: Man, s: Service, times: seq<int>, k: Id): int
    requires k in m.info
  {
    if times != [] && m.info[k].addr.service == s && m.info[k].lastCountAttempt < m.lastGood then 1 else 0
  }

  /** A connection dates the address to within twenty minutes, never back, and changes nothing else. */
  lemma ConnectedIs(h: Hasher, m: Man, s: Service, time: int)
    requires Valid(h, m)
    ensures var r := Connected(m, s, time);
      OnlyThis(m, r, s) && forall k :: k in m.info && m.info[k].addr.service == s ==>
        var was, now := m.info[k].addr.time, r.info[k].addr.time;
        && r.info[k] == m.info[k].(addr := m.info[k].addr.(time := now))
        && was <= now && time - now <= 1200 && (now == was || now == time) && (time - was <= 1200 ==> now == was)
  {
    hide Core;
    AllFound(h, m, s);
  }

  /** The services of an address become those given, and nothing else changes. */
  lemma SetServicesIs(h: Hasher, m: Man, s: Service, services: set<nat>)
    requires Valid(h, m)
    ensures var r := SetServices(m, s, services);
      OnlyThis(m, r, s) && forall k :: k in m.info && m.info[k].addr.service == s ==>
        r.info[k] == m.info[k].(addr := m.info[k].addr.(services := services))
  {
    hide Core;
    AllFound(h, m, s);
  }

  // ----- Terrible entries

  /** An entry heard of in the last thirty days and not tried in the last minute is terrible exactly by its failures. */
  lemma FailuresTell(i: Info, now: int)
    requires 0 < i.addr.time <= now + 600 && now - i.addr.time <= 30 * 86400 && (i.lastTry == 0 || now - i.lastTry > 60)
    ensures IsTerrible(i, now) <==>
            (i.lastSuccess == 0 && i.attempts >= 3) || (now - i.lastSuccess > 7 * 86400 && i.attempts >= 10)
  {
  }

  /** A terrible entry not dated ahead stays terrible until it changes. */
  lemma TerribleStays(i: Info, now: int, later: int)
    requires IsTerrible(i, now) && i.addr.time <= now + 600 && now <= later
    ensures IsTerrible(i, later)
  {
  }

  /** An entry tried in the last minute is spared, one dated more than ten minutes ahead is not otherwise. */
  lemma JustTriedIsSpared(i: Info, now: int)
    ensures i.lastTry != 0 && now - i.lastTry <= 60 ==> !IsTerrible(i, now)
    ensures i.addr.time - now > 600 && (i.lastTry == 0 || now - i.lastTry > 60) ==> IsTerrible(i, now)
  {
  }

  /** Without news or an attempt every entry becomes terrible in thirty days. */
  lemma SilentIsTerrible(i: Info, now: int)
    requires now - i.addr.time > 30 * 86400 && (i.lastTry == 0 || now - i.lastTry > 60)
    ensures IsTerrible(i, now)
  {
  }

  // ----- Sampling

  /** The entries from position `n` of the list on that are not terrible. */
  ghost function Decent(m: Man, n: nat, now: int): set<Id> {
    set i | n <= i < |m.random| && m.random[i] in m.info && !IsTerrible(m.info[m.random[i]], now) :: m.random[i]
  }

  function Least(a: int, b: int): int {
    if a < b then a else b
  }

  /** As many addresses are handed out as there are that are not terrible, up to the limit. */
  lemma {:induction false} SampleCount(h: Hasher, m: Man, n: nat, limit: nat, got: seq<Address>, rnd: nat -> nat, now: int)
    requires Valid(h, m) && n <= |m.random| && |got| <= limit
    ensures |Sample(h, m, n, limit, got, rnd, now).1| == Least(limit, |got| + |Decent(m, n, now)|)
    decreases |m.random| - n
  {
    hide Core, SwapRandom, SameButPos, IsTerrible, RandomOk, Sample, Decent;
    if n == |m.random| || |got| >= limit {
      SampleDone(h, m, n, limit, got, rnd, now);
      NoneDecent(m, now);
    } else {
      var p := rnd(n) % (|m.random| - n) + n;
      SwapKeeps(h, m, n, p, {}, 0);
      var t := SwapRandom(m, n, p);
      CoreRandom(h, m, {}, 0);
      SwapLength(m, n, p);
      DecentStep(m, n, p, now);
      var i := t.info[t.random[n]];
      var got' := if IsTerrible(i, now) then got else got + [i.addr];
      SampleUnfold(h, m, n, limit, got, rnd, now, t);
      SampleCount(h, t, n + 1, limit, got', rnd, now);
    }
  }

  lemma NoneDecent(m: Man, now: int)
    ensures Decent(m, |m.random|, now) == {}
  {
  }

  lemma DecentStep(m: Man, n: nat, p: nat, now: int)
    requires RandomOk(m.info, m.random) && n <= p < |m.random| && m.random[n] in m.info && m.random[p] in m.info
    ensures var t := SwapRandom(m, n, p);
      && n < |t.random| && t.random[n] in t.info
      && |Decent(m, n, now)| == |Decent(t, n + 1, now)| + if IsTerrible(t.info[t.random[n]], now) then 0 else 1
  {
    hide IsTerrible, SameButPos, RandomOk;
    var t := SwapRandom(m, n, p);
    SwapSameButPos(m, n, p);
    forall k | k in m.info ensures k in t.info && IsTerrible(t.info[k], now) == IsTerrible(m.info[k], now) {
      TerribleSame(m.info, t.info, k, now);
    }
    var x := t.random[n];
    assert x == m.random[p];
    forall i | n < i < |m.random| ensures t.random[i] != x {
      RandomIn(m.info, m.random, p);
      RandomIn(m.info, m.random, n);
      RandomIn(m.info, m.random, i);
    }
    var rest := Decent(t, n + 1, now);
    assert x !in rest;
    DecentSwapped(m, t, n, p, now);
  }

  lemma TerribleSame(a: map<Id, Info>, b: map<Id, Info>, k: Id, now: int)
    requires SameButPos(a, b) && k in a
    ensures k in b && IsTerrible(b[k], now) == IsTerrible(a[k], now)
  {
    assert b[k].(randomPos := a[k].randomPos) == a[k];
  }

  lemma DecentSwapped(m: Man, t: Man, n: nat, p: nat, now: int)
    requires n <= p < |m.random| && m.random[n] in m.info && m.random[p] in m.info && t == SwapRandom(m, n, p)
    requires forall k :: k in m.info ==> k in t.info && IsTerrible(t.info[k], now) == IsTerrible(m.info[k], now)
    ensures Decent(m, n, now) == Decent(t, n + 1, now) + if IsTerrible(t.info[m.random[p]], now) then {} else {m.random[p]}
  {
    hide IsTerrible;
    var x, rest := m.random[p], Decent(t, n + 1, now);
    assert t.info.Keys == m.info.Keys;
    forall k | k in Decent(m, n, now) ensures k in rest || (k == x && !IsTerrible(t.info[x], now)) {
      var i :| n <= i < |m.random| && m.random[i] == k && k in m.info && !IsTerrible(m.info[k], now);
      if i != p {
        var j := if i == n then p else i;
        assert t.random[j] == k;
      }
    }
    forall k | k in rest ensures k in Decent(m, n, now) {
      var j :| n + 1 <= j < |t.random| && t.random[j] == k && k in t.info && !IsTerrible(t.info[k], now);
      var i := if j == p then n else j;
      assert m.random[i] == k;
    }
    if !IsTerrible(t.info[x], now) {
      assert x in Decent(m, n, now);
    }
  }

  /** A request is answered with all that is not terrible, up to 23% of the list and 2500. */
  lemma GetAddrCount(h: Hasher, m: Man, rnd: nat -> nat, now: int)
    requires Valid(h, m)
    ensures |GetAddr(h, m, rnd, now).1| == Least(Least(2500, 23 * |m.random| / 100), |set n | n in m.info && !IsTerrible(m.info[n], now)|)
  {
    hide Core, Sample, IsTerrible, RandomOk;
    SampleCount(h, m, 0, SampleSize(m), [], rnd, now);
    CoreRandom(h, m, {}, 0);
    AllDecent(m, now);
  }

  lemma AllDecent(m: Man, now: int)
    requires RandomOk(m.info, m.random)
    ensures Decent(m, 0, now) == set n | n in m.info && !IsTerrible(m.info[n], now)
  {
    hide IsTerrible;
    forall n | n in m.info && !IsTerrible(m.info[n], now) ensures n in Decent(m, 0, now) {
      assert m.random[m.info[n].randomPos] == n;
    }
  }

  // ----- Slots

  /** Every slot is selected by the hashes that name it, and slots depend on hashes only by their remainders. */
  lemma EverySlotIsHashed(s: Service, source: Ip, b: nat, p: nat, i: nat, j: nat)
    requires p < 64
    ensures var h := Hasher(_ => 256 * i + b, (_, _) => 1024 * i + b, (_, _, _) => 64 * j + p);
      && (b < 1024 ==> SourceSlot(h, s, source) == Slot(b, p)) && (b < 256 ==> h.TriedSlot(s) == Slot(b, p))
  {
    DivisionIs(64 * j + p, 64, j, p);
    if b < 1024 {
      DivisionIs(1024 * i + b, 1024, i, b);
    }
    if b < 256 {
      DivisionIs(256 * i + b, 256, i, b);
    }
  }
}
