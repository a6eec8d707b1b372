/**
 * The address manager's tables (src/addrman.h, src/addrman.cpp): every known address has an id, an
 * entry in a randomly ordered list, and either one slot of the "tried" table or up to eight slots
 * of the "new" table.  Five redundant structures and two counters must agree after every change.
 */
module AddrMan {

  const NEW_BUCKET_COUNT := 1024
  const TRIED_BUCKET_COUNT := 256
  const BUCKET_SIZE := 64
  const NEW_BUCKETS_PER_ADDRESS := 8

  type Ip = nat
  type Id = nat

  datatype Service = Service(ip: Ip, port: nat)

  /** A gossiped address: where it is, when it was last seen, and what it offers. */
  datatype Address = Address(service: Service, time: int, services: set<nat>)

  datatype Info = Info(
    addr: Address, source: Ip,
    lastTry: int, lastCountAttempt: int, lastSuccess: int, attempts: int,
    refCount: int, inTried: bool, randomPos: int)
  {
    function Ip(): Ip {
      addr.service.ip
    }
  }

  function NewInfo(addr: Address, source: Ip): Info {
    Info(addr, source, 0, 0, 0, 0, 0, false, -1)
  }

  datatype Slot = Slot(bucket: nat, pos: nat)

  /** The keyed hashes behind bucket selection, left uninterpreted and reduced as the source does. */
  datatype Hasher = Hasher(tried: Service -> nat, fresh': (Service, Ip) -> nat, pos: (bool, nat, Service) -> nat)
  {
    function TriedSlot(s: Service): Slot {
      var b := tried(s) % TRIED_BUCKET_COUNT;
      Slot(b, pos(false, b, s) % BUCKET_SIZE)
    }

    function NewBucket(s: Service, source: Ip): nat {
      fresh'(s, source) % NEW_BUCKET_COUNT
    }

    /** Where an address goes within a given "new" bucket. */
    function NewSlot(s: Service, bucket: nat): Slot {
      Slot(bucket, pos(true, bucket, s) % BUCKET_SIZE)
    }
  }

  datatype Man = Man(
    idCount: nat, info: map<Id, Info>, addr: map<Ip, Id>, random: seq<Id>,
    nTried: int, tried: map<Slot, Id>, nNew: int, news: map<Slot, Id>, lastGood: int)

  const EMPTY := Man(0, map[], map[], [], 0, map[], 0, map[], 1)

  // ----- The invariant, one structure at a time

  /** The random list is a permutation of the ids, and every id knows its position. */
  ghost predicate RandomOk(info: map<Id, Info>, random: seq<Id>) {
    && (forall n :: n in info ==> 0 <= info[n].randomPos < |random| && random[info[n].randomPos] == n)
    && (forall i :: 0 <= i < |random| ==> random[i] in info && info[random[i]].randomPos == i)
  }

  /** The address index inverts the entry table. */
  ghost predicate AddrOk(info: map<Id, Info>, addr: map<Ip, Id>) {
    && (forall n :: n in info ==> info[n].Ip() in addr && addr[info[n].Ip()] == n)
    && (forall a :: a in addr ==> addr[a] in info && info[addr[a]].Ip() == a)
  }

  /** The tried table holds exactly the tried entries, each at its hashed slot. */
  ghost predicate TriedOk(h: Hasher, info: map<Id, Info>, tried: map<Slot, Id>) {
    && (forall s :: s in tried ==>
          tried[s] in info && info[tried[s]].inTried && h.TriedSlot(info[tried[s]].addr.service) == s)
    && (forall n :: n in info && info[n].inTried ==>
          h.TriedSlot(info[n].addr.service) in tried && tried[h.TriedSlot(info[n].addr.service)] == n)
  }

  /** The new table holds untried entries only, each at its hashed position within the bucket. */
  ghost predicate NewOk(h: Hasher, info: map<Id, Info>, news: map<Slot, Id>) {
    forall s :: s in news ==>
      && news[s] in info && !info[news[s]].inTried
      && s.bucket < NEW_BUCKET_COUNT && h.NewSlot(info[news[s]].addr.service, s.bucket) == s
  }

  /** The slots of the new table that hold `n`. */
  function Slots(news: map<Slot, Id>, n: Id): set<Slot> {
    set s | s in news && news[s] == n
  }

  /** Reference counts are exact; only entries in `limbo` may be in neither table. */
  ghost predicate RefOk(info: map<Id, Info>, news: map<Slot, Id>, limbo: set<Id>) {
    && (forall n :: n in info ==>
          && info[n].refCount == |Slots(news, n)| <= NEW_BUCKETS_PER_ADDRESS
          && (info[n].inTried ==> info[n].refCount == 0)
          && (!info[n].inTried && n !in limbo ==> info[n].refCount > 0))
    && (forall n :: n in limbo ==> n in info && !info[n].inTried && info[n].refCount == 0)
  }

  ghost predicate StatsOk(info: map<Id, Info>) {
    forall n :: n in info ==>
      && info[n].lastTry >= 0 && info[n].lastSuccess >= 0
      && (info[n].inTried ==> info[n].lastSuccess != 0)
  }

  function TriedIds(info: map<Id, Info>): set<Id> {
    set n | n in info && info[n].inTried
  }

  function NewIds(info: map<Id, Info>): set<Id> {
    set n | n in info && !info[n].inTried
  }

  /** The counters, with `debt` untried entries not counted yet. */
  predicate CountsOk(info: map<Id, Info>, nTried: int, nNew: int, debt: nat) {
    nTried == |TriedIds(info)| && nNew + debt == |NewIds(info)|
  }

  ghost predicate IdsOk(info: map<Id, Info>, idCount: nat) {
    forall n :: n in info ==> n < idCount
  }

  /** Everything the consistency check tests, while entries in `limbo` are between tables. */
  ghost predicate Core(h: Hasher, m: Man, limbo: set<Id>, debt: nat) {
    && RandomOk(m.info, m.random)
    && AddrOk(m.info, m.addr)
    && TriedOk(h, m.info, m.tried)
    && NewOk(h, m.info, m.news)
    && RefOk(m.info, m.news, limbo)
    && StatsOk(m.info)
    && CountsOk(m.info, m.nTried, m.nNew, debt)
    && IdsOk(m.info, m.idCount)
  }

  ghost predicate Valid(h: Hasher, m: Man) {
    Core(h, m, {}, 0)
  }

  lemma EmptyIsValid(h: Hasher)
    ensures Valid(h, EMPTY)
  {
  }

  // ----- Entries that differ only where the tables do not look

  /** Same entries up to statistics, source, advertised data and list position. */
  ghost predicate SamePlaces(a: map<Id, Info>, b: map<Id, Info>) {
    && a.Keys == b.Keys
    && forall n :: n in a ==>
         && b[n].addr.service == a[n].addr.service && b[n].inTried == a[n].inTried && b[n].refCount == a[n].refCount
  }

  lemma SamePlacesTables(h: Hasher, m: Man, info: map<Id, Info>)
    requires AddrOk(m.info, m.addr) && TriedOk(h, m.info, m.tried) && NewOk(h, m.info, m.news)
    requires SamePlaces(m.info, info)
    ensures AddrOk(info, m.addr) && TriedOk(h, info, m.tried) && NewOk(h, info, m.news)
  {
  }

  lemma SamePlacesCounts(m: Man, info: map<Id, Info>, limbo: set<Id>, debt: nat)
    requires RefOk(m.info, m.news, limbo) && CountsOk(m.info, m.nTried, m.nNew, debt) && IdsOk(m.info, m.idCount)
    requires SamePlaces(m.info, info)
    ensures RefOk(info, m.news, limbo) && CountsOk(info, m.nTried, m.nNew, debt) && IdsOk(info, m.idCount)
  {
    assert TriedIds(info) == TriedIds(m.info);
    assert NewIds(info) == NewIds(m.info);
  }

  lemma SamePlacesKeep(h: Hasher, m: Man, info: map<Id, Info>, random: seq<Id>, limbo: set<Id>, debt: nat)
    requires Core(h, m, limbo, debt) && SamePlaces(m.info, info)
    requires RandomOk(info, random) && StatsOk(info)
    ensures Core(h, m.(info := info, random := random), limbo, debt)
  {
    hide RandomOk, AddrOk, TriedOk, NewOk, RefOk, StatsOk, CountsOk, IdsOk, SamePlaces;
    SamePlacesTables(h, m, info);
    SamePlacesCounts(m, info, limbo, debt);
  }

  /** One entry's statistics change. */
  lemma StatsKeep(h: Hasher, m: Man, n: Id, i: Info)
    requires Valid(h, m) && n in m.info
    requires i.addr.service == m.info[n].addr.service && i.inTried == m.info[n].inTried
    requires i.refCount == m.info[n].refCount && i.randomPos == m.info[n].randomPos
    requires i.lastTry >= 0 && i.lastSuccess >= 0 && (i.inTried ==> i.lastSuccess != 0)
    ensures Valid(h, m.(info := m.info[n := i]))
  {
    hide Core, SamePlaces, StatsOk, RandomOk;
    CoreRandom(h, m, {}, 0);
    CoreStats(h, m, {}, 0);
    StatsShape(m.info, m.random, n, i);
    SamePlacesKeep(h, m, m.info[n := i], m.random, {}, 0);
  }

  lemma StatsShape(info: map<Id, Info>, random: seq<Id>, n: Id, i: Info)
    requires RandomOk(info, random) && StatsOk(info) && n in info
    requires i.addr.service == info[n].addr.service && i.inTried == info[n].inTried
    requires i.refCount == info[n].refCount && i.randomPos == info[n].randomPos
    requires i.lastTry >= 0 && i.lastSuccess >= 0 && (i.inTried ==> i.lastSuccess != 0)
    ensures SamePlaces(info, info[n := i]) && RandomOk(info[n := i], random) && StatsOk(info[n := i])
  {
  }

  lemma CoreStats(h: Hasher, m: Man, limbo: set<Id>, debt: nat)
    requires Core(h, m, limbo, debt)
    ensures StatsOk(m.info)
  {
    hide RandomOk, AddrOk, TriedOk, NewOk, RefOk, StatsOk, CountsOk, IdsOk;
  }

  // ----- The random list

  function SetPos(info: map<Id, Info>, n: Id, p: int): map<Id, Info>
    requires n in info
  {
    info[n := info[n].(randomPos := p)]
  }

  function SwapRandom(m: Man, p1: nat, p2: nat): Man
    requires p1 < |m.random| && p2 < |m.random|
    requires m.random[p1] in m.info && m.random[p2] in m.info
  {
    if p1 == p2 then m
    else
      var n1, n2 := m.random[p1], m.random[p2];
      m.(info := SetPos(SetPos(m.info, n1, p2), n2, p1), random := m.random[p1 := n2][p2 := n1])
  }

  lemma RandomIn(info: map<Id, Info>, random: seq<Id>, p: nat)
    requires RandomOk(info, random) && p < |random|
    ensures random[p] in info && info[random[p]].randomPos == p
  {
  }

  lemma SwapRandomOk(info: map<Id, Info>, random: seq<Id>, p1: nat, p2: nat)
    requires RandomOk(info, random) && p1 < |random| && p2 < |random| && p1 != p2
    requires random[p1] in info && random[p2] in info
    ensures RandomOk(SetPos(SetPos(info, random[p1], p2), random[p2], p1), random[p1 := random[p2]][p2 := random[p1]])
  {
    var n1, n2 := random[p1], random[p2];
    RandomIn(info, random, p1);
    RandomIn(info, random, p2);
    var i', r' := SetPos(SetPos(info, n1, p2), n2, p1), random[p1 := n2][p2 := n1];
    forall n | n in i' ensures 0 <= i'[n].randomPos < |r'| && r'[i'[n].randomPos] == n {
      assert n in info && random[info[n].randomPos] == n;
    }
    forall i | 0 <= i < |r'| ensures r'[i] in i' && i'[r'[i]].randomPos == i {
      RandomIn(info, random, i);
    }
  }

  /** `b` is `a` up to positions in the random list. */
  ghost predicate SameButPos(a: map<Id, Info>, b: map<Id, Info>) {
    && a.Keys == b.Keys
    && forall n :: n in a ==> b[n].(randomPos := a[n].randomPos) == a[n]
  }

  lemma SameButPosPlaces(a: map<Id, Info>, b: map<Id, Info>)
    requires SameButPos(a, b)
    ensures SamePlaces(a, b) && (StatsOk(a) ==> StatsOk(b))
  {
    forall n | n in a
      ensures && b[n].addr.service == a[n].addr.service && b[n].inTried == a[n].inTried && b[n].refCount == a[n].refCount
              && b[n].lastTry == a[n].lastTry && b[n].lastSuccess == a[n].lastSuccess
    {
      assert b[n].(randomPos := a[n].randomPos) == a[n];
    }
  }

  lemma SwapSameButPos(m: Man, p1: nat, p2: nat)
    requires p1 < |m.random| && p2 < |m.random| && m.random[p1] in m.info && m.random[p2] in m.info
    ensures SameButPos(m.info, SwapRandom(m, p1, p2).info)
  {
  }

  lemma SwapKeeps(h: Hasher, m: Man, p1: nat, p2: nat, limbo: set<Id>, debt: nat)
    requires Core(h, m, limbo, debt) && p1 < |m.random| && p2 < |m.random|
    ensures m.random[p1] in m.info && m.random[p2] in m.info
    ensures Core(h, SwapRandom(m, p1, p2), limbo, debt)
    ensures SameButPos(m.info, SwapRandom(m, p1, p2).info)
  {
    hide Core, RandomOk, StatsOk, SameButPos, SamePlaces;
    CoreRandom(h, m, limbo, debt);
    CoreStats(h, m, limbo, debt);
    RandomIn(m.info, m.random, p1);
    RandomIn(m.info, m.random, p2);
    var t := SwapRandom(m, p1, p2);
    SwapSameButPos(m, p1, p2);
    if p1 != p2 {
      SwapRandomOk(m.info, m.random, p1, p2);
      SameButPosPlaces(m.info, t.info);
      SamePlacesKeep(h, m, t.info, t.random, limbo, debt);
    }
  }

  lemma CoreRandom(h: Hasher, m: Man, limbo: set<Id>, debt: nat)
    requires Core(h, m, limbo, debt)
    ensures RandomOk(m.info, m.random)
  {
    hide RandomOk, AddrOk, TriedOk, NewOk, RefOk, StatsOk, CountsOk, IdsOk;
  }

  // ----- Creating an entry

  function Create(m: Man, addr: Address, source: Ip): Man {
    Enter(m, NewInfo(addr, source))
  }

  /** Gives an entry the next id and the last place of the random list. */
  function Enter(m: Man, i: Info): Man {
    var n := m.idCount;
    m.(idCount := n + 1, info := m.info[n := i.(randomPos := |m.random|)],
       addr := m.addr[i.Ip() := n], random := m.random + [n])
  }

  lemma CreateLists(m: Man, n: Id, i: Info)
    requires RandomOk(m.info, m.random) && AddrOk(m.info, m.addr) && n !in m.info
    requires i.randomPos == |m.random| && i.Ip() !in m.addr
    ensures RandomOk(m.info[n := i], m.random + [n]) && AddrOk(m.info[n := i], m.addr[i.Ip() := n])
  {
    var info := m.info[n := i];
    forall k | k in info ensures info[k].Ip() in m.addr[i.Ip() := n] && m.addr[i.Ip() := n][info[k].Ip()] == k {
      assert k != n ==> k in m.info && m.info[k].Ip() in m.addr;
    }
  }

  lemma CreateTables(h: Hasher, m: Man, n: Id, i: Info)
    requires TriedOk(h, m.info, m.tried) && NewOk(h, m.info, m.news) && n !in m.info && !i.inTried
    ensures TriedOk(h, m.info[n := i], m.tried) && NewOk(h, m.info[n := i], m.news)
  {
  }

  lemma CreateIds(info: map<Id, Info>, n: Id, i: Info)
    requires n !in info && !i.inTried
    ensures TriedIds(info[n := i]) == TriedIds(info) && |NewIds(info[n := i])| == |NewIds(info)| + 1
  {
    assert NewIds(info[n := i]) == NewIds(info) + {n};
  }

  lemma CreateCounts(m: Man, n: Id, i: Info, limbo: set<Id>, debt: nat)
    requires RefOk(m.info, m.news, limbo) && StatsOk(m.info) && CountsOk(m.info, m.nTried, m.nNew, debt)
    requires n !in m.info && n !in m.news.Values && i.refCount == 0 && !i.inTried && i.lastTry >= 0 && i.lastSuccess >= 0
    ensures RefOk(m.info[n := i], m.news, limbo + {n}) && StatsOk(m.info[n := i])
    ensures CountsOk(m.info[n := i], m.nTried, m.nNew + 1, debt)
  {
    assert Slots(m.news, n) == {};
    CreateIds(m.info, n, i);
  }

  /** A new entry, counted as new, starts in limbo. */
  lemma EnterKeeps(h: Hasher, m: Man, i: Info, limbo: set<Id>, debt: nat)
    requires Core(h, m, limbo, debt) && i.Ip() !in m.addr
    requires i.refCount == 0 && !i.inTried && i.lastTry >= 0 && i.lastSuccess >= 0
    ensures Core(h, Enter(m, i).(nNew := m.nNew + 1), limbo + {m.idCount}, debt)
  {
    var n, j := m.idCount, i.(randomPos := |m.random|);
    IdFree(h, m, limbo, debt);
    hide RandomOk, AddrOk, TriedOk, NewOk, RefOk, StatsOk, CountsOk, IdsOk;
    CreateLists(m, n, j);
    CreateTables(h, m, n, j);
    CreateCounts(m, n, j, limbo, debt);
    CreateIdsOk(m, n, j);
  }

  lemma CreateIdsOk(m: Man, n: Id, i: Info)
    requires IdsOk(m.info, n)
    ensures IdsOk(m.info[n := i], n + 1)
  {
  }

  lemma IdFree(h: Hasher, m: Man, limbo: set<Id>, debt: nat)
    requires Core(h, m, limbo, debt)
    ensures m.idCount !in m.info && m.idCount !in m.news.Values
  {
    assert IdsOk(m.info, m.idCount) && NewOk(h, m.info, m.news);
  }

  lemma CreateKeeps(h: Hasher, m: Man, addr: Address, source: Ip)
    requires Valid(h, m) && addr.service.ip !in m.addr
    ensures var t := Create(m, addr, source); Core(h, t.(nNew := t.nNew + 1), {m.idCount}, 0)
  {
    hide Core;
    EnterKeeps(h, m, NewInfo(addr, source), {}, 0);
    assert {} + {m.idCount} == {m.idCount};
  }

  // ----- Deleting an entry

  /** What `Delete` asserts and reads: a known entry in neither table, found in the random list. */
  predicate CanDelete(m: Man, n: Id) {
    && n in m.info && !m.info[n].inTried && m.info[n].refCount == 0
    && 0 <= m.info[n].randomPos < |m.random|
    && m.random[m.info[n].randomPos] in m.info && m.random[|m.random| - 1] in m.info
  }

  /** Forgets an entry that is in no table. */
  function Delete(m: Man, n: Id): Man
    requires CanDelete(m, n)
  {
    DropLast(SwapRandom(m, m.info[n].randomPos, |m.random| - 1), n)
  }

  /** Removes the entry at the end of the random list. */
  function DropLast(m: Man, n: Id): Man
    requires n in m.info && m.random != []
  {
    m.(random := m.random[..|m.random| - 1], addr := m.addr - {m.info[n].Ip()}, info := m.info - {n}, nNew := m.nNew - 1)
  }

  lemma DropLists(m: Man, n: Id)
    requires RandomOk(m.info, m.random) && AddrOk(m.info, m.addr) && n in m.info && m.info[n].randomPos == |m.random| - 1
    ensures RandomOk(DropLast(m, n).info, DropLast(m, n).random) && AddrOk(DropLast(m, n).info, DropLast(m, n).addr)
  {
    var t := DropLast(m, n);
    forall k | k in t.info ensures 0 <= t.info[k].randomPos < |t.random| && t.random[t.info[k].randomPos] == k {
      assert m.random[m.info[k].randomPos] == k;
    }
    forall i | 0 <= i < |t.random| ensures t.random[i] in t.info && t.info[t.random[i]].randomPos == i {
      RandomIn(m.info, m.random, i);
    }
  }

  lemma DropTables(h: Hasher, m: Man, n: Id)
    requires TriedOk(h, m.info, m.tried) && NewOk(h, m.info, m.news)
    requires n in m.info && !m.info[n].inTried && n !in m.news.Values
    ensures TriedOk(h, m.info - {n}, m.tried) && NewOk(h, m.info - {n}, m.news)
  {
  }

  lemma DropCounts(m: Man, n: Id, limbo: set<Id>, debt: nat)
    requires RefOk(m.info, m.news, limbo) && StatsOk(m.info) && CountsOk(m.info, m.nTried, m.nNew, debt)
    requires n in limbo
    ensures RefOk(m.info - {n}, m.news, limbo - {n}) && StatsOk(m.info - {n})
    ensures CountsOk(m.info - {n}, m.nTried, m.nNew - 1, debt)
  {
    assert TriedIds(m.info - {n}) == TriedIds(m.info);
    assert NewIds(m.info - {n}) == NewIds(m.info) - {n};
  }

  lemma NoSlots(news: map<Slot, Id>, n: Id)
    requires |Slots(news, n)| == 0
    ensures n !in news.Values
  {
    assert Slots(news, n) == {};
    forall s | s in news ensures news[s] != n {
      assert s in Slots(news, news[s]);
    }
  }

  lemma DropLastKeeps(h: Hasher, m: Man, n: Id, limbo: set<Id>, debt: nat)
    requires Core(h, m, limbo, debt) && n in limbo && n in m.info && m.info[n].randomPos == |m.random| - 1
    ensures n in m.info && m.random != [] && Core(h, DropLast(m, n), limbo - {n}, debt)
  {
    assert |Slots(m.news, n)| == 0;
    NoSlots(m.news, n);
    assert IdsOk(m.info - {n}, m.idCount);
    hide RandomOk, AddrOk, TriedOk, NewOk, RefOk, StatsOk, CountsOk, IdsOk;
    DropLists(m, n);
    DropTables(h, m, n);
    DropCounts(m, n, limbo, debt);
  }

  lemma LimboIn(h: Hasher, m: Man, n: Id, limbo: set<Id>, debt: nat)
    requires Core(h, m, limbo, debt) && n in limbo
    ensures n in m.info && !m.info[n].inTried && m.info[n].refCount == 0
    ensures 0 <= m.info[n].randomPos < |m.random| && m.random[m.info[n].randomPos] == n
  {
  }

  lemma DeleteKeeps(h: Hasher, m: Man, n: Id, limbo: set<Id>, debt: nat)
    requires Core(h, m, limbo, debt) && n in limbo
    ensures CanDelete(m, n) && Core(h, Delete(m, n), limbo - {n}, debt)
    ensures Delete(m, n).news == m.news && Delete(m, n).tried == m.tried
    ensures SameButPos(m.info - {n}, Delete(m, n).info)
  {
    hide Core, SameButPos;
    LimboIn(h, m, n, limbo, debt);
    var p, last := m.info[n].randomPos, |m.random| - 1;
    SwapKeeps(h, m, p, last, limbo, debt);
    var t := SwapRandom(m, p, last);
    LimboIn(h, t, n, limbo, debt);
    assert t.random[last] == n;
    CoreRandom(h, t, limbo, debt);
    RandomIn(t.info, t.random, last);
    DropLastKeeps(h, t, n, limbo, debt);
    SameButPosDrop(m.info, t.info, n);
  }

  lemma SameButPosDrop(a: map<Id, Info>, b: map<Id, Info>, n: Id)
    requires SameButPos(a, b)
    ensures SameButPos(a - {n}, b - {n})
  {
  }

  // ----- Moving one entry between tables

  /** One entry replaced by one with the same address and list position. */
  ghost predicate Replaces(m: Man, n: Id, i: Info) {
    && n in m.info
    && i.addr.service == m.info[n].addr.service && i.randomPos == m.info[n].randomPos
    && i.lastTry == m.info[n].lastTry && i.lastSuccess == m.info[n].lastSuccess
  }

  lemma ReplaceLists(m: Man, n: Id, i: Info)
    requires Replaces(m, n, i) && RandomOk(m.info, m.random) && AddrOk(m.info, m.addr) && IdsOk(m.info, m.idCount)
    ensures RandomOk(m.info[n := i], m.random) && AddrOk(m.info[n := i], m.addr) && IdsOk(m.info[n := i], m.idCount)
  {
  }

  lemma ReplaceStats(m: Man, n: Id, i: Info)
    requires Replaces(m, n, i) && StatsOk(m.info) && (i.inTried ==> i.lastSuccess != 0)
    ensures StatsOk(m.info[n := i])
  {
  }

  lemma ReplaceIds(info: map<Id, Info>, n: Id, i: Info)
    requires n in info
    ensures i.inTried == info[n].inTried ==>
              TriedIds(info[n := i]) == TriedIds(info) && NewIds(info[n := i]) == NewIds(info)
    ensures i.inTried && !info[n].inTried ==>
              |TriedIds(info[n := i])| == |TriedIds(info)| + 1 && |NewIds(info[n := i])| == |NewIds(info)| - 1
    ensures !i.inTried && info[n].inTried ==>
              |TriedIds(info[n := i])| == |TriedIds(info)| - 1 && |NewIds(info[n := i])| == |NewIds(info)| + 1
  {
    if i.inTried && !info[n].inTried {
      assert TriedIds(info[n := i]) == TriedIds(info) + {n};
      assert NewIds(info[n := i]) == NewIds(info) - {n};
    } else if !i.inTried && info[n].inTried {
      assert TriedIds(info[n := i]) == TriedIds(info) - {n};
      assert NewIds(info[n := i]) == NewIds(info) + {n};
    } else {
      assert TriedIds(info[n := i]) == TriedIds(info);
      assert NewIds(info[n := i]) == NewIds(info);
    }
  }

  /** Takes one slot of the new table away from the entry that holds it. */
  function VacateSlot(m: Man, s: Slot): Man
    requires s in m.news && m.news[s] in m.info
  {
    var n := m.news[s];
    m.(info := m.info[n := m.info[n].(refCount := m.info[n].refCount - 1)], news := m.news - {s})
  }

  lemma VacateTables(h: Hasher, m: Man, s: Slot, i: Info)
    requires TriedOk(h, m.info, m.tried) && NewOk(h, m.info, m.news) && s in m.news && Replaces(m, m.news[s], i)
    requires i.inTried == m.info[m.news[s]].inTried
    ensures TriedOk(h, m.info[m.news[s] := i], m.tried) && NewOk(h, m.info[m.news[s] := i], m.news - {s})
  {
  }

  lemma VacateSlots(news: map<Slot, Id>, s: Slot, n: Id)
    requires s in news
    ensures |Slots(news - {s}, n)| == if news[s] == n then |Slots(news, n)| - 1 else |Slots(news, n)|
    ensures news[s] == n ==> |Slots(news, n)| > 0
  {
    if news[s] == n {
      assert s in Slots(news, n);
      assert Slots(news - {s}, n) == Slots(news, n) - {s};
    } else {
      assert Slots(news - {s}, n) == Slots(news, n);
    }
  }

  lemma VacateRefs(m: Man, s: Slot, limbo: set<Id>)
    requires RefOk(m.info, m.news, limbo) && s in m.news && m.news[s] in m.info && !m.info[m.news[s]].inTried
    ensures m.news[s] !in limbo && m.info[m.news[s]].refCount > 0
    ensures RefOk(VacateSlot(m, s).info, m.news - {s}, if m.info[m.news[s]].refCount == 1 then limbo + {m.news[s]} else limbo)
  {
    forall n ensures |Slots(m.news - {s}, n)| == if m.news[s] == n then |Slots(m.news, n)| - 1 else |Slots(m.news, n)| {
      VacateSlots(m.news, s, n);
    }
    VacateSlots(m.news, s, m.news[s]);
  }

  lemma VacateKeeps(h: Hasher, m: Man, s: Slot, limbo: set<Id>, debt: nat)
    requires Core(h, m, limbo, debt) && s in m.news
    ensures m.news[s] in m.info && m.info[m.news[s]].refCount > 0 && m.news[s] !in limbo
    ensures Core(h, VacateSlot(m, s), if m.info[m.news[s]].refCount == 1 then limbo + {m.news[s]} else limbo, debt)
  {
    var n := m.news[s];
    NewIn(h, m.info, m.news, s);
    var i := m.info[n].(refCount := m.info[n].refCount - 1);
    hide RandomOk, AddrOk, TriedOk, NewOk, RefOk, StatsOk, IdsOk, TriedIds, NewIds;
    ReplaceLists(m, n, i);
    ReplaceStats(m, n, i);
    ReplaceIds(m.info, n, i);
    VacateTables(h, m, s, i);
    VacateRefs(m, s, limbo);
  }

  lemma NewIn(h: Hasher, info: map<Id, Info>, news: map<Slot, Id>, s: Slot)
    requires NewOk(h, info, news) && s in news
    ensures news[s] in info && !info[news[s]].inTried && s.bucket < NEW_BUCKET_COUNT
    ensures h.NewSlot(info[news[s]].addr.service, s.bucket) == s
  {
  }

  /** What `ClearNew` asserts and leads to: the entry in the slot is referenced, and may go with its last reference. */
  predicate CanClear(m: Man, s: Slot) {
    s in m.news ==>
      && m.news[s] in m.info && m.info[m.news[s]].refCount > 0
      && (m.info[m.news[s]].refCount == 1 ==> CanDelete(VacateSlot(m, s), m.news[s]))
  }

  /** Empties one slot of the new table; an entry that loses its last slot is forgotten. */
  function ClearNew(m: Man, s: Slot): Man
    requires CanClear(m, s)
  {
    if s !in m.news then m
    else
      var t := VacateSlot(m, s);
      if t.info[m.news[s]].refCount == 0 then Delete(t, m.news[s]) else t
  }

  /** Emptying a slot leaves every other entry as it was, up to list positions. */
  lemma ClearNewKeeps(h: Hasher, m: Man, s: Slot, limbo: set<Id>, debt: nat)
    requires Core(h, m, limbo, debt)
    ensures CanClear(m, s) && (s in m.news ==> m.news[s] !in limbo)
    ensures Core(h, ClearNew(m, s), limbo, debt) && ClearNew(m, s).news == m.news - {s} && ClearNew(m, s).tried == m.tried
    ensures forall k :: k in m.info && (s in m.news ==> k != m.news[s]) ==>
              k in ClearNew(m, s).info && ClearNew(m, s).info[k].(randomPos := m.info[k].randomPos) == m.info[k]
  {
    hide Core;
    if s in m.news {
      var n := m.news[s];
      VacateKeeps(h, m, s, limbo, debt);
      var t := VacateSlot(m, s);
      if t.info[n].refCount == 0 {
        DeleteKeeps(h, t, n, limbo + {n}, debt);
        assert limbo + {n} - {n} == limbo;
        assert forall k :: k in m.info && k != n ==> t.info[k] == m.info[k];
      }
    } else {
      assert m.news - {s} == m.news;
    }
  }

  // ----- Taking a slot of the new table

  function PlaceNew(m: Man, n: Id, s: Slot): Man
    requires n in m.info
  {
    m.(info := m.info[n := m.info[n].(refCount := m.info[n].refCount + 1)], news := m.news[s := n])
  }

  lemma PlaceTables(h: Hasher, m: Man, n: Id, s: Slot, i: Info)
    requires TriedOk(h, m.info, m.tried) && NewOk(h, m.info, m.news) && Replaces(m, n, i) && s !in m.news
    requires !i.inTried && !m.info[n].inTried
    requires s.bucket < NEW_BUCKET_COUNT && h.NewSlot(i.addr.service, s.bucket) == s
    ensures TriedOk(h, m.info[n := i], m.tried) && NewOk(h, m.info[n := i], m.news[s := n])
  {
  }

  lemma PlaceSlots(news: map<Slot, Id>, s: Slot, n: Id, k: Id)
    requires s !in news
    ensures |Slots(news[s := n], k)| == if n == k then |Slots(news, k)| + 1 else |Slots(news, k)|
  {
    if n == k {
      assert Slots(news[s := n], k) == Slots(news, k) + {s};
    } else {
      assert Slots(news[s := n], k) == Slots(news, k);
    }
  }

  lemma PlaceRefs(m: Man, n: Id, s: Slot, limbo: set<Id>)
    requires RefOk(m.info, m.news, limbo) && n in m.info && s !in m.news && !m.info[n].inTried
    requires m.info[n].refCount < NEW_BUCKETS_PER_ADDRESS
    ensures RefOk(PlaceNew(m, n, s).info, m.news[s := n], limbo - {n})
  {
    forall k ensures |Slots(m.news[s := n], k)| == if n == k then |Slots(m.news, k)| + 1 else |Slots(m.news, k)| {
      PlaceSlots(m.news, s, n, k);
    }
  }

  lemma PlaceKeeps(h: Hasher, m: Man, n: Id, s: Slot, limbo: set<Id>, debt: nat)
    requires Core(h, m, limbo, debt) && n in m.info && s !in m.news && !m.info[n].inTried
    requires m.info[n].refCount < NEW_BUCKETS_PER_ADDRESS
    requires s.bucket < NEW_BUCKET_COUNT && h.NewSlot(m.info[n].addr.service, s.bucket) == s
    ensures Core(h, PlaceNew(m, n, s), limbo - {n}, debt)
  {
    var i := m.info[n].(refCount := m.info[n].refCount + 1);
    hide RandomOk, AddrOk, TriedOk, NewOk, RefOk, StatsOk, IdsOk, TriedIds, NewIds;
    ReplaceLists(m, n, i);
    ReplaceStats(m, n, i);
    ReplaceIds(m.info, n, i);
    PlaceTables(h, m, n, s, i);
    PlaceRefs(m, n, s, limbo);
  }

  // ----- Moving an entry to the tried table

  /** Removes an entry from every slot of the new table and stops counting it as new. */
  function VacateAll(m: Man, n: Id): Man
    requires n in m.info
  {
    m.(info := m.info[n := m.info[n].(refCount := m.info[n].refCount - |Slots(m.news, n)|)],
       news := m.news - Slots(m.news, n), nNew := m.nNew - 1)
  }

  lemma VacateAllRefs(m: Man, n: Id)
    requires RefOk(m.info, m.news, {}) && n in m.info && !m.info[n].inTried
    ensures RefOk(VacateAll(m, n).info, VacateAll(m, n).news, {n}) && VacateAll(m, n).info[n].refCount == 0
  {
    var news := m.news - Slots(m.news, n);
    assert Slots(news, n) == {};
    forall k | k != n ensures Slots(news, k) == Slots(m.news, k) {
      assert forall s :: s in Slots(m.news, k) ==> s !in Slots(m.news, n);
    }
  }

  lemma VacateAllTables(h: Hasher, m: Man, n: Id, i: Info, gone: set<Slot>)
    requires TriedOk(h, m.info, m.tried) && NewOk(h, m.info, m.news) && Replaces(m, n, i)
    requires i.inTried == m.info[n].inTried
    ensures TriedOk(h, m.info[n := i], m.tried) && NewOk(h, m.info[n := i], m.news - gone)
  {
  }

  lemma VacateAllKeeps(h: Hasher, m: Man, n: Id)
    requires Valid(h, m) && n in m.info && !m.info[n].inTried
    ensures Core(h, VacateAll(m, n), {n}, 1) && VacateAll(m, n).info[n].refCount == 0
  {
    hide RandomOk, AddrOk, TriedOk, NewOk, RefOk, StatsOk, IdsOk, TriedIds, NewIds, Slots;
    var i := m.info[n].(refCount := m.info[n].refCount - |Slots(m.news, n)|);
    ReplaceLists(m, n, i);
    ReplaceStats(m, n, i);
    ReplaceIds(m.info, n, i);
    VacateAllTables(h, m, n, i, Slots(m.news, n));
    VacateAllRefs(m, n);
  }

  /** Takes a tried entry out of its slot. */
  function Untry(m: Man, s: Slot): Man
    requires s in m.tried && m.tried[s] in m.info
  {
    m.(info := m.info[m.tried[s] := m.info[m.tried[s]].(inTried := false)], tried := m.tried - {s}, nTried := m.nTried - 1)
  }

  lemma UntryTables(h: Hasher, m: Man, s: Slot, i: Info)
    requires TriedOk(h, m.info, m.tried) && NewOk(h, m.info, m.news) && s in m.tried
    requires Replaces(m, m.tried[s], i) && !i.inTried
    ensures TriedOk(h, m.info[m.tried[s] := i], m.tried - {s}) && NewOk(h, m.info[m.tried[s] := i], m.news)
  {
    var n, info, tried := m.tried[s], m.info[m.tried[s] := i], m.tried - {s};
    forall k | k in info && info[k].inTried
      ensures h.TriedSlot(info[k].addr.service) in tried && tried[h.TriedSlot(info[k].addr.service)] == k
    {
      assert k != n && m.tried[h.TriedSlot(m.info[k].addr.service)] == k;
    }
  }

  lemma UntryRefs(m: Man, n: Id, limbo: set<Id>)
    requires RefOk(m.info, m.news, limbo) && n in m.info && m.info[n].inTried
    ensures RefOk(m.info[n := m.info[n].(inTried := false)], m.news, limbo + {n}) && m.info[n].refCount == 0 && n !in limbo
  {
  }

  lemma TriedIn(h: Hasher, info: map<Id, Info>, tried: map<Slot, Id>, s: Slot)
    requires TriedOk(h, info, tried) && s in tried
    ensures tried[s] in info && info[tried[s]].inTried && h.TriedSlot(info[tried[s]].addr.service) == s
  {
  }

  lemma UntryKeeps(h: Hasher, m: Man, s: Slot, limbo: set<Id>, debt: nat)
    requires Core(h, m, limbo, debt) && s in m.tried
    ensures m.tried[s] in m.info && m.info[m.tried[s]].inTried && m.info[m.tried[s]].refCount == 0 && m.tried[s] !in limbo
    ensures Core(h, Untry(m, s), limbo + {m.tried[s]}, debt + 1)
  {
    TriedIn(h, m.info, m.tried, s);
    var n := m.tried[s];
    var i := m.info[n].(inTried := false);
    hide RandomOk, AddrOk, TriedOk, NewOk, RefOk, StatsOk, IdsOk, TriedIds, NewIds;
    ReplaceLists(m, n, i);
    ReplaceStats(m, n, i);
    ReplaceIds(m.info, n, i);
    UntryTables(h, m, s, i);
    UntryRefs(m, n, limbo);
  }

  /** Puts an entry into its slot of the tried table. */
  function Try(m: Man, n: Id, s: Slot): Man
    requires n in m.info
  {
    m.(tried := m.tried[s := n], nTried := m.nTried + 1, info := m.info[n := m.info[n].(inTried := true)])
  }

  lemma TryTables(h: Hasher, m: Man, n: Id, s: Slot, i: Info)
    requires TriedOk(h, m.info, m.tried) && NewOk(h, m.info, m.news) && Replaces(m, n, i) && i.inTried
    requires s !in m.tried && h.TriedSlot(i.addr.service) == s && n !in m.news.Values && !m.info[n].inTried
    ensures TriedOk(h, m.info[n := i], m.tried[s := n]) && NewOk(h, m.info[n := i], m.news)
  {
  }

  lemma TryRefs(m: Man, n: Id, limbo: set<Id>)
    requires RefOk(m.info, m.news, limbo) && n in limbo
    ensures n in m.info && RefOk(m.info[n := m.info[n].(inTried := true)], m.news, limbo - {n}) && n !in m.news.Values
    ensures !m.info[n].inTried
  {
    NoSlots(m.news, n);
  }

  lemma TryKeeps(h: Hasher, m: Man, n: Id, s: Slot, limbo: set<Id>, debt: nat)
    requires Core(h, m, limbo, debt) && n in limbo && debt > 0 && n in m.info && m.info[n].lastSuccess != 0
    requires s !in m.tried && h.TriedSlot(m.info[n].addr.service) == s
    ensures Core(h, Try(m, n, s), limbo - {n}, debt - 1)
  {
    var i := m.info[n].(inTried := true);
    hide RandomOk, AddrOk, TriedOk, NewOk, RefOk, StatsOk, IdsOk, TriedIds, NewIds;
    TryRefs(m, n, limbo);
    ReplaceLists(m, n, i);
    ReplaceStats(m, n, i);
    ReplaceIds(m.info, n, i);
    TryTables(h, m, n, s, i);
  }

  /**
   * Makes room in a tried slot: the entry there goes back to its bucket of the new table, pushing
   * out whatever holds that slot.
   */
  function Evict(h: Hasher, m: Man, s: Slot): Man
    requires s in m.tried && m.tried[s] in m.info
    requires CanEvict(h, m, s)
  {
    var n := m.tried[s];
    var u := HomeSlot(h, m.info[n]);
    var t := ClearNew(Untry(m, s), u);
    t.(info := t.info[n := t.info[n].(refCount := 1)], news := t.news[u := n], nNew := t.nNew + 1)
  }

  /** The new-table slot an entry gets from its own source. */
  function HomeSlot(h: Hasher, i: Info): Slot {
    h.NewSlot(i.addr.service, h.NewBucket(i.addr.service, i.source))
  }

  predicate CanEvict(h: Hasher, m: Man, s: Slot)
    requires s in m.tried && m.tried[s] in m.info
  {
    var t, u := Untry(m, s), HomeSlot(h, m.info[m.tried[s]]);
    CanClear(t, u) && m.tried[s] in ClearNew(t, u).info
  }

  lemma NotYetCounted(h: Hasher, m: Man, limbo: set<Id>, debt: nat)
    requires Core(h, m, limbo, debt) && debt > 0
    ensures Core(h, m.(nNew := m.nNew + 1), limbo, debt - 1)
  {
    hide RandomOk, AddrOk, TriedOk, NewOk, RefOk, StatsOk, IdsOk, TriedIds, NewIds;
  }

  lemma EvictKeeps(h: Hasher, m: Man, s: Slot, limbo: set<Id>, debt: nat)
    requires Core(h, m, limbo, debt) && s in m.tried
    ensures m.tried[s] in m.info && CanEvict(h, m, s)
    ensures Core(h, Evict(h, m, s), limbo, debt) && Evict(h, m, s).tried == m.tried - {s}
    ensures forall k :: k in limbo ==>
              k in m.info && k in Evict(h, m, s).info &&
              Evict(h, m, s).info[k].(randomPos := m.info[k].randomPos) == m.info[k]
  {
    hide Core;
    var n := m.tried[s];
    UntryKeeps(h, m, s, limbo, debt);
    var t := Untry(m, s);
    var u := HomeSlot(h, m.info[n]);
    ClearNewKeeps(h, t, u, limbo + {n}, debt + 1);
    var c := ClearNew(t, u);
    LimboFacts(h, c, n, limbo + {n}, debt + 1);
    forall k | k in limbo ensures k in m.info && k != n {
      LimboFacts(h, m, k, limbo, debt);
    }
    PlaceKeeps(h, c, n, u, limbo + {n}, debt + 1);
    assert limbo + {n} - {n} == limbo;
    NotYetCounted(h, PlaceNew(c, n, u), limbo, debt + 1);
  }

  lemma LimboFacts(h: Hasher, m: Man, n: Id, limbo: set<Id>, debt: nat)
    requires Core(h, m, limbo, debt) && n in limbo
    ensures n in m.info && !m.info[n].inTried && m.info[n].refCount == 0
  {
    assert RefOk(m.info, m.news, limbo);
  }

  /** Moves an untried entry to the tried table, evicting the entry whose slot it takes. */
  function MakeTried(h: Hasher, m: Man, n: Id): Man
    requires CanMakeTried(h, m, n)
  {
    var t := VacateAll(m, n);
    var s := h.TriedSlot(m.info[n].addr.service);
    Try(if s in t.tried then Evict(h, t, s) else t, n, s)
  }

  predicate CanMakeTried(h: Hasher, m: Man, n: Id) {
    && n in m.info
    && var t := VacateAll(m, n);
       var s := h.TriedSlot(m.info[n].addr.service);
       s in t.tried ==> t.tried[s] in t.info && CanEvict(h, t, s) && n in Evict(h, t, s).info
  }

  lemma MakeTriedKeeps(h: Hasher, m: Man, n: Id)
    requires Valid(h, m) && n in m.info && !m.info[n].inTried && m.info[n].lastSuccess != 0
    ensures CanMakeTried(h, m, n) && Valid(h, MakeTried(h, m, n))
  {
    hide Core, CanEvict, Evict;
    VacateAllKeeps(h, m, n);
    var t := VacateAll(m, n);
    var s := h.TriedSlot(m.info[n].addr.service);
    if s in t.tried {
      EvictKeeps(h, t, s, {n}, 1);
      assert n in {n};
      TryKeeps(h, Evict(h, t, s), n, s, {n}, 1);
    } else {
      TryKeeps(h, t, n, s, {n}, 1);
    }
    assert {n} - {n} == {};
  }
}
