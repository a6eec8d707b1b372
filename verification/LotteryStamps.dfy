/** Attestation stamps (XVA1) and the seed signature (XSD1) in the coinbase (src/lottery.cpp). */
module LotteryStamps {
  import opened Options
  import opened ByteStrings
  import opened LotteryCodec

  const MAX_X_HANDLE := 32
  const SIG_SIZE := 65

  datatype Stamp = Stamp(handle: Bytes, id: Id, sig: Bytes)

  predicate WellFormed(st: Stamp) {
    1 <= |st.handle| <= MAX_X_HANDLE && |st.sig| == SIG_SIZE
  }

  function StampBytes(st: Stamp): Bytes
    requires WellFormed(st)
  {
    [|st.handle|] + st.handle + BigEndian(st.id, ID_SIZE) + st.sig
  }

  predicate AllWellFormed(stamps: seq<Stamp>) {
    forall i :: 0 <= i < |stamps| ==> WellFormed(stamps[i])
  }

  function StampsBytes(stamps: seq<Stamp>): (b: Bytes)
    requires AllWellFormed(stamps)
    ensures |b| <= 118 * |stamps|
  {
    if stamps == [] then [] else StampBytes(stamps[0]) + StampsBytes(stamps[1..])
  }

  /** The first stamp and what follows it. */
  function ReadStamp(b: Bytes): Option<(Stamp, Bytes)> {
    if b == [] then None
    else
      var hlen := b[0];
      if hlen < 1 || hlen > MAX_X_HANDLE || 1 + hlen + ID_SIZE + SIG_SIZE > |b| then None
      else Some((Stamp(b[1..1 + hlen], FromBigEndian(b[1 + hlen..1 + hlen + ID_SIZE]),
                       b[1 + hlen + ID_SIZE..1 + hlen + ID_SIZE + SIG_SIZE]),
                 b[1 + hlen + ID_SIZE + SIG_SIZE..]))
  }

  /** The `n` stamps that make up a body. */
  function ReadStamps(b: Bytes, n: nat): Option<seq<Stamp>>
    decreases n
  {
    if n == 0 then (if b == [] then Some([]) else None)
    else
      match ReadStamp(b)
      case None => None
      case Some((st, rest)) =>
        match ReadStamps(rest, n - 1)
        case None => None
        case Some(more) => Some([st] + more)
  }

  lemma ReadStampBytes(st: Stamp, rest: Bytes)
    requires WellFormed(st)
    ensures ReadStamp(StampBytes(st) + rest) == Some((st, rest))
  {
    BigEndianRoundTrip(st.id, ID_SIZE);
    hide BigEndian, FromBigEndian;
    var b, hlen := StampBytes(st) + rest, |st.handle|;
    assert b[0] == hlen;
    assert b[1..1 + hlen] == st.handle;
    assert b[1 + hlen..1 + hlen + ID_SIZE] == BigEndian(st.id, ID_SIZE);
    assert b[1 + hlen + ID_SIZE..1 + hlen + ID_SIZE + SIG_SIZE] == st.sig;
    assert b[1 + hlen + ID_SIZE + SIG_SIZE..] == rest;
  }

  lemma StampBytesRead(b: Bytes)
    requires ReadStamp(b).Some?
    ensures var (st, rest) := ReadStamp(b).value; WellFormed(st) && b == StampBytes(st) + rest && |rest| < |b|
  {
    var hlen := b[0];
    BigEndianOnto(b[1 + hlen..1 + hlen + ID_SIZE]);
    hide BigEndian, FromBigEndian;
  }

  lemma {:induction false} ReadStampsBytes(stamps: seq<Stamp>)
    requires AllWellFormed(stamps)
    ensures ReadStamps(StampsBytes(stamps), |stamps|) == Some(stamps)
  {
    hide ReadStamp, StampBytes;
    if stamps != [] {
      var b, rest := StampsBytes(stamps), StampsBytes(stamps[1..]);
      assert b == StampBytes(stamps[0]) + rest;
      ReadStampBytes(stamps[0], rest);
      ReadStampsBytes(stamps[1..]);
      hide StampsBytes;
      assert stamps == [stamps[0]] + stamps[1..];
    }
  }

  lemma {:induction false} StampsBytesRead(b: Bytes, n: nat)
    requires ReadStamps(b, n).Some?
    ensures var stamps := ReadStamps(b, n).value; |stamps| == n && AllWellFormed(stamps) && StampsBytes(stamps) == b
    decreases n
  {
    if n > 0 {
      StampBytesRead(b);
      hide ReadStamp, StampBytes;
      var (st, rest) := ReadStamp(b).value;
      StampsBytesRead(rest, n - 1);
      assert ReadStamps(b, n).value[1..] == ReadStamps(rest, n - 1).value;
    }
  }

  function XvaData(stamps: seq<Stamp>): Bytes
    requires AllWellFormed(stamps)
  {
    Framed(ATTEST_MAGIC, |stamps| % 0x1_0000_0000, StampsBytes(stamps))
  }

  /** A script that carries exactly these stamps, as the validator reads it. */
  ghost predicate Carries(script: Bytes, stamps: seq<Stamp>) {
    && AllWellFormed(stamps) && |stamps| <= MAX_COMMITTED
    && ReturnData(script) == Some(XvaData(stamps))
  }

  function ReadXva(data: Bytes): Option<seq<Stamp>> {
    if |data| < 8 || data[..4] != ATTEST_MAGIC then None
    else
      var n := FromLittleEndian(data[4..8]);
      if n > MAX_COMMITTED then None else ReadStamps(data[8..], n)
  }

  lemma ReadXvaData(stamps: seq<Stamp>)
    requires AllWellFormed(stamps) && |stamps| <= MAX_COMMITTED
    ensures ReadXva(XvaData(stamps)) == Some(stamps)
  {
    hide LittleEndian, FromLittleEndian, StampsBytes, ReadStamps, Framed;
    FramedParts(ATTEST_MAGIC, |stamps|, StampsBytes(stamps));
    ReadStampsBytes(stamps);
  }

  lemma XvaDataRead(data: Bytes)
    requires ReadXva(data).Some?
    ensures var stamps := ReadXva(data).value;
      AllWellFormed(stamps) && |stamps| <= MAX_COMMITTED && data == XvaData(stamps)
  {
    hide LittleEndian, FromLittleEndian, StampsBytes, ReadStamps, Framed;
    StampsBytesRead(data[8..], FromLittleEndian(data[4..8]));
    FramedOnto(data);
  }

  lemma CarriesOnce(script: Bytes, a: seq<Stamp>, b: seq<Stamp>)
    requires Carries(script, a) && Carries(script, b)
    ensures a == b
  {
    ReadXvaData(a);
    ReadXvaData(b);
  }

  lemma XvaRoundTrip(stamps: seq<Stamp>)
    requires AllWellFormed(stamps) && |stamps| <= MAX_COMMITTED
    ensures Carries(ReturnScript(XvaData(stamps)), stamps)
  {
    hide StampsBytes;
    ReturnRoundTrip(XvaData(stamps));
  }

  /** Parsing succeeds exactly on the scripts that carry stamps, with those stamps. */
  method ParseXvaCommitment(script: Bytes) returns (r: Option<seq<Stamp>>)
    ensures r.Some? ==> Carries(script, r.value)
    ensures r.None? ==> forall stamps :: !Carries(script, stamps)
  {
    hide ReturnData, XvaData;
    r := None;
    var got := ReturnData(script);
    if got.Some? {
      r := ReadXvaLoop(got.value);
      forall stamps | Carries(script, stamps) ensures r == Some(stamps) {
        ReadXvaData(stamps);
      }
      if r.Some? {
        XvaDataRead(got.value);
      }
    }
  }

  method ReadXvaLoop(data: Bytes) returns (r: Option<seq<Stamp>>)
    ensures r == ReadXva(data)
  {
    if |data| < 8 || data[..4] != ATTEST_MAGIC {
      return None;
    }
    var n := FromLittleEndian(data[4..8]);
    if n > MAX_COMMITTED {
      return None;
    }
    var stamps, rest, i := [], data[8..], 0;
    PrependNone(ReadStamps(rest, n));
    while i < n
      invariant 0 <= i <= n
      invariant ReadStamps(data[8..], n) == Prepend(stamps, ReadStamps(rest, n - i))
    {
      hide ReadStamp;
      var one := ReadStamp(rest);
      PrependStep(stamps, rest, n - i);
      if one.None? {
        return None;
      }
      stamps, rest, i := stamps + [one.value.0], one.value.1, i + 1;
    }
    r := if rest == [] then Some(stamps) else None;
    assert stamps + [] == stamps;
  }

  function Prepend(stamps: seq<Stamp>, r: Option<seq<Stamp>>): Option<seq<Stamp>> {
    if r.None? then None else Some(stamps + r.value)
  }

  lemma PrependNone(r: Option<seq<Stamp>>)
    ensures Prepend([], r) == r
  {
    if r.Some? {
      assert [] + r.value == r.value;
    }
  }

  lemma PrependStep(stamps: seq<Stamp>, b: Bytes, n: nat)
    requires n > 0
    ensures Prepend(stamps, ReadStamps(b, n)) ==
            match ReadStamp(b)
            case None => None
            case Some((st, rest)) => Prepend(stamps + [st], ReadStamps(rest, n - 1))
  {
    hide ReadStamp;
    match ReadStamp(b)
    case None =>
    case Some((st, rest)) =>
      var more := ReadStamps(rest, n - 1);
      if more.Some? {
        assert stamps + ([st] + more.value) == (stamps + [st]) + more.value;
      }
  }

  // ----- The attestation store

  /** The attestation of an id: its handle and a signature of the attestor. */
  datatype Row = Row(handle: Bytes, sig: Bytes)

  /** What the store holds: well-formed rows whose signatures verify. */
  ghost predicate StoreOk(attests: (Id, Bytes, Bytes) -> bool, store: map<Id, Row>) {
    forall id :: id in store ==>
      WellFormed(Stamp(store[id].handle, id, store[id].sig)) && attests(id, store[id].handle, store[id].sig)
  }

  /** Storing an attestation whose normalized handle is `norm` (`None`: not a handle). */
  function StoreAttestation(attests: (Id, Bytes, Bytes) -> bool, store: map<Id, Row>, id: Id, norm: Option<Bytes>, sig: Bytes): map<Id, Row> {
    if norm.None? || |sig| != SIG_SIZE || !attests(id, norm.value, sig) then store
    else store[id := Row(norm.value, sig)]
  }

  lemma StoreKeeps(attests: (Id, Bytes, Bytes) -> bool, store: map<Id, Row>, id: Id, norm: Option<Bytes>, sig: Bytes)
    requires StoreOk(attests, store) && (norm.Some? ==> 1 <= |norm.value| <= MAX_X_HANDLE)
    ensures var t := StoreAttestation(attests, store, id, norm, sig);
            && StoreOk(attests, t) && t - {id} == store - {id}
            && (if norm.Some? && |sig| == SIG_SIZE && attests(id, norm.value, sig)
                then id in t && t[id] == Row(norm.value, sig) else t == store)
  {
    if norm.Some? && |sig| == SIG_SIZE && attests(id, norm.value, sig) {
      assert WellFormed(Stamp(norm.value, id, sig));
      hide WellFormed;
      assert store[id := Row(norm.value, sig)] - {id} == store - {id};
    }
  }

  /** The stamps of those ids that have a usable attestation. */
  function StampsFor(store: map<Id, Row>, ids: seq<Id>): (stamps: seq<Stamp>)
    ensures AllWellFormed(stamps)
  {
    if ids == [] then []
    else
      var more := StampsFor(store, ids[1..]);
      if ids[0] in store && WellFormed(Stamp(store[ids[0]].handle, ids[0], store[ids[0]].sig))
      then [Stamp(store[ids[0]].handle, ids[0], store[ids[0]].sig)] + more else more
  }

  /** With an attestation for every id, the stamps are those of the ids, in order, and they verify. */
  lemma {:induction false} AllStamped(attests: (Id, Bytes, Bytes) -> bool, store: map<Id, Row>, ids: seq<Id>)
    requires StoreOk(attests, store) && forall i :: 0 <= i < |ids| ==> ids[i] in store
    ensures Stamped(attests, ids, StampsFor(store, ids))
  {
    if ids != [] {
      AllStamped(attests, store, ids[1..]);
    }
  }

  /** One verified stamp for each id, in order. */
  ghost predicate Stamped(attests: (Id, Bytes, Bytes) -> bool, ids: seq<Id>, stamps: seq<Stamp>) {
    && |stamps| == |ids|
    && forall i :: 0 <= i < |ids| ==> stamps[i].id == ids[i] && attests(ids[i], stamps[i].handle, stamps[i].sig)
  }

  lemma StampsForNone(store: map<Id, Row>)
    ensures StampsFor(store, []) == []
  {
  }

  /** One round of collecting stamps. */
  lemma OneStamp(st: Stamp)
    ensures AllWellFormed([st]) <==> WellFormed(st)
  {
    hide WellFormed;
    assert [st][0] == st;
  }

  lemma StampsForNext(store: map<Id, Row>, ids: seq<Id>)
    requires ids != []
    ensures var more := StampsFor(store, ids[1..]);
      StampsFor(store, ids) ==
      if ids[0] in store && WellFormed(Stamp(store[ids[0]].handle, ids[0], store[ids[0]].sig))
      then [Stamp(store[ids[0]].handle, ids[0], store[ids[0]].sig)] + more else more
  {
    hide WellFormed;
  }

  lemma Shifted<T>(a: seq<T>, b: seq<T>, c: seq<T>)
    ensures a + (b + c) == (a + b) + c
  {
  }

  lemma StampsForStep(store: map<Id, Row>, ids: seq<Id>, i: nat, done: seq<Stamp>)
    requires i < |ids|
    ensures var st := if ids[i] in store then [Stamp(store[ids[i]].handle, ids[i], store[ids[i]].sig)] else [];
      var more := StampsFor(store, ids[i + 1..]);
      done + StampsFor(store, ids[i..]) == if AllWellFormed(st) then (done + st) + more else done + more
  {
    hide StampsFor, WellFormed, AllWellFormed;
    var t := ids[i..];
    assert t[0] == ids[i] && t[1..] == ids[i + 1..];
    StampsForNext(store, t);
    if ids[i] in store {
      var st := Stamp(store[ids[i]].handle, ids[i], store[ids[i]].sig);
      OneStamp(st);
      Shifted(done, [st], StampsFor(store, ids[i + 1..]));
    } else {
      assert done + [] == done;
    }
  }

  method MakeXvaCommitment(store: map<Id, Row>, sortedIds: seq<Id>) returns (script: Bytes)
    ensures script == ReturnScript(XvaData(StampsFor(store, sortedIds)))
  {
    hide StampsBytes, StampBytes, StampsFor, LittleEndian;
    var n, body, i := 0, [], 0;
    ghost var done: seq<Stamp> := [];
    assert sortedIds[0..] == sortedIds;
    assert [] + StampsFor(store, sortedIds) == StampsFor(store, sortedIds);
    while i < |sortedIds|
      invariant 0 <= i <= |sortedIds| && AllWellFormed(done) && n == |done| && body == StampsBytes(done)
      invariant done + StampsFor(store, sortedIds[i..]) == StampsFor(store, sortedIds)
    {
      var id := sortedIds[i];
      StampsForStep(store, sortedIds, i, done);
      if id in store && |store[id].sig| == SIG_SIZE && 1 <= |store[id].handle| <= MAX_X_HANDLE {
        var st := Stamp(store[id].handle, id, store[id].sig);
        StampsFold(done, st);
        done := done + [st];
        n := n + 1;
        body := body + StampBytes(st);
      }
      i := i + 1;
    }
    StampsForNone(store);
    assert sortedIds[|sortedIds|..] == [] && done + [] == done;
    script := [OP_RETURN] + Push(ATTEST_MAGIC + LittleEndian(n % 0x1_0000_0000, 4) + body);
  }

  lemma StampsBytesNext(stamps: seq<Stamp>)
    requires AllWellFormed(stamps) && stamps != []
    ensures AllWellFormed(stamps[1..]) && StampsBytes(stamps) == StampBytes(stamps[0]) + StampsBytes(stamps[1..])
  {
    hide StampBytes;
  }

  lemma AllAppended(stamps: seq<Stamp>, st: Stamp)
    requires AllWellFormed(stamps) && WellFormed(st)
    ensures AllWellFormed(stamps + [st])
  {
    hide WellFormed;
  }

  lemma {:induction false} StampsFold(stamps: seq<Stamp>, st: Stamp)
    requires AllWellFormed(stamps) && WellFormed(st)
    ensures AllWellFormed(stamps + [st]) && StampsBytes(stamps + [st]) == StampsBytes(stamps) + StampBytes(st)
  {
    hide AllWellFormed, WellFormed, StampBytes, StampsBytes;
    AllAppended(stamps, st);
    StampsBytesNext(stamps + [st]);
    if stamps == [] {
      assert [] + [st] == [st] && [st][1..] == [];
      NoStampBytes(st);
    } else {
      StampsBytesNext(stamps);
      assert (stamps + [st])[1..] == stamps[1..] + [st];
      StampsFold(stamps[1..], st);
      FirstFormed(stamps);
      Shifted(StampBytes(stamps[0]), StampsBytes(stamps[1..]), StampBytes(st));
    }
  }

  lemma FirstFormed(stamps: seq<Stamp>)
    requires AllWellFormed(stamps) && stamps != []
    ensures WellFormed(stamps[0])
  {
  }

  lemma NoStampBytes(st: Stamp)
    requires WellFormed(st)
    ensures AllWellFormed([]) && StampsBytes([]) == [] && StampBytes(st) + [] == [] + StampBytes(st)
  {
  }

  /** The check accepts exactly the scripts that carry one verified stamp for each id, in order. */
  method CheckXvaForIds(attests: (Id, Bytes, Bytes) -> bool, ids: seq<Id>, script: Bytes) returns (ok: bool)
    ensures ok <==> exists stamps :: Carries(script, stamps) && Stamped(attests, ids, stamps)
  {
    hide Carries;
    var got := ParseXvaCommitment(script);
    if got.None? || |got.value| != |ids| {
      forall stamps | Carries(script, stamps) ensures !Stamped(attests, ids, stamps) {
        CarriesOnce(script, got.value, stamps);
      }
      return false;
    }
    var stamps := got.value;
    var i := 0;
    ok := true;
    while i < |ids|
      invariant 0 <= i <= |ids|
      invariant ok <==> forall j :: 0 <= j < i ==> stamps[j].id == ids[j] && attests(ids[j], stamps[j].handle, stamps[j].sig)
    {
      ok := ok && stamps[i].id == ids[i] && attests(ids[i], stamps[i].handle, stamps[i].sig);
      i := i + 1;
    }
    forall other | Carries(script, other) ensures other == stamps {
      CarriesOnce(script, stamps, other);
    }
  }

  // ----- The seed signature

  function SeedData(sig: Bytes): Bytes {
    SEED_BLOCK_MAGIC + sig
  }

  /** An output that the validator takes for the seed signature. */
  predicate LooksSeed(script: Bytes) {
    && |script| > 5 && ReturnData(script).Some?
    && |ReturnData(script).value| >= 4 && ReturnData(script).value[..4] == SEED_BLOCK_MAGIC
  }

  /** The seed signature a script carries. */
  predicate CarriesSeed(script: Bytes, sig: Bytes) {
    |sig| == SIG_SIZE && ReturnData(script) == Some(SeedData(sig))
  }

  lemma SeedRoundTrip(sig: Bytes)
    requires |sig| == SIG_SIZE
    ensures CarriesSeed(ReturnScript(SeedData(sig)), sig) && LooksSeed(ReturnScript(SeedData(sig)))
  {
    ReturnRoundTrip(SeedData(sig));
    assert SeedData(sig)[..4] == SEED_BLOCK_MAGIC;
  }

  method CheckSeedBlockCommitment(seedOk: Bytes -> bool, script: Bytes) returns (ok: bool)
    ensures ok <==> exists sig :: CarriesSeed(script, sig) && seedOk(sig)
  {
    var got := ReturnData(script);
    forall sig | CarriesSeed(script, sig)
      ensures |got.value| == 4 + SIG_SIZE && got.value[..4] == SEED_BLOCK_MAGIC
    {
      assert SeedData(sig)[..4] == SEED_BLOCK_MAGIC;
    }
    if got.None? || |got.value| != 4 + SIG_SIZE || got.value[..4] != SEED_BLOCK_MAGIC {
      return false;
    }
    var sig := got.value[4..];
    assert got.value == SeedData(sig);
    forall other | CarriesSeed(script, other) ensures other == sig {
      assert SeedData(other)[4..] == other;
    }
    ok := seedOk(sig);
  }

  /** The three kinds of commitment cannot be mistaken for one another. */
  lemma KindsDiffer(script: Bytes, ids: seq<Id>, stamps: seq<Stamp>)
    ensures !(Commits(script, ids) && Carries(script, stamps))
    ensures !(Commits(script, ids) && LooksSeed(script))
    ensures !(Carries(script, stamps) && LooksSeed(script))
  {
    hide LittleEndian, IdBytes, StampsBytes;
    assert CommitData(ids)[1] == 0x48;
    if AllWellFormed(stamps) {
      assert XvaData(stamps)[1] == 0x56;
    }
    if LooksSeed(script) {
      assert ReturnData(script).value[..4][1] == 0x53;
    }
  }
}
