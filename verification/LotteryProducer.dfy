/** The producer of lottery coinbases, and why the validator accepts what it builds (src/lottery.cpp). */
module LotteryProducer {
  import opened Options
  import opened ByteStrings
  import opened Powers
  import opened LotteryCodec
  import opened LotteryStamps
  import opened LotteryDraw
  import opened LotteryRegistry
  import LotteryTime
  import opened LotteryCoinbase

  /** The ids in the draw: active in the slot and, where required, attested. */
  function Eligible(attest: bool, nodes: map<Id, Node>, store: map<Id, Row>, slot: int, now: int): seq<Id> {
    var ids := ActiveForSlot(nodes, slot, now);
    if attest then Filter(ids, id => id in store) else ids
  }

  function Destination(nodes: map<Id, Node>, id: Id, fallback: Bytes): Bytes {
    if id in nodes && nodes[id].script != [] then nodes[id].script else fallback
  }

  function Payments(ctx: Ctx, nodes: map<Id, Node>, winners: seq<Id>, fees: int, fallback: Bytes): (pays: seq<TxOut>)
    ensures |pays| == |winners|
  {
    var parts := Split(ctx.subsidy, |winners|);
    seq(|winners|, i requires 0 <= i < |winners| =>
      TxOut((if parts == [] then 0 else parts[i]) + (if i == 0 then fees else 0), Destination(nodes, winners[i], fallback)))
  }

  /** The commitment outputs; `sig` is the seed signature of the set, if the key is at hand. */
  function Commitments(attest: bool, store: map<Id, Row>, ids: seq<Id>, sig: Option<Bytes>): seq<TxOut> {
    [TxOut(0, ReturnScript(CommitData(ids)))] +
    (if !attest then []
     else [TxOut(0, ReturnScript(XvaData(StampsFor(store, ids))))] +
          (if sig.Some? && |sig.value| == SIG_SIZE then [TxOut(0, ReturnScript(SeedData(sig.value)))] else []))
  }

  /** The coinbase outputs; `None` when nobody wins and the coinbase stays as it is. */
  function Coinbase(ctx: Ctx, nodes: map<Id, Node>, store: map<Id, Row>, ids: seq<Id>, fees: int, fallback: Bytes, sig: Option<Bytes>): Option<seq<TxOut>> {
    var winners := Winners(ids, ctx.stream, ctx.prizes);
    if winners == [] then None
    else Some(Payments(ctx, nodes, winners, fees, fallback) + Commitments(ctx.attest, store, ids, sig))
  }

  // ----- Scanning what was built

  /** A script the scan passes over: not empty and not OP_RETURN. */
  predicate Plain(script: Bytes) {
    script != [] && script[0] != OP_RETURN
  }

  lemma PlainHasNothing(script: Bytes)
    requires Plain(script)
    ensures !HasCommit(script) && !HasStamps(script) && !LooksSeed(script)
  {
    assert ReturnData(script) == None;
  }

  lemma {:induction false} FirstAfter(pays: seq<TxOut>, tail: seq<TxOut>, p: Bytes -> bool)
    requires forall i :: 0 <= i < |pays| ==> !p(pays[i].script)
    ensures First(pays + tail, p) == First(tail, p)
  {
    if pays == [] {
      assert pays + tail == tail;
    } else {
      assert (pays + tail)[1..] == pays[1..] + tail;
      FirstAfter(pays[1..], tail, p);
    }
  }

  lemma {:induction false} PaysOf(pays: seq<TxOut>, tail: seq<TxOut>)
    requires forall i :: 0 <= i < |pays| ==> Plain(pays[i].script)
    requires forall i :: 0 <= i < |tail| ==> tail[i].script != [] && tail[i].script[0] == OP_RETURN
    ensures Pays(pays + tail) == pays
  {
    if pays != [] {
      assert (pays + tail)[1..] == pays[1..] + tail;
      PaysOf(pays[1..], tail);
    } else {
      assert pays + tail == tail;
      NoPays(tail);
    }
  }

  lemma {:induction false} NoPays(tail: seq<TxOut>)
    requires forall i :: 0 <= i < |tail| ==> tail[i].script != [] && tail[i].script[0] == OP_RETURN
    ensures Pays(tail) == []
  {
    if tail != [] {
      NoPays(tail[1..]);
    }
  }

  /** The commitment outputs are found and read as the set, its stamps and its signature. */
  lemma CommitmentsFound(ctx: Ctx, store: map<Id, Row>, ids: seq<Id>, sig: Option<Bytes>)
    requires StrictlySorted(ids) && |ids| <= MAX_COMMITTED
    ensures First(Commitments(ctx.attest, store, ids, sig), HasCommit) == Some(ReturnScript(CommitData(ids)))
    ensures Commits(ReturnScript(CommitData(ids)), ids)
  {
    CommitRoundTrip(ids);
    assert HasCommit(ReturnScript(CommitData(ids)));
    hide HasCommit;
  }

  lemma StampsFound(ctx: Ctx, store: map<Id, Row>, ids: seq<Id>, sig: Bytes)
    requires StrictlySorted(ids) && |ids| <= MAX_COMMITTED && StoreOk(ctx.attests, store)
    requires ctx.attest && (forall i :: 0 <= i < |ids| ==> ids[i] in store)
    requires |sig| == SIG_SIZE && ctx.seedOk(ids, sig)
    ensures Attested(ctx, Commitments(true, store, ids, Some(sig)), ids)
  {
    hide Pow, StoreOk, XvaData, CommitData, SeedData, ReturnScript, Commits, Carries, CarriesSeed, LooksSeed, StrictlySorted;
    var xhb, xva, xsd := ReturnScript(CommitData(ids)), ReturnScript(XvaData(StampsFor(store, ids))), ReturnScript(SeedData(sig));
    AllStamped(ctx.attests, store, ids);
    CommitRoundTrip(ids);
    XvaRoundTrip(StampsFor(store, ids));
    SeedRoundTrip(sig);
    OneKind(xhb);
    OneKind(xva);
    assert HasCommit(xhb) && HasStamps(xva);
    hide HasCommit, HasStamps;
    var outs := Commitments(true, store, ids, Some(sig));
    assert outs == [TxOut(0, xhb), TxOut(0, xva), TxOut(0, xsd)];
    assert outs[1..] == [TxOut(0, xva), TxOut(0, xsd)] && outs[1..][1..] == [TxOut(0, xsd)];
    assert First(outs, HasStamps) == Some(xva);
    assert First([TxOut(0, xsd)], LooksSeed) == Some(xsd);
    assert First(outs, LooksSeed) == First(outs[1..], LooksSeed) == First(outs[1..][1..], LooksSeed);
  }

  lemma CommitmentsReturn(attest: bool, store: map<Id, Row>, ids: seq<Id>, sig: Option<Bytes>)
    ensures var outs := Commitments(attest, store, ids, sig);
      forall i :: 0 <= i < |outs| ==> outs[i].script != [] && outs[i].script[0] == OP_RETURN
  {
  }

  /** An OP_RETURN among the payments makes them too few. */
  lemma {:induction false} ReturnsShorten(pays: seq<TxOut>, tail: seq<TxOut>, k: nat)
    requires forall i :: 0 <= i < |tail| ==> tail[i].script != [] && tail[i].script[0] == OP_RETURN
    requires k < |pays| ==> pays[k].script != [] && pays[k].script[0] == OP_RETURN
    ensures |Pays(pays + tail)| <= |pays| && (k < |pays| ==> |Pays(pays + tail)| < |pays|)
  {
    if pays == [] {
      assert pays + tail == tail;
      NoPays(tail);
    } else {
      assert (pays + tail)[1..] == pays[1..] + tail;
      ReturnsShorten(pays[1..], tail, if k == 0 then |pays| else k - 1);
    }
  }

  // ----- Producer meets validator

  /** The attestor's signature of the set is at hand. */
  predicate Signed(ctx: Ctx, ids: seq<Id>, sig: Option<Bytes>) {
    sig.Some? && |sig.value| == SIG_SIZE && ctx.seedOk(ids, sig.value)
  }

  /** What the coinbase of a draw needs, amounts apart. */
  predicate Presentable(ctx: Ctx, nodes: map<Id, Node>, ids: seq<Id>, sig: Option<Bytes>) {
    && |ids| <= MAX_COMMITTED && AllPlain(nodes, Winners(ids, ctx.stream, ctx.prizes))
    && (ctx.attest ==> Signed(ctx, ids, sig))
  }

  predicate AllPlain(nodes: map<Id, Node>, winners: seq<Id>) {
    forall x :: x in winners && x in nodes ==> Plain(nodes[x].script)
  }

  /** A set the producer draws from: sorted nodes of the registry, attested where required. */
  ghost predicate Drawable(ctx: Ctx, r: Reg, store: map<Id, Row>, ids: seq<Id>) {
    && RegOk(ctx.idOf, r) && StoreOk(ctx.attests, store) && StrictlySorted(ids)
    && (forall x :: x in ids ==> x in r.nodes) && (ctx.attest ==> forall x :: x in ids ==> x in store)
  }

  lemma EligibleIds(ctx: Ctx, r: Reg, store: map<Id, Row>, slot: int, now: int)
    requires RegOk(ctx.idOf, r) && StoreOk(ctx.attests, store)
    ensures Drawable(ctx, r, store, Eligible(ctx.attest, r.nodes, store, slot, now))
  {
    hide Pow, Filter, ActiveForSlot, Commits, RegOk, StoreOk;
    ActiveSet(r.nodes, slot, now);
    Filtered(ActiveForSlot(r.nodes, slot, now), id => id in store);
  }

  lemma WinnersIn(ctx: Ctx, r: Reg, store: map<Id, Row>, ids: seq<Id>)
    requires Drawable(ctx, r, store, ids)
    ensures forall x :: x in Winners(ids, ctx.stream, ctx.prizes) ==> x in r.nodes
  {
    hide Pow, RegOk, StoreOk, Winners;
    assert Distinct(ids);
    WinnersOf(ids, ctx.stream, ctx.prizes);
  }

  /** Payments go to the scripts of registered winners, which are not empty and hash to their ids. */
  lemma PaidScripts(ctx: Ctx, r: Reg, winners: seq<Id>, fees: int, fallback: Bytes)
    requires RegOk(ctx.idOf, r) && (forall x :: x in winners ==> x in r.nodes)
    ensures var pays := Payments(ctx, r.nodes, winners, fees, fallback);
      forall i :: 0 <= i < |winners| ==>
        winners[i] in r.nodes && pays[i].script == r.nodes[winners[i]].script != [] && ctx.idOf(pays[i].script) == winners[i]
  {
    hide Pow;
    forall i | 0 <= i < |winners| ensures winners[i] in r.nodes && NodeOk(ctx.idOf, r, winners[i]) {
      assert winners[i] in winners;
    }
  }

  lemma PaymentsFit(ctx: Ctx, r: Reg, winners: seq<Id>, fees: int, fallback: Bytes)
    requires RegOk(ctx.idOf, r) && (forall x :: x in winners ==> x in r.nodes) && winners != []
    ensures PaysWinners(ctx, Payments(ctx, r.nodes, winners, fees, fallback), winners, fees) <==>
            ctx.subsidy > 0 && 0 <= fees && ctx.subsidy + fees <= MAX_MONEY
  {
    hide Pow, RegOk;
    PaidScripts(ctx, r, winners, fees, fallback);
  }

  /** Without a subsidy the first winner is paid the fees and the others nothing. */
  lemma PaymentsOfFees(ctx: Ctx, r: Reg, winners: seq<Id>, fees: int, fallback: Bytes)
    requires RegOk(ctx.idOf, r) && (forall x :: x in winners ==> x in r.nodes) && winners != [] && ctx.subsidy <= 0
    ensures var pays := Payments(ctx, r.nodes, winners, fees, fallback);
      FirstFits(ctx, pays, winners) && (AmountsOk(ctx, pays) <==> 0 <= fees <= MAX_MONEY)
  {
    PaidScripts(ctx, r, winners, fees, fallback);
    var vs := Values(Payments(ctx, r.nodes, winners, fees, fallback));
    assert vs[0] == fees && forall i :: 0 < i < |vs| ==> vs[i] == 0;
    SumOfZeros(vs[1..]);
  }

  lemma {:induction false} SumOfZeros(vs: seq<int>)
    requires forall i :: 0 <= i < |vs| ==> vs[i] == 0
    ensures Sum(vs) == 0
  {
    if vs != [] {
      SumOfZeros(vs[1..]);
    }
  }

  /** A presentable coinbase is found to commit to its set, attested where required, with all its payments. */
  lemma Seen(ctx: Ctx, r: Reg, store: map<Id, Row>, ids: seq<Id>, fees: int, fallback: Bytes, sig: Option<Bytes>)
    requires Drawable(ctx, r, store, ids) && Presentable(ctx, r.nodes, ids, sig)
    requires Coinbase(ctx, r.nodes, store, ids, fees, fallback, sig).Some?
    ensures var outs := Coinbase(ctx, r.nodes, store, ids, fees, fallback, sig).value;
      && (forall i :: 0 <= i < |outs| ==> outs[i].script != [])
      && First(outs, HasCommit).Some? && Commits(First(outs, HasCommit).value, ids)
      && (ctx.attest ==> Attested(ctx, outs, ids))
      && Pays(outs) == Payments(ctx, r.nodes, Winners(ids, ctx.stream, ctx.prizes), fees, fallback)
  {
    hide Pow, RegOk, StoreOk, Payments, Commitments, First, Pays, Attested, Commits, HasCommit, HasStamps, LooksSeed, Winners, StrictlySorted, Plain;
    var winners := Winners(ids, ctx.stream, ctx.prizes);
    WinnersIn(ctx, r, store, ids);
    var pays, tail := Payments(ctx, r.nodes, winners, fees, fallback), Commitments(ctx.attest, store, ids, sig);
    PaidScripts(ctx, r, winners, fees, fallback);
    CommitmentsReturn(ctx.attest, store, ids, sig);
    CommitmentsFound(ctx, store, ids, sig);
    if ctx.attest {
      StampsFound(ctx, store, ids, sig.value);
      SigChosen(store, ids, sig);
    }
    SeenThrough(ctx, pays, tail, ids);
  }

  /** Plain payments in front of the commitments change nothing in what the validator finds. */
  lemma SeenThrough(ctx: Ctx, pays: seq<TxOut>, tail: seq<TxOut>, ids: seq<Id>)
    requires forall i :: 0 <= i < |pays| ==> Plain(pays[i].script)
    requires forall i :: 0 <= i < |tail| ==> tail[i].script != [] && tail[i].script[0] == OP_RETURN
    ensures First(pays + tail, HasCommit) == First(tail, HasCommit) && Pays(pays + tail) == pays
    ensures Attested(ctx, pays + tail, ids) <==> Attested(ctx, tail, ids)
    ensures forall i :: 0 <= i < |pays + tail| ==> (pays + tail)[i].script != []
  {
    hide Pow, First, Pays, Commits, HasCommit, HasStamps, LooksSeed, Carries, CarriesSeed;
    forall i | 0 <= i < |pays| ensures !HasCommit(pays[i].script) && !HasStamps(pays[i].script) && !LooksSeed(pays[i].script) {
      PlainHasNothing(pays[i].script);
    }
    FirstAfter(pays, tail, HasCommit);
    FirstAfter(pays, tail, HasStamps);
    FirstAfter(pays, tail, LooksSeed);
    PaysOf(pays, tail);
  }

  lemma SigChosen(store: map<Id, Row>, ids: seq<Id>, sig: Option<Bytes>)
    requires sig.Some?
    ensures Commitments(true, store, ids, sig) == Commitments(true, store, ids, Some(sig.value))
  {
  }

  /** What is not presentable is not found so. */
  lemma SeenOnly(ctx: Ctx, r: Reg, store: map<Id, Row>, ids: seq<Id>, fees: int, fallback: Bytes, sig: Option<Bytes>)
    requires Drawable(ctx, r, store, ids)
    requires Coinbase(ctx, r.nodes, store, ids, fees, fallback, sig).Some?
    requires var outs := Coinbase(ctx, r.nodes, store, ids, fees, fallback, sig).value;
      && First(outs, HasCommit).Some? && Commits(First(outs, HasCommit).value, ids)
      && (ctx.attest ==> Attested(ctx, outs, ids)) && |Pays(outs)| == |Winners(ids, ctx.stream, ctx.prizes)|
    ensures Presentable(ctx, r.nodes, ids, sig)
  {
    assert |ids| <= MAX_COMMITTED;
    hide Pow, RegOk, StoreOk, Payments, Commitments, First, Pays, Attested, Commits, HasCommit, HasStamps, LooksSeed, Winners, StrictlySorted;
    var winners := Winners(ids, ctx.stream, ctx.prizes);
    WinnersIn(ctx, r, store, ids);
    var pays, tail := Payments(ctx, r.nodes, winners, fees, fallback), Commitments(ctx.attest, store, ids, sig);
    PaidScripts(ctx, r, winners, fees, fallback);
    CommitmentsReturn(ctx.attest, store, ids, sig);
    forall i | 0 <= i < |winners| ensures Plain(pays[i].script) {
      if !Plain(pays[i].script) {
        ReturnsShorten(pays, tail, i);
      }
    }
    forall x | x in winners && x in r.nodes ensures Plain(r.nodes[x].script) {
      var i :| 0 <= i < |winners| && winners[i] == x;
    }
    SeenThrough(ctx, pays, tail, ids);
    if ctx.attest {
      SignedOnly(ctx, store, ids, sig);
    }
  }

  lemma SignedOnly(ctx: Ctx, store: map<Id, Row>, ids: seq<Id>, sig: Option<Bytes>)
    requires StrictlySorted(ids) && |ids| <= MAX_COMMITTED && Attested(ctx, Commitments(true, store, ids, sig), ids)
    requires forall x :: x in ids ==> x in store
    ensures Signed(ctx, ids, sig)
  {
    hide Pow, XvaData, CommitData, ReturnScript, Commits, Carries, LooksSeed, StrictlySorted;
    var xhb, xva := ReturnScript(CommitData(ids)), ReturnScript(XvaData(StampsFor(store, ids)));
    CommitRoundTrip(ids);
    StampsCount(store, ids);
    XvaRoundTrip(StampsFor(store, ids));
    OneKind(xhb);
    OneKind(xva);
    assert HasCommit(xhb) && HasStamps(xva);
    hide HasCommit, HasStamps;
    var outs := Commitments(true, store, ids, sig);
    var seeds := if sig.Some? && |sig.value| == SIG_SIZE then [TxOut(0, ReturnScript(SeedData(sig.value)))] else [];
    assert outs == [TxOut(0, xhb), TxOut(0, xva)] + seeds;
    FirstAfter([TxOut(0, xhb), TxOut(0, xva)], seeds, LooksSeed);
    assert seeds != [];
    SeedOnce(ctx, ids, outs, sig.value);
  }

  lemma SeedOnce(ctx: Ctx, ids: seq<Id>, outs: seq<TxOut>, sig: Bytes)
    requires Attested(ctx, outs, ids) && |sig| == SIG_SIZE
    requires First(outs, LooksSeed) == First([TxOut(0, ReturnScript(SeedData(sig)))], LooksSeed)
    ensures ctx.seedOk(ids, sig)
  {
    hide Pow, HasStamps, Carries;
    var xsd := ReturnScript(SeedData(sig));
    SeedRoundTrip(sig);
    hide LooksSeed, ReturnScript, ReturnData;
    assert First([TxOut(0, xsd)], LooksSeed) == Some(xsd);
    var other :| CarriesSeed(xsd, other) && ctx.seedOk(ids, other);
    assert SeedData(other)[4..] == other && SeedData(sig)[4..] == sig;
  }

  lemma {:induction false} StampsCount(store: map<Id, Row>, ids: seq<Id>)
    ensures |StampsFor(store, ids)| <= |ids|
  {
    if ids != [] {
      StampsCount(store, ids[1..]);
    }
  }

  /**
   * The coinbase of the set the producer drew from is acceptable for that set if and only if the set
   * has at most 1024 ids, no winner's script is OP_RETURN, the attestor signed where required, there
   * is a subsidy, and subsidy and fees are in the money range.  Without a subsidy and otherwise the
   * same, the validator reads a share that is not there.
   */
  lemma ProducerMeetsValidator(ctx: Ctx, r: Reg, store: map<Id, Row>, slot: int, now: int, fees: int, fallback: Bytes, sig: Option<Bytes>)
    requires RegOk(ctx.idOf, r) && StoreOk(ctx.attests, store)
    ensures var ids := Eligible(ctx.attest, r.nodes, store, slot, now);
      var outs := Coinbase(ctx, r.nodes, store, ids, fees, fallback, sig);
      && (outs.Some? <==> |ids| >= 1 && ctx.prizes >= 1)
      && (outs.Some? ==>
        && (AcceptableFor(ctx, outs.value, ids, fees) <==>
            Presentable(ctx, r.nodes, ids, sig) && ctx.subsidy > 0 && 0 <= fees && ctx.subsidy + fees <= MAX_MONEY)
        && (AcceptableFor(ctx, outs.value, ids, fees) ==> Acceptable(ctx, outs.value))
        && (ctx.subsidy <= 0 ==>
            (ReadsNoShareFor(ctx, outs.value, ids) <==> Presentable(ctx, r.nodes, ids, sig) && 0 <= fees <= MAX_MONEY)
            && (ReadsNoShareFor(ctx, outs.value, ids) ==> ReadsNoShare(ctx, outs.value))))
  {
    var ids := Eligible(ctx.attest, r.nodes, store, slot, now);
    EligibleIds(ctx, r, store, slot, now);
    assert Distinct(ids);
    WinnersOf(ids, ctx.stream, ctx.prizes);
    if ids != [] && ctx.prizes >= 1 {
      DrawnMeets(ctx, r, store, ids, fees, fallback, sig);
    }
  }

  lemma DrawnMeets(ctx: Ctx, r: Reg, store: map<Id, Row>, ids: seq<Id>, fees: int, fallback: Bytes, sig: Option<Bytes>)
    requires Drawable(ctx, r, store, ids) && Coinbase(ctx, r.nodes, store, ids, fees, fallback, sig).Some?
    ensures var outs := Coinbase(ctx, r.nodes, store, ids, fees, fallback, sig).value;
      && (AcceptableFor(ctx, outs, ids, fees) <==>
          Presentable(ctx, r.nodes, ids, sig) && ctx.subsidy > 0 && 0 <= fees && ctx.subsidy + fees <= MAX_MONEY)
      && (AcceptableFor(ctx, outs, ids, fees) ==> Acceptable(ctx, outs))
      && (ctx.subsidy <= 0 ==>
          (ReadsNoShareFor(ctx, outs, ids) <==> Presentable(ctx, r.nodes, ids, sig) && 0 <= fees <= MAX_MONEY)
          && (ReadsNoShareFor(ctx, outs, ids) ==> ReadsNoShare(ctx, outs)))
  {
    var winners := Winners(ids, ctx.stream, ctx.prizes);
    var outs := Coinbase(ctx, r.nodes, store, ids, fees, fallback, sig).value;
    WinnersIn(ctx, r, store, ids);
    PaymentsFit(ctx, r, winners, fees, fallback);
    if ctx.subsidy <= 0 {
      PaymentsOfFees(ctx, r, winners, fees, fallback);
    }
    assert AcceptableFor(ctx, outs, ids, fees) ==> |Pays(outs)| == |winners|;
    hide Pow, Drawable, Payments, Commitments, First, Pays, PaysWinners, Attested, Commits, HasCommit, Winners, Presentable, AmountsOk, Coinbase;
    if Presentable(ctx, r.nodes, ids, sig) {
      Seen(ctx, r, store, ids, fees, fallback, sig);
    } else if AcceptableFor(ctx, outs, ids, fees) || ReadsNoShareFor(ctx, outs, ids) {
      SeenOnly(ctx, r, store, ids, fees, fallback, sig);
    }
  }

  /** Only the first commitment output can commit to a set, and only to the one drawn from. */
  lemma OwnCommit(ctx: Ctx, store: map<Id, Row>, ids: seq<Id>, sig: Option<Bytes>, read: seq<Id>)
    requires StrictlySorted(ids) && |CommitData(ids)| < 0x1_0000_0000 && |XvaData(StampsFor(store, ids))| < 0x1_0000_0000
    requires var c := First(Commitments(ctx.attest, store, ids, sig), HasCommit); c.Some? && Commits(c.value, read)
    ensures read == ids
  {
    hide Pow, First, LooksSeed, StrictlySorted;
    var xhb, xva := ReturnScript(CommitData(ids)), ReturnScript(XvaData(StampsFor(store, ids)));
    CommitRoundTripIff(ids);
    NotACommit(StampsFor(store, ids));
    if sig.Some? && |sig.value| == SIG_SIZE {
      SeedRoundTrip(sig.value);
      OneKind(ReturnScript(SeedData(sig.value)));
    }
    hide Commits, CommitData, XvaData, ReturnScript, SeedData;
    var outs := Commitments(ctx.attest, store, ids, sig);
    if |ids| <= MAX_COMMITTED {
      CommitmentsFound(ctx, store, ids, sig);
      CommitsOnce(xhb, read, ids);
    } else {
      assert !HasCommit(xhb);
      FirstAfter(outs, [], HasCommit);
      assert outs + [] == outs;
      FirstNone(HasCommit);
      assert false;
    }
  }

  lemma NotACommit(stamps: seq<Stamp>)
    requires AllWellFormed(stamps) && |XvaData(stamps)| < 0x1_0000_0000
    ensures !HasCommit(ReturnScript(XvaData(stamps)))
  {
    hide LittleEndian, IdBytes, StampsBytes;
    ReturnRoundTrip(XvaData(stamps));
    assert XvaData(stamps)[1] == 0x56;
    forall ids ensures !Commits(ReturnScript(XvaData(stamps)), ids) {
      assert CommitData(ids)[1] == 0x48;
    }
  }

  /**
   * When no winner's own script is a commitment, the verdict on the producer's coinbase is the one on
   * the set it drew from.
   */
  lemma DrawnDecides(ctx: Ctx, r: Reg, store: map<Id, Row>, ids: seq<Id>, fees: int, fallback: Bytes, sig: Option<Bytes>)
    requires Drawable(ctx, r, store, ids) && Coinbase(ctx, r.nodes, store, ids, fees, fallback, sig).Some?
    requires |CommitData(ids)| < 0x1_0000_0000 && |XvaData(StampsFor(store, ids))| < 0x1_0000_0000
    requires forall x :: x in Winners(ids, ctx.stream, ctx.prizes) && x in r.nodes ==> !HasCommit(r.nodes[x].script)
    ensures var outs := Coinbase(ctx, r.nodes, store, ids, fees, fallback, sig).value;
      && (Acceptable(ctx, outs) <==> AcceptableFor(ctx, outs, ids, fees))
      && (ReadsNoShare(ctx, outs) <==> ctx.subsidy <= 0 && ReadsNoShareFor(ctx, outs, ids))
  {
    hide Pow, RegOk, StoreOk, StrictlySorted, Commitments, First, Pays, Attested, Commits, HasCommit, Winners, AmountsOk, CommitData, XvaData;
    var winners := Winners(ids, ctx.stream, ctx.prizes);
    var outs := Coinbase(ctx, r.nodes, store, ids, fees, fallback, sig).value;
    DrawnMeets(ctx, r, store, ids, fees, fallback, sig);
    WinnersIn(ctx, r, store, ids);
    var pays := Payments(ctx, r.nodes, winners, fees, fallback);
    PaidScripts(ctx, r, winners, fees, fallback);
    FirstAfter(pays, Commitments(ctx.attest, store, ids, sig), HasCommit);
    forall read | First(outs, HasCommit).Some? && Commits(First(outs, HasCommit).value, read) ensures read == ids {
      OwnCommit(ctx, store, ids, sig, read);
    }
    forall read, paid | AcceptableFor(ctx, outs, read, paid) ensures paid == fees {
      SeenOnly(ctx, r, store, ids, fees, fallback, sig);
      Seen(ctx, r, store, ids, fees, fallback, sig);
      assert pays[0].value == Due(ctx.subsidy, paid, |winners|, 0);
    }
  }

  lemma OneEligible(nodes: map<Id, Node>, store: map<Id, Row>, id: Id, slot: int, now: int)
    requires nodes.Keys == {id} && Frozen(nodes[id], slot * LotteryTime.SLOT_SECONDS)
    ensures |Eligible(false, nodes, store, slot, now)| == 1
  {
    hide Pow, FrozenIds, LiveIds, Frozen;
    FrozenIdsOf(nodes, slot);
    var ids := FrozenIds(nodes, slot);
    assert id in ids;
    forall i | 0 <= i < |ids| ensures ids[i] == id {
      assert ids[i] in ids;
    }
    AtMostOne(ids, id);
  }

  lemma AtMostOne(ids: seq<Id>, id: Id)
    requires StrictlySorted(ids) && forall i :: 0 <= i < |ids| ==> ids[i] == id
    ensures |ids| <= 1
  {
    if |ids| > 1 {
      FirstTwo(ids);
      assert false;
    }
  }

  lemma FirstTwo(ids: seq<Id>)
    requires StrictlySorted(ids) && |ids| > 1
    ensures ids[0] < ids[1]
  {
  }

  /** A block without a subsidy, attestation not required. */
  const ZERO: Ctx := Ctx(0, 1, n => 0, false, script => OneId(script), (id, h, sig) => false, (ids, sig) => false)

  function OneId(script: Bytes): Id {
    assert 1 < Pow(256, ID_SIZE) by { assert Pow(256, ID_SIZE) == 256 * Pow(256, ID_SIZE - 1); }
    if script == [] then 0 else 1
  }

  lemma OneNode() returns (r: Reg)
    ensures RegOk(ZERO.idOf, r) && r.nodes.Keys == {1} && r.nodes[1] == Node(1, [0x51], 599, 0, [0x61], 0)
  {
    assert OneId([0x51]) == 1;
    hide Pow;
    var id := OneId([0x51]);
    r := Reg(map[id := Node(id, [0x51], 599, 0, [0x61], 0)], map[[0x61] := id], id, [0x51]);
    assert NodeOk(ZERO.idOf, r, id);
  }

  /** A registry of one node whose block has no subsidy: the producer's coinbase makes the validator read out of range. */
  lemma NoSubsidyInstance() returns (r: Reg, outs: seq<TxOut>)
    ensures ZERO.subsidy == 0 && RegOk(ZERO.idOf, r) && StoreOk(ZERO.attests, map[])
    ensures Coinbase(ZERO, r.nodes, map[], Eligible(ZERO.attest, r.nodes, map[], 10, 600), 0, [0x51], None) == Some(outs)
    ensures ReadsNoShare(ZERO, outs)
  {
    hide Pow, RegOk, Eligible, Coinbase, ReadsNoShare, AcceptableFor, ReadsNoShareFor, Acceptable, Winners, OneId;
    r := OneNode();
    OneEligible(r.nodes, map[], 1, 10, 600);
    var ids := Eligible(false, r.nodes, map[], 10, 600);
    ProducerMeetsValidator(ZERO, r, map[], 10, 600, 0, [0x51], None);
    EligibleIds(ZERO, r, map[], 10, 600);
    WinnersIn(ZERO, r, map[], ids);
    assert Presentable(ZERO, r.nodes, ids, None);
    outs := Coinbase(ZERO, r.nodes, map[], ids, 0, [0x51], None).value;
  }

  // ----- Building the coinbase

  method BuildPayments(ctx: Ctx, nodes: map<Id, Node>, winners: seq<Id>, fees: int, fallback: Bytes) returns (pays: seq<TxOut>)
    ensures pays == Payments(ctx, nodes, winners, fees, fallback)
  {
    hide Pow;
    var parts := SplitReward(ctx.subsidy, |winners|);
    ghost var want := Payments(ctx, nodes, winners, fees, fallback);
    pays := [];
    var i := 0;
    while i < |winners|
      invariant 0 <= i <= |winners| && pays == want[..i]
    {
      var dest := if winners[i] in nodes then nodes[winners[i]].script else [];
      if dest == [] {
        dest := fallback;
      }
      var value := if parts == [] then 0 else parts[i];
      if i == 0 {
        value := value + fees;
      }
      assert want[i] == TxOut(value, dest);
      pays := pays + [TxOut(value, dest)];
      i := i + 1;
    }
  }

  method BuildCommitments(attest: bool, store: map<Id, Row>, ids: seq<Id>, sig: Option<Bytes>) returns (outs: seq<TxOut>)
    ensures outs == Commitments(attest, store, ids, sig)
  {
    hide Pow, CommitData, XvaData, ReturnScript;
    var xhb := MakeActiveSetCommitment(ids);
    outs := [TxOut(0, xhb)];
    if attest {
      var xva := MakeXvaCommitment(store, ids);
      outs := outs + [TxOut(0, xva)];
      if sig.Some? && |sig.value| == SIG_SIZE {
        outs := outs + [TxOut(0, ReturnScript(SeedData(sig.value)))];
      }
    }
  }

  /**
   * Registers the local script and heartbeat, draws, and builds the outputs; `None` leaves the
   * coinbase as it was.  `localBeat` is the local heartbeat where the session allows one.
   */
  method ApplyCoinbasePayouts(reg: Registry, ctx: Ctx, nHeight: int, store: map<Id, Row>, slot: int, now: int, fees: int,
                              producerScript: Bytes, localBeat: Option<Beat>, sign: seq<Id> -> Option<Bytes>)
    returns (outs: Option<seq<TxOut>>)
    requires RegOk(ctx.idOf, reg.State())
    modifies reg
    ensures RegOk(ctx.idOf, reg.State())
    ensures nHeight < 1 ==> outs == None && reg.State() == old(reg.State())
    ensures nHeight >= 1 ==>
      var ids := Eligible(ctx.attest, reg.nodes, store, slot, now);
      outs == Coinbase(ctx, reg.nodes, store, ids, fees, producerScript, sign(ids))
  {
    hide Pow, RegOk, Heard, SetLocal, Payments, Commitments, Winners, ActiveForSlot, Filter;
    if nHeight < 1 {
      return None;
    }
    if producerScript != [] {
      SetLocalKeeps(ctx.idOf, reg.State(), producerScript);
      reg.SetLocalScript(ctx.idOf, producerScript);
    }
    if localBeat.Some? {
      ghost var before := reg.State();
      var ok := reg.Heartbeat(ctx.idOf, localBeat.value);
      HeardKeeps(ctx.idOf, before, localBeat.value, reg.State(), ok);
    }
    var ids := reg.ActiveIdsForSlot(slot, now);
    if ctx.attest {
      ids := Collect(ids, id => id in store);
    }
    var winners := SelectWinners(ids, ctx.stream, ctx.prizes);
    if winners == [] {
      return None;
    }
    var pays := BuildPayments(ctx, reg.nodes, winners, fees, producerScript);
    var tail := BuildCommitments(ctx.attest, store, ids, sign(ids));
    outs := Some(pays + tail);
  }
}
