/** The lottery coinbase: what the producer builds and what the validator accepts (src/lottery.cpp). */
module LotteryCoinbase {
  import opened Options
  import opened ByteStrings
  import opened Powers
  import opened LotteryCodec
  import opened LotteryStamps
  import opened LotteryDraw

  const MAX_MONEY := 21_000_000_000 * 100_000_000

  datatype TxOut = TxOut(value: int, script: Bytes)

  /**
   * What both sides know about a block: its subsidy, the number of prizes and the random stream of
   * its slot, whether attestation is required, and the hash and signature checks.
   */
  datatype Ctx = Ctx(subsidy: int, prizes: int, stream: nat -> nat, attest: bool, idOf: Bytes -> Id,
                     attests: (Id, Bytes, Bytes) -> bool, seedOk: (seq<Id>, Bytes) -> bool)

  // ----- What the validator looks for

  ghost predicate HasCommit(script: Bytes) {
    exists ids :: Commits(script, ids)
  }

  ghost predicate HasStamps(script: Bytes) {
    exists stamps :: Carries(script, stamps)
  }

  /** The first script of the outputs with a property. */
  ghost function First(outs: seq<TxOut>, p: Bytes -> bool): Option<Bytes> {
    if outs == [] then None else if p(outs[0].script) then Some(outs[0].script) else First(outs[1..], p)
  }

  /** The outputs that are not OP_RETURN. */
  function Pays(outs: seq<TxOut>): seq<TxOut> {
    if outs == [] then []
    else if outs[0].script != [] && outs[0].script[0] == OP_RETURN then Pays(outs[1..])
    else [outs[0]] + Pays(outs[1..])
  }

  function Values(outs: seq<TxOut>): seq<int> {
    seq(|outs|, i requires 0 <= i < |outs| => outs[i].value)
  }

  /** The `i`-th payment: a share of the subsidy, and all fees with the first. */
  function Due(subsidy: int, fees: int, n: nat, i: nat): int
    requires n > 0
  {
    Share(subsidy, n, i) + if i == 0 then fees else 0
  }

  /** The payments go to the winners in order, each with its due, and stay in the money range. */
  ghost predicate PaysWinners(ctx: Ctx, pays: seq<TxOut>, winners: seq<Id>, fees: int) {
    && ctx.subsidy > 0 && |pays| == |winners| > 0 && 0 <= fees && ctx.subsidy + fees <= MAX_MONEY
    && forall i :: 0 <= i < |pays| ==>
         ctx.idOf(pays[i].script) == winners[i] && pays[i].value == Due(ctx.subsidy, fees, |winners|, i)
  }

  ghost predicate Attested(ctx: Ctx, outs: seq<TxOut>, ids: seq<Id>) {
    var xva, xsd := First(outs, HasStamps), First(outs, LooksSeed);
    && xva.Some? && xsd.Some?
    && (exists stamps :: Carries(xva.value, stamps) && Stamped(ctx.attests, ids, stamps))
    && (exists sig :: CarriesSeed(xsd.value, sig) && ctx.seedOk(ids, sig))
  }

  /** A coinbase that commits to an active set and pays the winners drawn from it. */
  ghost predicate Acceptable(ctx: Ctx, outs: seq<TxOut>) {
    && (forall i :: 0 <= i < |outs| ==> outs[i].script != [])
    && First(outs, HasCommit).Some?
    && exists ids, fees :: AcceptableFor(ctx, outs, ids, fees)
  }

  ghost predicate AcceptableFor(ctx: Ctx, outs: seq<TxOut>, ids: seq<Id>, fees: int) {
    && First(outs, HasCommit).Some? && Commits(First(outs, HasCommit).value, ids)
    && (ctx.attest ==> Attested(ctx, outs, ids))
    && PaysWinners(ctx, Pays(outs), Winners(ids, ctx.stream, ctx.prizes), fees)
  }

  /** No payment is negative, and together they cover the subsidy and stay in the money range. */
  ghost predicate AmountsOk(ctx: Ctx, pays: seq<TxOut>) {
    && (forall i :: 0 <= i < |pays| ==> pays[i].value >= 0)
    && ctx.subsidy <= Sum(Values(pays)) <= MAX_MONEY
  }

  /** One payment for each of the winners, the first of them to the first winner. */
  ghost predicate FirstFits(ctx: Ctx, pays: seq<TxOut>, winners: seq<Id>) {
    |pays| == |winners| > 0 && ctx.idOf(pays[0].script) == winners[0]
  }

  /**
   * A coinbase that passes everything up to the amount of the first payment, for which the validator
   * then looks up a share of the subsidy.  Without a subsidy there are no shares.
   */
  ghost predicate ReadsNoShare(ctx: Ctx, outs: seq<TxOut>) {
    && ctx.subsidy <= 0
    && (forall i :: 0 <= i < |outs| ==> outs[i].script != [])
    && First(outs, HasCommit).Some?
    && exists ids :: ReadsNoShareFor(ctx, outs, ids)
  }

  ghost predicate ReadsNoShareFor(ctx: Ctx, outs: seq<TxOut>, ids: seq<Id>) {
    && First(outs, HasCommit).Some? && Commits(First(outs, HasCommit).value, ids)
    && (ctx.attest ==> Attested(ctx, outs, ids))
    && AmountsOk(ctx, Pays(outs)) && FirstFits(ctx, Pays(outs), Winners(ids, ctx.stream, ctx.prizes))
  }

  // ----- Payments

  lemma {:induction false} SumSplit(a: seq<int>, b: seq<int>)
    ensures Sum(a + b) == Sum(a) + Sum(b)
  {
    if a == [] {
      assert a + b == b;
    } else {
      assert (a + b)[1..] == a[1..] + b;
      SumSplit(a[1..], b);
    }
  }

  /** The dues of all winners add up to subsidy and fees. */
  lemma DuesAddUp(ctx: Ctx, pays: seq<TxOut>, winners: seq<Id>, fees: int)
    requires PaysWinners(ctx, pays, winners, fees)
    ensures Sum(Values(pays)) == ctx.subsidy + fees
    ensures forall i :: 0 <= i < |pays| ==> 0 <= pays[i].value
  {
    hide Sum, Share, Split, Values;
    var n := |winners|;
    var parts := Split(ctx.subsidy, n);
    SplitIsFair(ctx.subsidy, n);
    PaidShares(ctx, pays, winners, fees);
    FirstRaised(parts, fees);
    assert Sum(Values(pays)) == Sum(parts) + fees;
  }

  /** The payments are the shares, with the fees on the first. */
  lemma PaidShares(ctx: Ctx, pays: seq<TxOut>, winners: seq<Id>, fees: int)
    requires PaysWinners(ctx, pays, winners, fees)
    ensures var parts := Split(ctx.subsidy, |winners|);
      && |parts| == |winners| && Values(pays) == parts[0 := parts[0] + fees]
      && forall i :: 0 <= i < |pays| ==> 0 <= pays[i].value
  {
    var parts := Split(ctx.subsidy, |winners|);
    forall i | 0 <= i < |pays| ensures pays[i].value == parts[i] + (if i == 0 then fees else 0) && parts[i] >= 0 {
      assert pays[i].value == Due(ctx.subsidy, fees, |winners|, i);
      ShareNat(ctx.subsidy, |winners|, i);
    }
  }

  lemma ShareNat(total: int, n: int, i: nat)
    requires total > 0 && n > 0
    ensures Share(total, n, i) >= 0
  {
  }

  lemma FirstRaised(parts: seq<int>, fees: int)
    requires parts != []
    ensures Sum(parts[0 := parts[0] + fees]) == Sum(parts) + fees
  {
    assert parts[0 := parts[0] + fees][1..] == parts[1..];
  }

  /**
   * An accepted coinbase pays exactly the winners drawn from the set it commits to, in order: they
   * are distinct members of it, the payments add up to subsidy and fees, and before fees they are the
   * fair split of the subsidy.
   */
  lemma AcceptedPaysWinners(ctx: Ctx, outs: seq<TxOut>, ids: seq<Id>, fees: int)
    requires Acceptable(ctx, outs) && AcceptableFor(ctx, outs, ids, fees)
    ensures var w := Winners(ids, ctx.stream, ctx.prizes);
      && Distinct(w) && (forall x :: x in w ==> x in ids) && StrictlySorted(ids)
      && |w| == (if ctx.prizes < |ids| then ctx.prizes else |ids|)
      && Sum(Values(Pays(outs))) == ctx.subsidy + fees
      && FairSplit(Values(Pays(outs))[0 := Pays(outs)[0].value - fees], ctx.subsidy, |w|)
      && (forall i :: 0 <= i < |w| ==> ctx.idOf(Pays(outs)[i].script) == w[i])
  {
    hide Pow, Commits, Carries, First, Winners, Pays, Sum;
    var w, pays := Winners(ids, ctx.stream, ctx.prizes), Pays(outs);
    CommitsSorted(First(outs, HasCommit).value, ids);
    WinnersOf(ids, ctx.stream, ctx.prizes);
    DuesAddUp(ctx, pays, w, fees);
    SplitIsFair(ctx.subsidy, |w|);
    ShareList(ctx, pays, w, fees);
  }

  lemma ShareList(ctx: Ctx, pays: seq<TxOut>, w: seq<Id>, fees: int)
    requires PaysWinners(ctx, pays, w, fees)
    ensures Values(pays)[0 := pays[0].value - fees] == Split(ctx.subsidy, |w|)
  {
  }

  /** Where attestation is required, every member of the set an accepted coinbase commits to is attested. */
  lemma AcceptedIsAttested(ctx: Ctx, outs: seq<TxOut>, ids: seq<Id>, fees: int, i: nat)
    requires ctx.attest && AcceptableFor(ctx, outs, ids, fees) && i < |ids|
    ensures exists handle, sig :: ctx.attests(ids[i], handle, sig)
    ensures exists sig :: ctx.seedOk(ids, sig)
  {
    hide Pow, Commits, Carries, First, Winners, Pays, PaysWinners;
    var stamps: seq<Stamp> :| Carries(First(outs, HasStamps).value, stamps) && Stamped(ctx.attests, ids, stamps);
    assert ctx.attests(ids[i], stamps[i].handle, stamps[i].sig);
  }

  lemma CommitsSorted(script: Bytes, ids: seq<Id>)
    requires Commits(script, ids)
    ensures StrictlySorted(ids) && Distinct(ids)
  {
  }

  // ----- The validator

  lemma {:induction false} FirstSnoc(outs: seq<TxOut>, out: TxOut, p: Bytes -> bool)
    ensures First(outs + [out], p) ==
            if First(outs, p).Some? then First(outs, p) else if p(out.script) then Some(out.script) else None
  {
    if outs == [] {
      assert [] + [out] == [out];
    } else {
      assert (outs + [out])[1..] == outs[1..] + [out];
      FirstSnoc(outs[1..], out, p);
    }
  }

  /** Finds the first output of each kind in one pass. */
  method ScanOutputs(outs: seq<TxOut>) returns (committed: Option<seq<Id>>, xva: Option<Bytes>, xsd: Option<Bytes>)
    ensures committed.Some? <==> First(outs, HasCommit).Some?
    ensures committed.Some? ==> Commits(First(outs, HasCommit).value, committed.value)
    ensures xva == First(outs, HasStamps) && xsd == First(outs, LooksSeed)
  {
    hide Pow, Commits, Carries, LooksSeed, First;
    committed, xva, xsd := None, None, None;
    FirstNone(HasCommit);
    FirstNone(HasStamps);
    FirstNone(LooksSeed);
    var i := 0;
    assert outs[..0] == [];
    while i < |outs|
      invariant 0 <= i <= |outs|
      invariant committed.Some? <==> First(outs[..i], HasCommit).Some?
      invariant committed.Some? ==> Commits(First(outs[..i], HasCommit).value, committed.value)
      invariant xva == First(outs[..i], HasStamps) && xsd == First(outs[..i], LooksSeed)
    {
      var script := outs[i].script;
      assert outs[..i + 1] == outs[..i] + [outs[i]];
      FirstSnoc(outs[..i], outs[i], HasCommit);
      FirstSnoc(outs[..i], outs[i], HasStamps);
      FirstSnoc(outs[..i], outs[i], LooksSeed);
      OneKind(script);
      i := i + 1;
      if committed.None? {
        var ids := ParseActiveSetCommitment(script);
        if ids.Some? {
          committed := ids;
          continue;
        }
      }
      if xva.None? {
        var stamps := ParseXvaCommitment(script);
        if stamps.Some? {
          xva := Some(script);
          continue;
        }
      }
      if xsd.None? && LooksSeed(script) {
        xsd := Some(script);
      }
    }
    assert outs[..|outs|] == outs;
  }

  lemma FirstNone(p: Bytes -> bool)
    ensures First([], p) == None
  {
  }

  lemma OneKind(script: Bytes)
    ensures HasCommit(script) ==> !HasStamps(script) && !LooksSeed(script)
    ensures HasStamps(script) ==> !LooksSeed(script)
  {
    hide Commits, Carries, LooksSeed;
    forall ids, stamps ensures !(Commits(script, ids) && Carries(script, stamps)) {
      KindsDiffer(script, ids, stamps);
    }
    forall ids ensures !(Commits(script, ids) && LooksSeed(script)) {
      KindsDiffer(script, ids, []);
    }
    forall stamps ensures !(Carries(script, stamps) && LooksSeed(script)) {
      KindsDiffer(script, [], stamps);
    }
  }

  /** The payments, unless some output has an empty script. */
  method CollectPays(outs: seq<TxOut>) returns (r: Option<seq<TxOut>>)
    ensures r.Some? <==> forall i :: 0 <= i < |outs| ==> outs[i].script != []
    ensures r.Some? ==> r.value == Pays(outs)
  {
    var pays, i := [], 0;
    assert outs[0..] == outs;
    while i < |outs|
      invariant 0 <= i <= |outs| && forall j :: 0 <= j < i ==> outs[j].script != []
      invariant pays + Pays(outs[i..]) == Pays(outs)
    {
      if outs[i].script == [] {
        return None;
      }
      assert outs[i..][0] == outs[i] && outs[i..][1..] == outs[i + 1..];
      if outs[i].script[0] != OP_RETURN {
        assert pays + ([outs[i]] + Pays(outs[i + 1..])) == (pays + [outs[i]]) + Pays(outs[i + 1..]);
        pays := pays + [outs[i]];
      }
      i := i + 1;
    }
    assert pays + [] == pays;
    r := Some(pays);
  }

  /** The sum of the payments, unless one is out of range or the sum overflows. */
  method SumPays(pays: seq<TxOut>) returns (r: Option<int>)
    ensures r.Some? <==> (forall i :: 0 <= i < |pays| ==> pays[i].value >= 0) && Sum(Values(pays)) <= MAX_MONEY
    ensures r.Some? ==> r.value == Sum(Values(pays))
  {
    var paid, i := 0, 0;
    assert Values(pays[..0]) == [];
    while i < |pays|
      invariant 0 <= i <= |pays| && (forall j :: 0 <= j < i ==> pays[j].value >= 0)
      invariant 0 <= paid == Sum(Values(pays[..i])) <= MAX_MONEY
    {
      var v := pays[i].value;
      SumAt(pays, i);
      if v < 0 {
        return None;
      }
      if v > MAX_MONEY || paid > MAX_MONEY - v {
        PrefixSum(pays, i + 1);
        return None;
      }
      paid, i := paid + v, i + 1;
    }
    assert pays[..|pays|] == pays;
    r := Some(paid);
  }

  lemma SumAt(pays: seq<TxOut>, i: nat)
    requires i < |pays|
    ensures Sum(Values(pays[..i + 1])) == Sum(Values(pays[..i])) + pays[i].value
  {
    assert Values(pays[..i + 1]) == Values(pays[..i]) + [pays[i].value];
    SumSplit(Values(pays[..i]), [pays[i].value]);
  }

  lemma {:induction false} PrefixSum(pays: seq<TxOut>, i: nat)
    requires i <= |pays|
    ensures (forall j :: 0 <= j < |pays| ==> pays[j].value >= 0) ==> Sum(Values(pays[..i])) <= Sum(Values(pays))
    decreases |pays| - i
  {
    if i == |pays| {
      assert pays[..i] == pays;
    } else {
      SumAt(pays, i);
      PrefixSum(pays, i + 1);
    }
  }

  /** What validation comes to; `OutOfRange` is a read past the end of the list of shares. */
  datatype Verdict = Accept | Reject | OutOfRange

  /** Each payment against its winner and its due. */
  method ComparePays(ctx: Ctx, pays: seq<TxOut>, winners: seq<Id>, fees: int) returns (v: Verdict)
    requires |winners| > 0 && 0 <= fees && ctx.subsidy + fees <= MAX_MONEY
    ensures v == Accept <==> PaysWinners(ctx, pays, winners, fees)
    ensures v == OutOfRange <==> ctx.subsidy <= 0 && FirstFits(ctx, pays, winners)
  {
    var parts := SplitReward(ctx.subsidy, |winners|);
    if |pays| != |winners| {
      return Reject;
    }
    var i := 0;
    while i < |winners|
      invariant 0 <= i <= |winners| && (i > 0 ==> ctx.subsidy > 0)
      invariant forall j :: 0 <= j < i ==>
        ctx.idOf(pays[j].script) == winners[j] && pays[j].value == Due(ctx.subsidy, fees, |winners|, j)
    {
      if ctx.idOf(pays[i].script) != winners[i] {
        return Reject;
      }
      if i >= |parts| {
        return OutOfRange;
      }
      var due := parts[i];
      if i == 0 {
        due := due + fees;
      }
      if pays[i].value != due {
        return Reject;
      }
      i := i + 1;
    }
    v := Accept;
  }

  /**
   * The validator accepts exactly the acceptable coinbases, and reads out of range exactly where there
   * is no subsidy and everything before the first amount is in order.
   */
  method CheckLotteryCoinbase(ctx: Ctx, outs: seq<TxOut>) returns (v: Verdict)
    ensures v == Accept <==> Acceptable(ctx, outs)
    ensures v == OutOfRange <==> ReadsNoShare(ctx, outs)
  {
    hide Pow, Commits, First, Pays, Winners, PaysWinners, Attested, AmountsOk, FirstFits;
    var committed, xva, xsd := ScanOutputs(outs);
    if committed.None? {
      return Reject;
    }
    var ids := committed.value;
    forall other | Commits(First(outs, HasCommit).value, other) ensures other == ids {
      CommitsOnce(First(outs, HasCommit).value, other, ids);
    }
    if ctx.attest {
      var stamped := CheckAttested(ctx, outs, ids, xva, xsd);
      if !stamped {
        return Reject;
      }
    }
    var winners := SelectWinners(ids, ctx.stream, ctx.prizes);
    NoWinners(ctx, Pays(outs), winners);
    if winners == [] {
      return Reject;
    }
    var pays := CollectPays(outs);
    if pays.None? {
      return Reject;
    }
    v := CheckAmounts(ctx, pays.value, winners);
    if v == Accept {
      ghost var fees :| PaysWinners(ctx, Pays(outs), winners, fees);
      assert AcceptableFor(ctx, outs, ids, fees);
    } else if v == OutOfRange {
      assert ReadsNoShareFor(ctx, outs, ids);
    }
  }

  lemma NoWinners(ctx: Ctx, pays: seq<TxOut>, winners: seq<Id>)
    ensures winners == [] ==> !FirstFits(ctx, pays, winners) && forall fees :: !PaysWinners(ctx, pays, winners, fees)
  {
  }

  method CheckAttested(ctx: Ctx, outs: seq<TxOut>, ids: seq<Id>, xva: Option<Bytes>, xsd: Option<Bytes>) returns (ok: bool)
    requires xva == First(outs, HasStamps) && xsd == First(outs, LooksSeed)
    ensures ok <==> Attested(ctx, outs, ids)
  {
    hide First, Carries, CarriesSeed, HasStamps, LooksSeed;
    if xva.None? {
      return false;
    }
    ok := CheckXvaForIds(ctx.attests, ids, xva.value);
    if ok {
      if xsd.None? {
        return false;
      }
      var seedOk := ctx.seedOk;
      ok := CheckSeedBlockCommitment(sig => seedOk(ids, sig), xsd.value);
    }
  }

  method CheckAmounts(ctx: Ctx, pays: seq<TxOut>, winners: seq<Id>) returns (v: Verdict)
    requires winners != []
    ensures v == Accept <==> exists fees :: PaysWinners(ctx, pays, winners, fees)
    ensures v == OutOfRange <==> ctx.subsidy <= 0 && AmountsOk(ctx, pays) && FirstFits(ctx, pays, winners)
  {
    forall fees | PaysWinners(ctx, pays, winners, fees)
      ensures Sum(Values(pays)) == ctx.subsidy + fees && AmountsOk(ctx, pays)
    {
      DuesAddUp(ctx, pays, winners, fees);
    }
    hide Values, Sum;
    var paid := SumPays(pays);
    if paid.None? || paid.value < ctx.subsidy {
      return Reject;
    }
    v := ComparePays(ctx, pays, winners, paid.value - ctx.subsidy);
  }
}
