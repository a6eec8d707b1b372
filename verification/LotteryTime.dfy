/** Slots of the minute lottery, and what they force on block times (src/lottery.cpp, src/chain.h). */
module LotteryTime {

  const SLOT_SECONDS := 60
  const MAX_FUTURE_SLOTS := 1
  const MEDIAN_TIME_SPAN := 11

  function SlotFromTime(unixTime: int): int {
    if unixTime < 0 then 0 else unixTime / SLOT_SECONDS
  }

  function SlotFromHeight(nHeight: int, genesisTime: int): int {
    if nHeight <= 0 then SlotFromTime(genesisTime) else SlotFromTime(genesisTime) + nHeight
  }

  function SlotStartTime(nHeight: int, genesisTime: int): int {
    SlotFromHeight(nHeight, genesisTime) * SLOT_SECONDS
  }

  predicate InSlot(nHeight: int, genesisTime: int, t: int) {
    SlotStartTime(nHeight, genesisTime) <= t < SlotStartTime(nHeight, genesisTime) + SLOT_SECONDS
  }

  datatype TimeVerdict = TimeOk | BadSlotTime | TimeTooNew

  function CheckBlockTime(nHeight: int, nTime: int, genesisTime: int, nowLocal: int, onDemand: bool): (v: TimeVerdict) {
    if onDemand || nHeight <= 0 then TimeOk
    else
      var slot := SlotFromHeight(nHeight, genesisTime);
      var slotStart := slot * SLOT_SECONDS;
      if nTime < slotStart || nTime >= slotStart + SLOT_SECONDS then BadSlotTime
      else if slot > SlotFromTime(nowLocal) + MAX_FUTURE_SLOTS then TimeTooNew
      else TimeOk
  }

  /**
   * A chain by block times, with the local clock of the node when it checked each block; the block
   * at height 0 is the genesis block.
   */
  predicate ValidChain(times: seq<int>, clocks: seq<int>, genesisTime: int) {
    && 0 < |times| == |clocks| && times[0] == genesisTime
    && forall h :: 0 < h < |times| ==> CheckBlockTime(h, times[h], genesisTime, clocks[h], false) == TimeOk
  }

  /** Block times strictly increase with height, and stay within a minute of one block a minute. */
  lemma TimesIncrease(times: seq<int>, clocks: seq<int>, genesisTime: int, i: nat, j: nat)
    requires ValidChain(times, clocks, genesisTime) && i < j < |times|
    ensures times[i] < times[j]
    ensures i > 0 ==> SLOT_SECONDS * (j - i - 1) < times[j] - times[i] < SLOT_SECONDS * (j - i + 1)
  {
    assert CheckBlockTime(j, times[j], genesisTime, clocks[j], false) == TimeOk;
    if i > 0 {
      assert CheckBlockTime(i, times[i], genesisTime, clocks[i], false) == TimeOk;
    }
  }

  /** The chain never runs ahead of the clock: at most one slot beyond the current one. */
  lemma HeightIsBounded(times: seq<int>, clocks: seq<int>, genesisTime: int, h: nat)
    requires ValidChain(times, clocks, genesisTime) && 0 < h < |times|
    ensures h <= SlotFromTime(clocks[h]) - SlotFromTime(genesisTime) + 1
    ensures times[h] < (SlotFromTime(clocks[h]) + 2) * SLOT_SECONDS
  {
    assert CheckBlockTime(h, times[h], genesisTime, clocks[h], false) == TimeOk;
  }

  /** Whole minutes between the genesis time and the clock bound every height by themselves plus one. */
  ghost predicate ElapsedMinutesBound(genesisTime: int) {
    forall h: int, t: int, now: int ::
      (h > 0 && now >= genesisTime && CheckBlockTime(h, t, genesisTime, now, false) == TimeOk) ==>
        h <= (now - genesisTime) / SLOT_SECONDS + 1
  }

  /** That holds exactly when the genesis time opens a minute. */
  lemma ElapsedMinutesBoundIff(genesisTime: nat)
    ensures ElapsedMinutesBound(genesisTime) <==> genesisTime % SLOT_SECONDS == 0
  {
    if genesisTime % SLOT_SECONDS != 0 {
      var now := (genesisTime / SLOT_SECONDS + 1) * SLOT_SECONDS;
      assert CheckBlockTime(2, now + SLOT_SECONDS, genesisTime, now, false) == TimeOk;
    }
  }

  // ----- The median time past

  predicate SortedTimes(s: seq<int>) {
    forall i, j :: 0 <= i <= j < |s| ==> s[i] <= s[j]
  }

  function Insert(x: int, s: seq<int>): (r: seq<int>)
    requires SortedTimes(s)
    ensures SortedTimes(r) && |r| == |s| + 1 && (r[0] == x || (s != [] && r[0] == s[0]))
  {
    if s == [] || x <= s[0] then [x] + s else [s[0]] + Insert(x, s[1..])
  }

  function Sort(s: seq<int>): (r: seq<int>)
    ensures SortedTimes(r) && |r| == |s|
  {
    if s == [] then [] else Insert(s[0], Sort(s[1..]))
  }

  lemma {:induction false} InsertContents(x: int, s: seq<int>)
    requires SortedTimes(s)
    ensures multiset(Insert(x, s)) == multiset(s) + multiset{x}
  {
    if s != [] && x > s[0] {
      InsertContents(x, s[1..]);
      assert s == [s[0]] + s[1..];
    }
  }

  lemma {:induction false} SortContents(s: seq<int>)
    ensures multiset(Sort(s)) == multiset(s)
  {
    if s != [] {
      SortContents(s[1..]);
      InsertContents(s[0], Sort(s[1..]));
      assert s == [s[0]] + s[1..];
    }
  }

  lemma {:induction false} SortSorted(s: seq<int>)
    requires SortedTimes(s)
    ensures Sort(s) == s
  {
    if s != [] {
      SortSorted(s[1..]);
      assert s == [s[0]] + s[1..];
    }
  }

  /** The last blocks that count for the median. */
  function Window(times: seq<int>): (w: seq<int>)
    ensures |w| == if |times| < MEDIAN_TIME_SPAN then |times| else MEDIAN_TIME_SPAN
  {
    if |times| <= MEDIAN_TIME_SPAN then times else times[|times| - MEDIAN_TIME_SPAN..]
  }

  function MedianTimePast(times: seq<int>): int
    requires times != []
  {
    Sort(Window(times))[|Window(times)| / 2]
  }

  /** The median is a time of the window, with half of the others, rounded up, at or below it and the rest at or above. */
  lemma MedianIsMiddle(times: seq<int>) returns (lo: seq<int>, hi: seq<int>)
    requires times != []
    ensures var w, median := Window(times), MedianTimePast(times);
      && median in w && multiset(w) == multiset(lo) + multiset{median} + multiset(hi)
      && |lo| == |w| / 2 && |hi| == |w| - 1 - |w| / 2
      && (forall x :: x in lo ==> x <= median) && (forall x :: x in hi ==> median <= x)
  {
    hide Sort, Window;
    var w := Window(times);
    SortContents(w);
    lo, hi := SplitAt(Sort(w), |w| / 2);
    assert MedianTimePast(times) in multiset(w);
  }

  lemma SplitAt(sorted: seq<int>, k: nat) returns (lo: seq<int>, hi: seq<int>)
    requires SortedTimes(sorted) && k < |sorted|
    ensures multiset(sorted) == multiset(lo) + multiset{sorted[k]} + multiset(hi) && |lo| == k && |hi| == |sorted| - 1 - k
    ensures (forall x :: x in lo ==> x <= sorted[k]) && (forall x :: x in hi ==> sorted[k] <= x)
  {
    lo, hi := sorted[..k], sorted[k + 1..];
    assert sorted == lo + [sorted[k]] + hi;
  }

  /** Walks back from the tip, filling the buffer from its end. */
  method GetMedianTimePast(times: seq<int>) returns (median: int)
    requires times != []
    ensures median == MedianTimePast(times)
  {
    var pmedian := new int[MEDIAN_TIME_SPAN];
    var begin, i, pindex := MEDIAN_TIME_SPAN, 0, |times| - 1;
    while i < MEDIAN_TIME_SPAN && pindex >= 0
      invariant begin == MEDIAN_TIME_SPAN - i && 0 <= i <= MEDIAN_TIME_SPAN && -1 <= pindex == |times| - 1 - i
      invariant pmedian[begin..] == times[pindex + 1..]
    {
      ghost var filled := pmedian[begin..];
      begin := begin - 1;
      pmedian[begin] := times[pindex];
      assert pmedian[begin..] == [times[pindex]] + filled;
      i, pindex := i + 1, pindex - 1;
    }
    assert pmedian[begin..] == Window(times);
    var sorted := Sort(pmedian[begin..]);
    median := sorted[(MEDIAN_TIME_SPAN - begin) / 2];
  }

  /** On a valid chain the median is the time of the block half a window below the tip. */
  lemma MedianOfValidChain(times: seq<int>, clocks: seq<int>, genesisTime: int)
    requires ValidChain(times, clocks, genesisTime)
    ensures var m := |Window(times)|; MedianTimePast(times) == times[|times| - m + m / 2]
  {
    forall i, j | 0 <= i < j < |times| ensures times[i] < times[j] {
      TimesIncrease(times, clocks, genesisTime, i, j);
    }
    SortSorted(Window(times));
  }

  /** The producer's time: above the median, and inside the slot unless the median is not below its end. */
  function ClampTimeToSlot(nHeight: int, genesisTime: int, now: int, mtp: int): (t: int)
    ensures t > mtp
    ensures InSlot(nHeight, genesisTime, t) <==> mtp + 1 < SlotStartTime(nHeight, genesisTime) + SLOT_SECONDS
  {
    var slotStart := SlotStartTime(nHeight, genesisTime);
    var slotEnd := slotStart + SLOT_SECONDS;
    var t := if now < slotStart then slotStart else now;
    var t' := if t >= slotEnd then slotEnd - 1 else t;
    if t' <= mtp then mtp + 1 else t'
  }

  /** For the block on top of any valid chain the clamped time is inside the slot and above the median. */
  lemma ProducedTimeIsValid(times: seq<int>, clocks: seq<int>, genesisTime: int, now: int)
    requires ValidChain(times, clocks, genesisTime)
    ensures var t := ClampTimeToSlot(|times|, genesisTime, now, MedianTimePast(times));
      && InSlot(|times|, genesisTime, t) && t > MedianTimePast(times) && t > times[|times| - 1]
      && (SlotFromTime(now) + MAX_FUTURE_SLOTS >= SlotFromHeight(|times|, genesisTime)
          ==> ValidChain(times + [t], clocks + [now], genesisTime))
  {
    MedianOfValidChain(times, clocks, genesisTime);
    var m := |Window(times)|;
    var tip := |times| - 1;
    if |times| - m + m / 2 < tip {
      TimesIncrease(times, clocks, genesisTime, |times| - m + m / 2, tip);
    }
    if tip > 0 {
      assert CheckBlockTime(tip, times[tip], genesisTime, clocks[tip], false) == TimeOk;
    }
  }
}
