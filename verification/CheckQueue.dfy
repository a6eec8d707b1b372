/**
 * The parallel check queue (src/checkqueue.h): one master adds checks and then joins a pool of
 * workers until all are done.  Threads share a stack of checks and four counters under one mutex,
 * and sleep on two condition variables.
 */
module CheckQueue {
  import opened Options
  import opened Powers

  type Check = nat

  /** The state the mutex protects; the quit flag is never set. */
  datatype Shared = Shared(queue: seq<Check>, nIdle: int, nTotal: int, allOk: bool, nTodo: int, batchSize: nat)

  datatype Outcome = Returned(ok: bool) | Blocked | Took(batch: seq<Check>, ok: bool)

  function Min(a: int, b: int): int {
    if a < b then a else b
  }

  function Max(a: int, b: int): int {
    if a < b then b else a
  }

  /** How many checks a thread takes at once. */
  function BatchCount(sh: Shared): int
    requires sh.nTotal + sh.nIdle + 1 > 0
  {
    Max(1, Min(sh.batchSize, |sh.queue| / (sh.nTotal + sh.nIdle + 1)))
  }

  lemma BatchFits(sh: Shared)
    requires sh.nTotal + sh.nIdle + 1 > 0 && sh.queue != []
    ensures 1 <= BatchCount(sh) <= |sh.queue|
  {
    DivLe(|sh.queue|, sh.nTotal + sh.nIdle + 1);
  }

  /**
   * A batch is one check, or at most the batch size and at most an equal share for every thread, those asleep counted
   * twice, and one more; the largest such.
   */
  lemma BatchIff(sh: Shared, n: int)
    requires sh.nTotal + sh.nIdle + 1 > 0 && sh.queue != []
    ensures n <= BatchCount(sh) <==> n <= 1 || (n <= sh.batchSize && n * (sh.nTotal + sh.nIdle + 1) <= |sh.queue|)
  {
    ShareIff(n, |sh.queue|, sh.nTotal + sh.nIdle + 1);
  }

  lemma ShareIff(n: int, total: nat, d: nat)
    requires d > 0
    ensures n <= total / d <==> n * d <= total
  {
    var q, r := total / d, total % d;
    assert total == q * d + r;
    if n <= q {
      MulMono(n, q, d);
    } else {
      MulMono(q + 1, n, d);
      assert (q + 1) * d == q * d + d;
    }
  }

  /** The last `n` checks of the stack, topmost first. */
  function Popped(queue: seq<Check>, n: nat): (batch: seq<Check>)
    requires n <= |queue|
    ensures |batch| == n
  {
    if n == 0 then [] else [queue[|queue| - 1]] + Popped(queue[..|queue| - 1], n - 1)
  }

  lemma LastContents(queue: seq<Check>)
    requires queue != []
    ensures multiset(queue) == multiset(queue[..|queue| - 1]) + multiset{queue[|queue| - 1]}
  {
    assert queue == queue[..|queue| - 1] + [queue[|queue| - 1]];
  }

  lemma FirstContents(x: Check, s: seq<Check>)
    ensures multiset([x] + s) == multiset{x} + multiset(s)
  {
  }

  lemma Turned(a: multiset<Check>, b: multiset<Check>, x: multiset<Check>)
    ensures (a + b) + x == a + (x + b)
  {
  }

  lemma {:induction false} PoppedContents(queue: seq<Check>, n: nat)
    requires n <= |queue|
    ensures multiset(queue) == multiset(queue[..|queue| - n]) + multiset(Popped(queue, n))
  {
    if n == 0 {
      assert queue[..|queue|] == queue;
    } else {
      var rest, last := queue[..|queue| - 1], queue[|queue| - 1];
      assert Popped(queue, n) == [last] + Popped(rest, n - 1);
      hide Popped;
      PoppedContents(rest, n - 1);
      assert rest[..|rest| - (n - 1)] == queue[..|queue| - n];
      LastContents(queue);
      FirstContents(last, Popped(rest, n - 1));
      Turned(multiset(queue[..|queue| - n]), multiset(Popped(rest, n - 1)), multiset{last});
    }
  }

  lemma PoppedNext(batch: seq<Check>, queue: seq<Check>, n: nat)
    requires 0 < n <= |queue|
    ensures batch + Popped(queue, n) == (batch + [queue[|queue| - 1]]) + Popped(queue[..|queue| - 1], n - 1)
  {
  }

  /** Looking for work inside the critical section: return, sleep, or leave with a batch. */
  function Poll(sh: Shared, master: bool): (Shared, Outcome)
    requires sh.nTotal + sh.nIdle + 1 > 0
  {
    if sh.queue == [] then
      if master && sh.nTodo == 0 then (sh.(nTotal := sh.nTotal - 1, allOk := true), Returned(sh.allOk))
      else (sh.(nIdle := sh.nIdle + 1), Blocked)
    else
      BatchFits(sh);
      var n := BatchCount(sh);
      (sh.(queue := sh.queue[..|sh.queue| - n]), Took(Popped(sh.queue, n), sh.allOk))
  }

  // ----- Threads

  /** Where a thread is; `ran` counts the checks of its batch it has evaluated. */
  datatype Pc =
    | Outside
    | Waiting(notified: bool)
    | Running(batch: seq<Check>, next: nat, ran: nat, ok: bool)

  /**
   * The whole system; thread 0 is the master.  `added` holds the checks added since the master last
   * returned, `done` those whose batches are finished, `evaluated` those of them that were called.
   */
  datatype Sys = Sys(sh: Shared, threads: seq<Pc>, added: multiset<Check>, done: multiset<Check>, evaluated: multiset<Check>)

  datatype Action =
    | Add(checks: seq<Check>, pick: nat)
    | Enter(t: nat)
    | Resume(t: nat)
    | Exec(t: nat)
    | Finish(t: nat)

  function PcOf(out: Outcome): Pc {
    match out
    case Returned(ok) => Outside
    case Blocked => Waiting(false)
    case Took(batch, ok) => Running(batch, 0, 0, ok)
  }

  function Notify(pc: Pc): Pc {
    if pc.Waiting? then Waiting(true) else pc
  }

  function Waiters(threads: seq<Pc>): nat {
    if threads == [] then 0 else (if threads[0].Waiting? then 1 else 0) + Waiters(threads[1..])
  }

  function Insiders(threads: seq<Pc>): nat {
    if threads == [] then 0 else (if threads[0].Outside? then 0 else 1) + Insiders(threads[1..])
  }

  /** Checks taken from the stack whose batches are not finished. */
  function InFlight(threads: seq<Pc>): multiset<Check> {
    if threads == [] then multiset{}
    else Held(threads[0]) + InFlight(threads[1..])
  }

  /** The idle and total counters are exact. */
  predicate Counted(s: Sys) {
    s.threads != [] && s.sh.nIdle == Waiters(s.threads) && s.sh.nTotal == Insiders(s.threads)
  }

  lemma {:induction false} SetWaiters(threads: seq<Pc>, t: nat, pc: Pc)
    requires t < |threads|
    ensures Waiters(threads[t := pc]) ==
            Waiters(threads) - (if threads[t].Waiting? then 1 else 0) + (if pc.Waiting? then 1 else 0)
    ensures threads[t].Waiting? ==> Waiters(threads) > 0
  {
    if t == 0 {
      assert threads[0 := pc][1..] == threads[1..];
    } else {
      assert threads[t := pc][1..] == threads[1..][t - 1 := pc];
      SetWaiters(threads[1..], t - 1, pc);
    }
  }

  lemma {:induction false} SetInsiders(threads: seq<Pc>, t: nat, pc: Pc)
    requires t < |threads|
    ensures Insiders(threads[t := pc]) ==
            Insiders(threads) - (if threads[t].Outside? then 0 else 1) + (if pc.Outside? then 0 else 1)
  {
    if t == 0 {
      assert threads[0 := pc][1..] == threads[1..];
    } else {
      assert threads[t := pc][1..] == threads[1..][t - 1 := pc];
      SetInsiders(threads[1..], t - 1, pc);
    }
  }

  lemma Regroup(a: multiset<Check>, b: multiset<Check>, c: multiset<Check>, d: multiset<Check>, e: multiset<Check>)
    requires b + c == d + e
    ensures (a + b) + c == (a + d) + e
  {
    assert (a + b) + c == a + (b + c);
    assert (a + d) + e == a + (d + e);
  }

  lemma InFlightNext(threads: seq<Pc>)
    requires threads != []
    ensures InFlight(threads) == Held(threads[0]) + InFlight(threads[1..])
  {
  }

  lemma {:induction false} SetInFlight(threads: seq<Pc>, t: nat, pc: Pc)
    requires t < |threads|
    ensures InFlight(threads[t := pc]) + Held(threads[t]) == InFlight(threads) + Held(pc)
  {
    hide InFlight, Held;
    var rest := threads[1..];
    InFlightNext(threads);
    InFlightNext(threads[t := pc]);
    if t == 0 {
      assert threads[0 := pc][1..] == rest;
      Regroup(InFlight(rest), Held(pc), Held(threads[0]), Held(threads[0]), Held(pc));
    } else {
      assert threads[t := pc][1..] == rest[t - 1 := pc];
      SetInFlight(rest, t - 1, pc);
      Regroup(Held(threads[0]), InFlight(rest[t - 1 := pc]), Held(rest[t - 1]), InFlight(rest), Held(pc));
    }
  }

  function Held(pc: Pc): multiset<Check> {
    if pc.Running? then multiset(pc.batch) else multiset{}
  }

  /** The outcome of a poll becomes the thread's position; a returning master starts a new round. */
  function AfterPoll(s: Sys, t: nat): Sys
    requires t < |s.threads| && s.sh.nTotal + s.sh.nIdle + 1 > 0
  {
    var (sh, out) := Poll(s.sh, t == 0);
    var s' := s.(sh := sh, threads := s.threads[t := PcOf(out)]);
    if out.Returned? then s'.(added := multiset{}, done := multiset{}, evaluated := multiset{}) else s'
  }

  /** Taking over a finished batch; the last one wakes the master. */
  function Cleanup(s: Sys, t: nat): Sys
    requires t < |s.threads| && s.threads[t].Running?
  {
    var pc := s.threads[t];
    var sh := s.sh.(allOk := s.sh.allOk && pc.ok, nTodo := s.sh.nTodo - |pc.batch|);
    var threads := if sh.nTodo == 0 && t != 0 then s.threads[0 := Notify(s.threads[0])] else s.threads;
    Sys(sh, threads[t := Running([], 0, 0, true)], s.added, s.done + multiset(pc.batch),
        s.evaluated + multiset(pc.batch[..Min(pc.ran, |pc.batch|)]))
  }

  /** One atomic step; `None` when it is not enabled. */
  function Step(verdict: Check -> bool, s: Sys, a: Action): Option<Sys>
    requires Counted(s)
  {
    match a
    case Add(checks, pick) =>
      if !s.threads[0].Outside? then None
      else
        var threads := if |checks| == 1 && 0 < pick < |s.threads| then s.threads[pick := Notify(s.threads[pick])]
                       else if |checks| > 1 then [s.threads[0]] + NotifyAll(s.threads[1..])
                       else s.threads;
        Some(s.(sh := s.sh.(queue := s.sh.queue + checks, nTodo := s.sh.nTodo + |checks|),
                threads := threads, added := s.added + multiset(checks)))
    case Enter(t) =>
      if t < |s.threads| && s.threads[t].Outside?
      then Some(AfterPoll(s.(sh := s.sh.(nTotal := s.sh.nTotal + 1)), t)) else None
    case Resume(t) =>
      if t < |s.threads| && s.threads[t].Waiting?
      then SetWaiters(s.threads, t, s.threads[t]); Some(AfterPoll(s.(sh := s.sh.(nIdle := s.sh.nIdle - 1)), t)) else None
    case Exec(t) =>
      if t < |s.threads| && s.threads[t].Running? && s.threads[t].next < |s.threads[t].batch| then
        var pc := s.threads[t];
        Some(s.(threads := s.threads[t := if pc.ok then Running(pc.batch, pc.next + 1, pc.ran + 1, verdict(pc.batch[pc.next]))
                                          else Running(pc.batch, pc.next + 1, pc.ran, false)]))
      else None
    case Finish(t) =>
      if t < |s.threads| && s.threads[t].Running? && s.threads[t].next == |s.threads[t].batch|
      then Some(AfterPoll(Cleanup(s, t), t)) else None
  }

  function NotifyAll(threads: seq<Pc>): (r: seq<Pc>)
    ensures |r| == |threads| && forall i :: 0 <= i < |r| ==> r[i] == Notify(threads[i])
  {
    seq(|threads|, i requires 0 <= i < |threads| => Notify(threads[i]))
  }

  // ----- The invariant

  /** A batch in progress: what its running verdict says about the checks called so far. */
  predicate ThreadOk(verdict: Check -> bool, allOk: bool, pc: Pc) {
    pc.Running? ==>
      && pc.ran <= pc.next <= |pc.batch|
      && (pc.ok ==> pc.ran == pc.next && forall k :: 0 <= k < pc.next ==> verdict(pc.batch[k]))
      && (!pc.ok ==> !allOk || exists k :: 0 <= k < pc.ran && !verdict(pc.batch[k]))
  }

  /** The checks of finished batches: all called and passed, or one of them failed. */
  ghost predicate ResultsOk(verdict: Check -> bool, s: Sys) {
    && (s.sh.allOk ==> s.evaluated == s.done && forall c :: c in s.done ==> verdict(c))
    && (!s.sh.allOk ==> exists c :: c in s.done && !verdict(c))
  }

  /** A sleeping master has nothing to do, and if nobody has woken it, somebody will. */
  predicate MasterOk(s: Sys)
    requires s.threads != []
  {
    s.threads[0].Waiting? ==> s.sh.queue == [] && (!s.threads[0].notified ==> s.sh.nTodo > 0)
  }

  /** The position of a thread inside the critical section, between cleaning up and polling. */
  const LIMBO := Running([], 0, 0, true)

  /** Every batch is non-empty, except that of the thread `limbo` in the critical section. */
  ghost predicate BatchesOk(verdict: Check -> bool, s: Sys, limbo: int) {
    forall t :: 0 <= t < |s.threads| ==>
      && ThreadOk(verdict, s.sh.allOk, s.threads[t])
      && (s.threads[t].Running? && s.threads[t].batch == [] ==> t == limbo)
  }

  predicate Conserved(s: Sys) {
    && s.added == multiset(s.sh.queue) + InFlight(s.threads) + s.done
    && s.sh.nTodo == |s.sh.queue| + |InFlight(s.threads)|
  }

  ghost predicate InvWith(verdict: Check -> bool, s: Sys, limbo: int) {
    && Counted(s) && Conserved(s) && ResultsOk(verdict, s) && BatchesOk(verdict, s, limbo) && MasterOk(s)
  }

  ghost predicate Inv(verdict: Check -> bool, s: Sys) {
    InvWith(verdict, s, -1)
  }

  lemma InvCounted(verdict: Check -> bool, s: Sys)
    requires Inv(verdict, s)
    ensures Counted(s)
  {
  }

  function Start(workers: nat, batchSize: nat): Sys {
    Sys(Shared([], 0, 0, true, 0, batchSize), seq(workers + 1, _ => Outside), multiset{}, multiset{}, multiset{})
  }

  lemma {:induction false} AllOutside(threads: seq<Pc>)
    requires forall t :: 0 <= t < |threads| ==> threads[t] == Outside
    ensures Waiters(threads) == 0 && Insiders(threads) == 0 && InFlight(threads) == multiset{}
  {
    if threads != [] {
      AllOutside(threads[1..]);
    }
  }

  lemma StartInv(verdict: Check -> bool, workers: nat, batchSize: nat)
    ensures Inv(verdict, Start(workers, batchSize))
  {
    AllOutside(Start(workers, batchSize).threads);
  }

  // ----- Polling

  /** A thread inside the critical section; the rest of the system is consistent. */
  ghost predicate Ready(verdict: Check -> bool, s: Sys, t: nat) {
    t < |s.threads| && s.threads[t] == LIMBO && InvWith(verdict, s, t)
  }

  lemma SetThread(s: Sys, t: nat, pc: Pc)
    requires t < |s.threads|
    ensures Waiters(s.threads[t := pc]) ==
            Waiters(s.threads) - (if s.threads[t].Waiting? then 1 else 0) + (if pc.Waiting? then 1 else 0)
    ensures Insiders(s.threads[t := pc]) ==
            Insiders(s.threads) - (if s.threads[t].Outside? then 0 else 1) + (if pc.Outside? then 0 else 1)
    ensures Held(s.threads[t]) <= InFlight(s.threads)
    ensures InFlight(s.threads[t := pc]) == InFlight(s.threads) - Held(s.threads[t]) + Held(pc)
  {
    SetWaiters(s.threads, t, pc);
    SetInsiders(s.threads, t, pc);
    SetInFlight(s.threads, t, pc);
    HeldIn(s.threads, t);
    hide Waiters, Insiders, InFlight, Held;
    Move(InFlight(s.threads[t := pc]), Held(s.threads[t]), InFlight(s.threads), Held(pc));
  }

  lemma Move(a: multiset<Check>, h: multiset<Check>, b: multiset<Check>, g: multiset<Check>)
    requires a + h == b + g && h <= b
    ensures a == b - h + g
  {
    assert a == (a + h) - h;
    assert b == (b - h) + h;
    assert b + g == ((b - h) + g) + h;
  }

  /** A thread that holds no batch moves to another position without one. */
  lemma SetIdle(s: Sys, t: nat, pc: Pc)
    requires t < |s.threads| && Held(s.threads[t]) == Held(pc)
    ensures Waiters(s.threads[t := pc]) ==
            Waiters(s.threads) - (if s.threads[t].Waiting? then 1 else 0) + (if pc.Waiting? then 1 else 0)
    ensures Insiders(s.threads[t := pc]) ==
            Insiders(s.threads) - (if s.threads[t].Outside? then 0 else 1) + (if pc.Outside? then 0 else 1)
    ensures InFlight(s.threads[t := pc]) == InFlight(s.threads)
  {
    SetThread(s, t, pc);
    hide Waiters, Insiders, InFlight, Held;
    assert InFlight(s.threads) - Held(pc) + Held(pc) == InFlight(s.threads);
  }

  lemma {:induction false} HeldIn(threads: seq<Pc>, t: nat)
    requires t < |threads|
    ensures Held(threads[t]) <= InFlight(threads)
  {
    if t > 0 {
      HeldIn(threads[1..], t - 1);
    }
  }

  /** With nothing left to do, no thread holds a batch, and all added checks are done. */
  lemma NothingInFlight(verdict: Check -> bool, s: Sys, limbo: int)
    requires InvWith(verdict, s, limbo) && s.sh.nTodo == 0
    ensures s.sh.queue == [] && s.added == s.done
    ensures forall t :: 0 <= t < |s.threads| && s.threads[t].Running? ==> s.threads[t].batch == []
  {
    assert InFlight(s.threads) == multiset{};
    forall t | 0 <= t < |s.threads| && s.threads[t].Running? ensures s.threads[t].batch == [] {
      HeldIn(s.threads, t);
      assert multiset(s.threads[t].batch) == multiset{};
      assert |s.threads[t].batch| == |multiset(s.threads[t].batch)|;
    }
  }

  lemma SetFromLimbo(s: Sys, t: nat, pc: Pc)
    requires t < |s.threads| && s.threads[t] == LIMBO
    ensures Waiters(s.threads[t := pc]) == Waiters(s.threads) + (if pc.Waiting? then 1 else 0)
    ensures Insiders(s.threads[t := pc]) == Insiders(s.threads) - (if pc.Outside? then 1 else 0)
    ensures InFlight(s.threads[t := pc]) == InFlight(s.threads) + Held(pc)
  {
    hide Waiters, Insiders, InFlight;
    SetThread(s, t, pc);
    assert Held(LIMBO) == multiset{};
    assert InFlight(s.threads) - multiset{} + Held(pc) == InFlight(s.threads) + Held(pc);
  }

  /** Filling in the position of the thread in the critical section. */
  lemma SetBatches(verdict: Check -> bool, s: Sys, t: nat, pc: Pc, s': Sys)
    requires (BatchesOk(verdict, s, t) || BatchesOk(verdict, s, -1)) && t < |s.threads| && s'.threads == s.threads[t := pc]
    requires ThreadOk(verdict, s'.sh.allOk, pc) && (pc.Running? ==> pc.batch != [])
    requires s'.sh.allOk ==> s.sh.allOk
    ensures BatchesOk(verdict, s', -1)
  {
  }

  lemma PollReturns(verdict: Check -> bool, s: Sys)
    requires Ready(verdict, s, 0) && s.sh.queue == [] && s.sh.nTodo == 0
    ensures Inv(verdict, AfterPoll(s, 0))
  {
    NothingInFlight(verdict, s, 0);
    SetFromLimbo(s, 0, Outside);
  }

  lemma PollBlocks(verdict: Check -> bool, s: Sys, t: nat)
    requires Ready(verdict, s, t) && s.sh.queue == [] && (t != 0 || s.sh.nTodo != 0)
    ensures Inv(verdict, AfterPoll(s, t))
  {
    hide BatchesOk, ResultsOk, Waiters, Insiders, InFlight;
    var s' := AfterPoll(s, t);
    assert s' == s.(sh := s.sh.(nIdle := s.sh.nIdle + 1), threads := s.threads[t := Waiting(false)]);
    hide AfterPoll;
    SetIdle(s, t, Waiting(false));
    SetBatches(verdict, s, t, Waiting(false), s');
    SameResults(verdict, s, s');
    assert Conserved(s') && Counted(s');
  }

  lemma PollTakes(verdict: Check -> bool, s: Sys, t: nat)
    requires Ready(verdict, s, t) && s.sh.queue != []
    ensures Inv(verdict, AfterPoll(s, t))
  {
    hide BatchesOk, ResultsOk, Waiters, Insiders, InFlight;
    BatchFits(s.sh);
    var n := BatchCount(s.sh);
    var batch := Popped(s.sh.queue, n);
    var pc := Running(batch, 0, 0, s.sh.allOk);
    var s' := AfterPoll(s, t);
    assert s' == s.(sh := s.sh.(queue := s.sh.queue[..|s.sh.queue| - n]), threads := s.threads[t := pc]);
    hide AfterPoll, Popped, BatchCount;
    SetFromLimbo(s, t, pc);
    SetBatches(verdict, s, t, pc, s');
    TakeConserves(s, t, n, batch, s');
    assert MasterOk(s');
    assert Counted(s');
    SameResults(verdict, s, s');
  }

  lemma SameResults(verdict: Check -> bool, s: Sys, s': Sys)
    requires ResultsOk(verdict, s) && s'.sh.allOk == s.sh.allOk && s'.done == s.done && s'.evaluated == s.evaluated
    ensures ResultsOk(verdict, s')
  {
  }

  lemma TakeConserves(s: Sys, t: nat, n: nat, batch: seq<Check>, s': Sys)
    requires Conserved(s) && 0 < n <= |s.sh.queue| && batch == Popped(s.sh.queue, n)
    requires s'.sh.queue == s.sh.queue[..|s.sh.queue| - n] && s'.sh.nTodo == s.sh.nTodo && s'.added == s.added && s'.done == s.done
    requires InFlight(s'.threads) == InFlight(s.threads) + multiset(batch)
    ensures Conserved(s')
  {
    PoppedContents(s.sh.queue, n);
    hide InFlight, Popped;
    assert |multiset(batch)| == |batch|;
  }

  lemma PollKeeps(verdict: Check -> bool, s: Sys, t: nat)
    requires Ready(verdict, s, t)
    ensures Inv(verdict, AfterPoll(s, t))
  {
    hide InvWith, AfterPoll;
    assert Counted(s) by { ReadyCounted(verdict, s, t); }
    if s.sh.queue != [] {
      PollTakes(verdict, s, t);
    } else if t == 0 && s.sh.nTodo == 0 {
      PollReturns(verdict, s);
    } else {
      PollBlocks(verdict, s, t);
    }
  }

  lemma ReadyCounted(verdict: Check -> bool, s: Sys, t: nat)
    requires Ready(verdict, s, t)
    ensures Counted(s)
  {
  }

  // ----- The steps

  /** Only the position of thread `t` matters to the poll through what replaces it. */
  lemma PollIgnoresOld(s: Sys, t: nat)
    requires t < |s.threads| && s.sh.nTotal + s.sh.nIdle + 1 > 0
    ensures AfterPoll(s, t) == AfterPoll(s.(threads := s.threads[t := LIMBO]), t)
  {
    var pc := PcOf(Poll(s.sh, t == 0).1);
    assert s.threads[t := LIMBO][t := pc] == s.threads[t := pc];
  }

  /** A thread without a batch steps into the critical section. */
  lemma IntoCriticalSection(verdict: Check -> bool, s: Sys, t: nat, sh: Shared)
    requires Inv(verdict, s) && t < |s.threads| && !s.threads[t].Running?
    requires sh == s.sh.(nTotal := s.sh.nTotal + (if s.threads[t].Outside? then 1 else 0),
                         nIdle := s.sh.nIdle - (if s.threads[t].Waiting? then 1 else 0))
    ensures Ready(verdict, s.(sh := sh, threads := s.threads[t := LIMBO]), t)
  {
    hide ResultsOk, Waiters, Insiders, InFlight;
    var u := s.(sh := sh, threads := s.threads[t := LIMBO]);
    assert BatchesOk(verdict, u, t);
    hide BatchesOk;
    assert Held(LIMBO) == multiset{};
    SetIdle(s, t, LIMBO);
    SameResults(verdict, s, u);
    assert Conserved(u) && Counted(u);
  }

  lemma EnterKeeps(verdict: Check -> bool, s: Sys, t: nat)
    requires Inv(verdict, s) && t < |s.threads| && s.threads[t].Outside?
    ensures Inv(verdict, Step(verdict, s, Enter(t)).value)
  {
    hide InvWith, AfterPoll, Waiters, Insiders;
    InvCounted(verdict, s);
    var sh := s.sh.(nTotal := s.sh.nTotal + 1);
    IntoCriticalSection(verdict, s, t, sh);
    PollIgnoresOld(s.(sh := sh), t);
    PollKeeps(verdict, s.(sh := sh, threads := s.threads[t := LIMBO]), t);
  }

  lemma ResumeKeeps(verdict: Check -> bool, s: Sys, t: nat)
    requires Inv(verdict, s) && t < |s.threads| && s.threads[t].Waiting?
    ensures Inv(verdict, Step(verdict, s, Resume(t)).value)
  {
    hide InvWith, AfterPoll, Waiters, Insiders;
    InvCounted(verdict, s);
    var sh := s.sh.(nIdle := s.sh.nIdle - 1);
    SetWaiters(s.threads, t, LIMBO);
    IntoCriticalSection(verdict, s, t, sh);
    PollIgnoresOld(s.(sh := sh), t);
    PollKeeps(verdict, s.(sh := sh, threads := s.threads[t := LIMBO]), t);
  }

  /** A batch whose running verdict is good was called in full; otherwise something failed. */
  lemma FinishedBatch(verdict: Check -> bool, allOk: bool, pc: Pc)
    requires pc.Running? && ThreadOk(verdict, allOk, pc) && pc.next == |pc.batch|
    ensures pc.ok ==> pc.batch[..Min(pc.ran, |pc.batch|)] == pc.batch && forall c :: c in multiset(pc.batch) ==> verdict(c)
    ensures !pc.ok && allOk ==> exists c :: c in multiset(pc.batch) && !verdict(c)
  {
    if !pc.ok && allOk {
      var k :| 0 <= k < pc.ran && !verdict(pc.batch[k]);
      assert pc.batch[k] in pc.batch;
    }
  }

  lemma CleanupResults(verdict: Check -> bool, s: Sys, t: nat)
    requires ResultsOk(verdict, s) && t < |s.threads| && s.threads[t].Running?
    requires ThreadOk(verdict, s.sh.allOk, s.threads[t]) && s.threads[t].next == |s.threads[t].batch|
    ensures ResultsOk(verdict, Cleanup(s, t))
  {
    FinishedBatch(verdict, s.sh.allOk, s.threads[t]);
  }

  lemma CleanupReady(verdict: Check -> bool, s: Sys, t: nat)
    requires Inv(verdict, s) && t < |s.threads| && s.threads[t].Running? && s.threads[t].next == |s.threads[t].batch|
    ensures Ready(verdict, Cleanup(s, t), t)
  {
    var u := Cleanup(s, t);
    CleanupResults(verdict, s, t);
    CleanupThreads(verdict, s, t);
    hide ResultsOk, BatchesOk, Waiters, Insiders, InFlight;
    CleanupCounts(s, t);
  }

  lemma CleanupThreads(verdict: Check -> bool, s: Sys, t: nat)
    requires Inv(verdict, s) && t < |s.threads| && s.threads[t].Running?
    ensures BatchesOk(verdict, Cleanup(s, t), t) && Cleanup(s, t).threads[t] == LIMBO
    ensures MasterOk(Cleanup(s, t))
  {
    CleanupBatches(verdict, s, t);
    CleanupMaster(verdict, s, t);
  }

  lemma CleanupBatches(verdict: Check -> bool, s: Sys, t: nat)
    requires Inv(verdict, s) && t < |s.threads| && s.threads[t].Running?
    ensures BatchesOk(verdict, Cleanup(s, t), t) && Cleanup(s, t).threads[t] == LIMBO
  {
    hide ResultsOk, Counted, Conserved, MasterOk;
  }

  lemma CleanupMaster(verdict: Check -> bool, s: Sys, t: nat)
    requires Inv(verdict, s) && t < |s.threads| && s.threads[t].Running?
    ensures MasterOk(Cleanup(s, t))
  {
    hide ResultsOk, Waiters, Insiders, BatchesOk;
    HeldIn(s.threads, t);
    TodoCovers(s, t);
  }

  /** The checks of a batch are among those to do. */
  lemma TodoCovers(s: Sys, t: nat)
    requires Conserved(s) && t < |s.threads| && s.threads[t].Running? && Held(s.threads[t]) <= InFlight(s.threads)
    ensures s.sh.nTodo >= |s.sh.queue| + |s.threads[t].batch|
  {
    hide InFlight;
    assert |multiset(s.threads[t].batch)| == |s.threads[t].batch|;
    assert |InFlight(s.threads)| == |InFlight(s.threads) - Held(s.threads[t])| + |Held(s.threads[t])|;
  }

  lemma CleanupCounts(s: Sys, t: nat)
    requires Counted(s) && Conserved(s) && t < |s.threads| && s.threads[t].Running?
    ensures Counted(Cleanup(s, t)) && Conserved(Cleanup(s, t))
  {
    hide Waiters, Insiders, InFlight;
    var wake := s.sh.nTodo - |s.threads[t].batch| == 0 && t != 0;
    var v := s.(threads := if wake then s.threads[0 := Notify(s.threads[0])] else s.threads);
    Notified0(s, wake, v);
    var u := Cleanup(s, t);
    assert u.threads == v.threads[t := LIMBO];
    SetThread(v, t, LIMBO);
    BatchDone(s, s.threads[t].batch, u);
  }

  lemma Notified0(s: Sys, wake: bool, v: Sys)
    requires s.threads != [] && v == s.(threads := if wake then s.threads[0 := Notify(s.threads[0])] else s.threads)
    ensures Waiters(v.threads) == Waiters(s.threads) && Insiders(v.threads) == Insiders(s.threads)
    ensures InFlight(v.threads) == InFlight(s.threads)
  {
    SetIdle(s, 0, Notify(s.threads[0]));
  }

  lemma BatchDone(s: Sys, batch: seq<Check>, u: Sys)
    requires Conserved(s) && multiset(batch) <= InFlight(s.threads)
    requires InFlight(u.threads) == InFlight(s.threads) - multiset(batch) + multiset([])
    requires u.sh.queue == s.sh.queue && u.added == s.added && u.done == s.done + multiset(batch)
    requires u.sh.nTodo == s.sh.nTodo - |batch|
    ensures Conserved(u)
  {
    hide InFlight;
    var f, b, q := InFlight(s.threads), multiset(batch), multiset(s.sh.queue);
    assert InFlight(u.threads) == f - b;
    assert f == (f - b) + b;
    assert |b| == |batch|;
    assert q + f + s.done == q + (f - b) + (s.done + b);
  }

  lemma FinishKeeps(verdict: Check -> bool, s: Sys, t: nat)
    requires Inv(verdict, s) && t < |s.threads| && s.threads[t].Running? && s.threads[t].next == |s.threads[t].batch|
    ensures Inv(verdict, Step(verdict, s, Finish(t)).value)
  {
    CleanupReady(verdict, s, t);
    hide InvWith;
    PollKeeps(verdict, Cleanup(s, t), t);
  }

  lemma ExecKeeps(verdict: Check -> bool, s: Sys, t: nat)
    requires Inv(verdict, s) && t < |s.threads| && s.threads[t].Running? && s.threads[t].next < |s.threads[t].batch|
    ensures Inv(verdict, Step(verdict, s, Exec(t)).value)
  {
    hide Waiters, Insiders, InFlight, ResultsOk;
    var pc := s.threads[t];
    var pc' := if pc.ok then Running(pc.batch, pc.next + 1, pc.ran + 1, verdict(pc.batch[pc.next]))
               else Running(pc.batch, pc.next + 1, pc.ran, false);
    var s' := s.(threads := s.threads[t := pc']);
    assert Step(verdict, s, Exec(t)) == Some(s');
    hide Step;
    ExecOk(verdict, s.sh.allOk, pc);
    SetBatches(verdict, s, t, pc', s');
    hide BatchesOk, ThreadOk;
    SetIdle(s, t, pc');
    SameResults(verdict, s, s');
    assert Conserved(s') && Counted(s');
  }

  lemma ExecOk(verdict: Check -> bool, allOk: bool, pc: Pc)
    requires pc.Running? && pc.next < |pc.batch| && ThreadOk(verdict, allOk, pc)
    ensures ThreadOk(verdict, allOk, if pc.ok then Running(pc.batch, pc.next + 1, pc.ran + 1, verdict(pc.batch[pc.next]))
                                     else Running(pc.batch, pc.next + 1, pc.ran, false))
  {
  }

  lemma {:induction false} NotifiedAll(threads: seq<Pc>)
    ensures Waiters(NotifyAll(threads)) == Waiters(threads) && Insiders(NotifyAll(threads)) == Insiders(threads)
    ensures InFlight(NotifyAll(threads)) == InFlight(threads)
  {
    if threads != [] {
      assert NotifyAll(threads)[1..] == NotifyAll(threads[1..]);
      NotifiedAll(threads[1..]);
    }
  }

  /** Threads that differ only in whether sleepers have been notified. */
  ghost predicate OnlyNotified(a: seq<Pc>, b: seq<Pc>) {
    && |a| == |b| > 0 && a[0] == b[0]
    && (forall t :: 0 <= t < |a| ==> b[t] == a[t] || b[t] == Notify(a[t]))
    && Waiters(a) == Waiters(b) && Insiders(a) == Insiders(b) && InFlight(a) == InFlight(b)
  }

  lemma AddNotifies(verdict: Check -> bool, s: Sys, checks: seq<Check>, pick: nat)
    requires Counted(s) && s.threads[0].Outside?
    ensures OnlyNotified(s.threads, Step(verdict, s, Add(checks, pick)).value.threads)
  {
    if |checks| == 1 && 0 < pick < |s.threads| {
      SetIdle(s, pick, Notify(s.threads[pick]));
    } else if |checks| > 1 {
      NotifiedAll(s.threads[1..]);
      var r := [s.threads[0]] + NotifyAll(s.threads[1..]);
      assert r[1..] == NotifyAll(s.threads[1..]);
    }
  }

  lemma AddKeeps(verdict: Check -> bool, s: Sys, checks: seq<Check>, pick: nat)
    requires Inv(verdict, s) && s.threads[0].Outside?
    ensures Inv(verdict, Step(verdict, s, Add(checks, pick)).value)
  {
    AddNotifies(verdict, s, checks, pick);
    var s' := Step(verdict, s, Add(checks, pick)).value;
    hide Step, Waiters, Insiders, InFlight;
    AddEffect(verdict, s, checks, pick);
    assert BatchesOk(verdict, s', -1);
    hide BatchesOk;
    assert |multiset(checks)| == |checks|;
    assert multiset(s.sh.queue + checks) == multiset(s.sh.queue) + multiset(checks);
    assert Conserved(s');
  }

  lemma AddEffect(verdict: Check -> bool, s: Sys, checks: seq<Check>, pick: nat)
    requires Counted(s) && s.threads[0].Outside?
    ensures var r := Step(verdict, s, Add(checks, pick)).value;
            r == s.(sh := s.sh.(queue := s.sh.queue + checks, nTodo := s.sh.nTodo + |checks|),
                    threads := r.threads, added := s.added + multiset(checks))
  {
  }

  lemma StepKeeps(verdict: Check -> bool, s: Sys, a: Action)
    requires Inv(verdict, s) && Step(verdict, s, a).Some?
    ensures Inv(verdict, Step(verdict, s, a).value)
  {
    hide InvWith, AfterPoll, Cleanup;
    match a
    case Add(checks, pick) => AddKeeps(verdict, s, checks, pick);
    case Enter(t) => EnterKeeps(verdict, s, t);
    case Resume(t) => ResumeKeeps(verdict, s, t);
    case Exec(t) => ExecKeeps(verdict, s, t);
    case Finish(t) => FinishKeeps(verdict, s, t);
  }
}
