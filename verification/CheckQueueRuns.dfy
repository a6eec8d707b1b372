/**
 * Whole runs of the check queue, under any interleaving: what the master's wait returns, that no
 * wakeup is lost, and that a waiting master returns whatever the schedule (src/checkqueue.h).
 */
module CheckQueueRuns {
  import opened Options
  import opened CheckQueue

  /** The states reached by a sequence of enabled steps; `None` if one of them is not enabled. */
  ghost function Run(verdict: Check -> bool, s: Sys, actions: seq<Action>): Option<Sys>
    requires Inv(verdict, s)
    decreases actions
  {
    hide InvWith, Step;
    InvCounted(verdict, s);
    if actions == [] then Some(s)
    else
      match Step(verdict, s, actions[0])
      case None => None
      case Some(next) => StepKeeps(verdict, s, actions[0]); Run(verdict, next, actions[1..])
  }

  lemma {:induction false} RunKeeps(verdict: Check -> bool, s: Sys, actions: seq<Action>)
    requires Inv(verdict, s) && Run(verdict, s, actions).Some?
    ensures Inv(verdict, Run(verdict, s, actions).value)
    decreases actions
  {
    hide InvWith, Step;
    InvCounted(verdict, s);
    if actions != [] {
      StepKeeps(verdict, s, actions[0]);
      RunKeeps(verdict, Step(verdict, s, actions[0]).value, actions[1..]);
    }
  }

  ghost predicate ReachedBy(verdict: Check -> bool, s: Sys, workers: nat, batchSize: nat, actions: seq<Action>) {
    StartInv(verdict, workers, batchSize);
    Run(verdict, Start(workers, batchSize), actions) == Some(s)
  }

  /** A state of some run of the queue with its master and any number of workers. */
  ghost predicate Reachable(verdict: Check -> bool, s: Sys) {
    exists workers, batchSize, actions :: ReachedBy(verdict, s, workers, batchSize, actions)
  }

  lemma ReachableInv(verdict: Check -> bool, s: Sys)
    requires Reachable(verdict, s)
    ensures Inv(verdict, s)
  {
    hide InvWith, Start, Run;
    var workers, batchSize, actions :| ReachedBy(verdict, s, workers, batchSize, actions);
    StartInv(verdict, workers, batchSize);
    RunKeeps(verdict, Start(workers, batchSize), actions);
  }

  /** `nTodo` counts the queued checks and those in unfinished batches, in every reachable state. */
  lemma TodoIsExact(verdict: Check -> bool, s: Sys)
    requires Reachable(verdict, s)
    ensures s.sh.nTodo == |s.sh.queue| + |InFlight(s.threads)|
    ensures s.added == multiset(s.sh.queue) + InFlight(s.threads) + s.done
  {
    ReachableInv(verdict, s);
  }

  // ----- Wait

  /** The state in which the master looks for work when it takes step `a`. */
  function MasterPolls(s: Sys, a: Action): Option<Sys>
    requires Counted(s)
  {
    match a
    case Enter(0) => if s.threads[0].Outside? then Some(s.(sh := s.sh.(nTotal := s.sh.nTotal + 1))) else None
    case Resume(0) => if s.threads[0].Waiting? then Some(s.(sh := s.sh.(nIdle := s.sh.nIdle - 1))) else None
    case Finish(0) =>
      if s.threads[0].Running? && s.threads[0].next == |s.threads[0].batch| then Some(Cleanup(s, 0)) else None
    case _ => None
  }

  /** What the master's wait returns in step `a`, if it returns. */
  function Returns(s: Sys, a: Action): Option<bool>
    requires Counted(s)
  {
    match MasterPolls(s, a)
    case Some(u) => if u.sh.queue == [] && u.sh.nTodo == 0 then Some(u.sh.allOk) else None
    case None => None
  }

  lemma MasterReady(verdict: Check -> bool, s: Sys, a: Action)
    requires Inv(verdict, s) && MasterPolls(s, a).Some?
    ensures var u := MasterPolls(s, a).value; Ready(verdict, u.(threads := u.threads[0 := LIMBO]), 0)
  {
    hide InvWith, Cleanup;
    InvCounted(verdict, s);
    var u := MasterPolls(s, a).value;
    match a
    case Enter(_) => IntoCriticalSection(verdict, s, 0, u.sh);
    case Resume(_) => IntoCriticalSection(verdict, s, 0, u.sh);
    case Finish(_) =>
      CleanupReady(verdict, s, 0);
      assert u.threads[0 := LIMBO] == u.threads;
  }

  /**
   * The wait returns true exactly when every check added this round succeeds, and then every one of
   * them was called; afterwards nothing of the round is left.
   */
  lemma WaitIsCorrect(verdict: Check -> bool, s: Sys, a: Action)
    requires Reachable(verdict, s) && Counted(s) && Returns(s, a).Some?
    ensures Returns(s, a).value <==> forall c :: c in s.added ==> verdict(c)
    ensures Returns(s, a).value ==> MasterPolls(s, a).value.evaluated == s.added
    ensures var r := Step(verdict, s, a);
      && r.Some? && r.value.threads[0] == Outside
      && r.value.sh.queue == [] && r.value.sh.nTodo == 0 && r.value.sh.allOk
      && r.value.added == r.value.done == r.value.evaluated == multiset{}
      && forall t :: 0 <= t < |r.value.threads| ==> !r.value.threads[t].Running?
  {
    hide Reachable, InvWith, InFlight;
    ReachableInv(verdict, s);
    MasterReady(verdict, s, a);
    var u := MasterPolls(s, a).value;
    RoundOver(verdict, u.(threads := u.threads[0 := LIMBO]));
    assert u.added == s.added;
    NothingRuns(verdict, s, a);
    var threads := Step(verdict, s, a).value.threads;
    forall t | 0 <= t < |threads| ensures !threads[t].Running? {
      assert t > 0 ==> threads[t] == u.threads[0 := LIMBO][t];
    }
  }

  lemma RoundOver(verdict: Check -> bool, u: Sys)
    requires Ready(verdict, u, 0) && u.sh.queue == [] && u.sh.nTodo == 0
    ensures u.sh.allOk <==> forall c :: c in u.added ==> verdict(c)
    ensures u.sh.allOk ==> u.evaluated == u.added
    ensures forall t :: 0 < t < |u.threads| ==> !u.threads[t].Running?
  {
    NothingInFlight(verdict, u, 0);
  }

  lemma NothingRuns(verdict: Check -> bool, s: Sys, a: Action)
    requires Inv(verdict, s) && Returns(s, a).Some?
    ensures var r := Step(verdict, s, a);
      && r.Some? && r.value.threads == MasterPolls(s, a).value.threads[0 := Outside]
      && r.value.sh.queue == [] && r.value.sh.nTodo == 0 && r.value.sh.allOk
      && r.value.added == r.value.done == r.value.evaluated == multiset{}
  {
    hide BatchesOk, ResultsOk, Waiters, Insiders, InFlight;
  }

  // ----- No lost wakeup

  lemma {:induction false} SomeoneHolds(threads: seq<Pc>) returns (t: nat)
    requires |InFlight(threads)| > 0
    ensures t < |threads| && threads[t].Running? && threads[t].batch != []
  {
    if Held(threads[0]) != multiset{} {
      t := 0;
    } else {
      assert InFlight(threads) == InFlight(threads[1..]);
      var t' := SomeoneHolds(threads[1..]);
      t := t' + 1;
    }
  }

  /** A master asleep without a pending notification: some worker holds an unfinished batch. */
  lemma NoLostWakeup(verdict: Check -> bool, s: Sys)
    requires Reachable(verdict, s) && s.threads != [] && s.threads[0] == Waiting(false)
    ensures exists t :: 0 < t < |s.threads| && s.threads[t].Running? && s.threads[t].batch != []
  {
    ReachableInv(verdict, s);
    hide Reachable;
    var t := SomeoneHolds(s.threads);
  }

  // ----- Every wait returns

  /** Checks that running batches have still to go through. */
  function Left(threads: seq<Pc>): nat {
    if threads == [] then 0
    else (if threads[0].Running? && threads[0].next <= |threads[0].batch| then |threads[0].batch| - threads[0].next else 0)
         + Left(threads[1..])
  }

  /** Threads that have something to look at: outside, or woken. */
  function Pending(threads: seq<Pc>): nat {
    if threads == [] then 0
    else (if threads[0].Outside? || threads[0] == Waiting(true) then 1 else 0) + Pending(threads[1..])
  }

  /** Less work ahead: lexicographically in checks to do, queued, left to go through, threads to look. */
  predicate Less(s': Sys, s: Sys) {
    || s'.sh.nTodo < s.sh.nTodo
    || (s'.sh.nTodo == s.sh.nTodo &&
        (|| |s'.sh.queue| < |s.sh.queue|
         || (|s'.sh.queue| == |s.sh.queue| &&
             (|| Left(s'.threads) < Left(s.threads)
              || (Left(s'.threads) == Left(s.threads) && Pending(s'.threads) < Pending(s.threads))))))
  }

  lemma {:induction false} SetLeft(threads: seq<Pc>, t: nat, pc: Pc)
    requires t < |threads|
    ensures Left(threads[t := pc]) - Left([pc]) == Left(threads) - Left([threads[t]])
    ensures Pending(threads[t := pc]) - Pending([pc]) == Pending(threads) - Pending([threads[t]])
  {
    if t == 0 {
      assert threads[0 := pc][1..] == threads[1..];
    } else {
      assert threads[t := pc][1..] == threads[1..][t - 1 := pc];
      SetLeft(threads[1..], t - 1, pc);
    }
  }

  /** A thread that enters the critical section with nothing in hand. */
  lemma PollAdvances(s: Sys, t: nat, sh: Shared)
    requires Counted(s) && t < |s.threads| && !s.threads[t].Running? && sh.nTotal + sh.nIdle + 1 > 0
    requires sh == s.sh.(nTotal := sh.nTotal, nIdle := sh.nIdle)
    requires t == 0 ==> sh.queue != [] || sh.nTodo != 0
    requires s.threads[t] == Waiting(false) ==> sh == s.sh.(nIdle := s.sh.nIdle - 1)
    ensures var s' := AfterPoll(s.(sh := sh), t); s' == s || Less(s', s)
  {
    var (sh', out) := Poll(sh, t == 0);
    SetLeft(s.threads, t, PcOf(out));
    if sh.queue != [] {
      BatchFits(sh);
    } else if s.threads[t] == Waiting(false) {
      assert s.threads[t := Waiting(false)] == s.threads;
    }
  }

  /**
   * Any step but adding checks and the master's own entry or return either changes nothing (a
   * spurious wakeup) or leaves less work.
   */
  lemma StepAdvances(verdict: Check -> bool, s: Sys, a: Action)
    requires Inv(verdict, s) && Step(verdict, s, a).Some?
    requires !a.Add? && a != Enter(0) && Returns(s, a).None?
    ensures Step(verdict, s, a).value == s || Less(Step(verdict, s, a).value, s)
    ensures Step(verdict, s, a).value == s ==> a.Resume? && s.threads[a.t] == Waiting(false)
  {
    hide InvWith, AfterPoll, Less, Cleanup;
    InvCounted(verdict, s);
    match a
    case Enter(t) =>
      PollAdvances(s, t, s.sh.(nTotal := s.sh.nTotal + 1));
      EnterChanges(verdict, s, t);
    case Resume(t) =>
      SetWaiters(s.threads, t, s.threads[t]);
      PollAdvances(s, t, s.sh.(nIdle := s.sh.nIdle - 1));
      if s.threads[t].notified {
        ResumeChanges(verdict, s, t);
      }
    case Exec(t) => ExecAdvances(verdict, s, t);
    case Finish(t) => FinishAdvances(verdict, s, t);
  }

  lemma EnterChanges(verdict: Check -> bool, s: Sys, t: nat)
    requires Counted(s) && t < |s.threads| && s.threads[t].Outside? && t != 0
    ensures Step(verdict, s, Enter(t)).value.threads[t] != s.threads[t]
  {
  }

  lemma ResumeChanges(verdict: Check -> bool, s: Sys, t: nat)
    requires Counted(s) && t < |s.threads| && s.threads[t].Waiting? && s.threads[t].notified
    ensures Step(verdict, s, Resume(t)).value.threads[t] != s.threads[t]
  {
    SetWaiters(s.threads, t, s.threads[t]);
  }

  lemma ExecAdvances(verdict: Check -> bool, s: Sys, t: nat)
    requires Counted(s) && t < |s.threads| && s.threads[t].Running? && s.threads[t].next < |s.threads[t].batch|
    ensures Less(Step(verdict, s, Exec(t)).value, s) && Step(verdict, s, Exec(t)).value != s
  {
    var s' := Step(verdict, s, Exec(t)).value;
    SetLeft(s.threads, t, s'.threads[t]);
    assert s'.threads == s.threads[t := s'.threads[t]];
  }

  lemma FinishAdvances(verdict: Check -> bool, s: Sys, t: nat)
    requires Inv(verdict, s) && t < |s.threads| && s.threads[t].Running? && s.threads[t].next == |s.threads[t].batch|
    ensures Less(Step(verdict, s, Finish(t)).value, s) && Step(verdict, s, Finish(t)).value != s
  {
    hide ResultsOk, Waiters, Insiders, InFlight;
  }

  /**
   * While the master is inside, some thread that is not asleep can step, and its step returns from
   * the wait or leaves less work: with `StepAdvances`, no schedule keeps the master from returning.
   */
  lemma NeverStuck(verdict: Check -> bool, s: Sys)
    requires Reachable(verdict, s) && Counted(s) && !s.threads[0].Outside?
    ensures exists a :: Advances(verdict, s, a)
  {
    ReachableInv(verdict, s);
    var t := 0;
    if s.threads[0] == Waiting(true) {
      ResumeAdvances(verdict, s);
    } else {
      if s.threads[0] == Waiting(false) {
        t := SomeoneHolds(s.threads);
      }
      RunnerAdvances(verdict, s, t);
    }
  }

  ghost predicate Advances(verdict: Check -> bool, s: Sys, a: Action)
    requires Counted(s)
  {
    && Step(verdict, s, a).Some?
    && (a.Resume? || a.Exec? || a.Finish?)
    && (Returns(s, a).Some? || Less(Step(verdict, s, a).value, s))
  }

  lemma ResumeAdvances(verdict: Check -> bool, s: Sys)
    requires Inv(verdict, s) && s.threads[0] == Waiting(true)
    ensures Advances(verdict, s, Resume(0))
  {
    SetWaiters(s.threads, 0, s.threads[0]);
    if Returns(s, Resume(0)).None? {
      StepAdvances(verdict, s, Resume(0));
    }
  }

  lemma RunnerAdvances(verdict: Check -> bool, s: Sys, t: nat)
    requires Inv(verdict, s) && t < |s.threads| && s.threads[t].Running?
    ensures exists a :: Advances(verdict, s, a)
  {
    assert s.threads[t].next <= |s.threads[t].batch| by { assert ThreadOk(verdict, s.sh.allOk, s.threads[t]); }
    if s.threads[t].next < |s.threads[t].batch| {
      ExecAdvances(verdict, s, t);
      assert Advances(verdict, s, Exec(t));
    } else {
      FinishAdvances(verdict, s, t);
      assert Advances(verdict, s, Finish(t));
    }
  }

  /** A scheduler: while the master is inside it picks some enabled step that is no spurious wakeup. */
  ghost predicate Schedules(verdict: Check -> bool, pick: Sys -> Action) {
    forall s :: Inv(verdict, s) ==> Picks(verdict, s, pick(s))
  }

  ghost predicate Picks(verdict: Check -> bool, s: Sys, a: Action)
    requires Inv(verdict, s)
  {
    InvCounted(verdict, s);
    !s.threads[0].Outside? ==>
      Step(verdict, s, a).Some? && !a.Add? && !(a.Resume? && s.threads[a.t] == Waiting(false))
  }

  /** Under `pick`, the master's wait returns in one of the next `n + 1` steps. */
  ghost predicate ReturnsWithin(verdict: Check -> bool, s: Sys, pick: Sys -> Action, n: nat)
    requires Inv(verdict, s) && Schedules(verdict, pick)
    decreases n
  {
    hide InvWith, Step;
    InvCounted(verdict, s);
    && !s.threads[0].Outside?
    && (|| Returns(s, pick(s)).Some?
        || (n > 0 && (assert Picks(verdict, s, pick(s)); StepKeeps(verdict, s, pick(s));
                      ReturnsWithin(verdict, Step(verdict, s, pick(s)).value, pick, n - 1))))
  }

  lemma StaysInside(verdict: Check -> bool, s: Sys, a: Action)
    requires Inv(verdict, s) && Step(verdict, s, a).Some? && !a.Add? && !s.threads[0].Outside? && Returns(s, a).None?
    ensures Step(verdict, s, a).value.threads != [] && !Step(verdict, s, a).value.threads[0].Outside?
  {
    hide InvWith;
    InvCounted(verdict, s);
    match a
    case Enter(t) => EnterInside(verdict, s, t);
    case Resume(t) => ResumeInside(verdict, s, t);
    case Exec(t) =>
    case Finish(t) => FinishInside(verdict, s, t);
  }

  lemma PollInside(s: Sys, t: nat)
    requires t < |s.threads| && s.sh.nTotal + s.sh.nIdle + 1 > 0 && (t == 0 || !s.threads[0].Outside?)
    requires t == 0 ==> !Poll(s.sh, true).1.Returned?
    ensures AfterPoll(s, t).threads != [] && !AfterPoll(s, t).threads[0].Outside?
  {
    hide BatchCount, Popped;
  }

  lemma EnterInside(verdict: Check -> bool, s: Sys, t: nat)
    requires Counted(s) && Step(verdict, s, Enter(t)).Some? && !s.threads[0].Outside?
    ensures Step(verdict, s, Enter(t)).value.threads != [] && !Step(verdict, s, Enter(t)).value.threads[0].Outside?
  {
    hide AfterPoll, Poll;
    PollInside(s.(sh := s.sh.(nTotal := s.sh.nTotal + 1)), t);
  }

  lemma ResumeInside(verdict: Check -> bool, s: Sys, t: nat)
    requires Counted(s) && Step(verdict, s, Resume(t)).Some? && !s.threads[0].Outside? && Returns(s, Resume(t)).None?
    ensures Step(verdict, s, Resume(t)).value.threads != [] && !Step(verdict, s, Resume(t)).value.threads[0].Outside?
  {
    hide AfterPoll;
    SetWaiters(s.threads, t, s.threads[t]);
    PollInside(s.(sh := s.sh.(nIdle := s.sh.nIdle - 1)), t);
  }

  lemma FinishInside(verdict: Check -> bool, s: Sys, t: nat)
    requires Counted(s) && Step(verdict, s, Finish(t)).Some? && !s.threads[0].Outside? && Returns(s, Finish(t)).None?
    ensures Step(verdict, s, Finish(t)).value.threads != [] && !Step(verdict, s, Finish(t)).value.threads[0].Outside?
  {
    hide AfterPoll;
    PollInside(Cleanup(s, t), t);
  }

  /** Whatever the scheduler picks, a wait in progress returns. */
  lemma {:induction false} WaitReturns(verdict: Check -> bool, s: Sys, pick: Sys -> Action) returns (n: nat)
    requires Inv(verdict, s) && Schedules(verdict, pick)
    requires s.threads != [] && !s.threads[0].Outside? && s.sh.nTodo >= 0
    ensures ReturnsWithin(verdict, s, pick, n)
    decreases s.sh.nTodo, |s.sh.queue|, Left(s.threads), Pending(s.threads)
  {
    hide InvWith, Returns;
    InvCounted(verdict, s);
    var a := pick(s);
    assert Picks(verdict, s, a);
    assert a != Enter(0);
    hide Step;
    if Returns(s, a).Some? {
      n := 0;
    } else {
      StepAdvances(verdict, s, a);
      StepKeeps(verdict, s, a);
      StaysInside(verdict, s, a);
      var s' := Step(verdict, s, a).value;
      TodoNat(verdict, s');
      var m := WaitReturns(verdict, s', pick);
      n := m + 1;
    }
  }

  lemma TodoNat(verdict: Check -> bool, s: Sys)
    requires Inv(verdict, s)
    ensures s.sh.nTodo >= 0
  {
  }
}
