/** The critical sections of the check queue as they update its fields (src/checkqueue.h). */
module CheckQueueLoop {
  import opened CheckQueue

  class Queue {
    var queue: seq<Check>
    var nIdle: int
    var nTotal: int
    var allOk: bool
    var nTodo: int
    const nBatchSize: nat

    constructor (batchSize: nat)
      ensures State() == Start(0, batchSize).sh
    {
      queue, nIdle, nTotal, allOk, nTodo, nBatchSize := [], 0, 0, true, 0, batchSize;
    }

    function State(): Shared
      reads this
    {
      Shared(queue, nIdle, nTotal, allOk, nTodo, nBatchSize)
    }

    /** Adds a batch of checks; `wake` says how many workers are notified. */
    method Add(checks: seq<Check>) returns (wake: nat)
      modifies this
      ensures State() == old(State()).(queue := old(queue) + checks, nTodo := old(nTodo) + |checks|)
      ensures (wake == 0 <==> checks == []) && (wake == 1 <==> |checks| == 1)
    {
      var i := 0;
      while i < |checks|
        invariant 0 <= i <= |checks|
        invariant State() == old(State()).(queue := old(queue) + checks[..i])
      {
        queue := queue + [checks[i]];
        i := i + 1;
      }
      assert checks[..i] == checks;
      nTodo := nTodo + |checks|;
      wake := if |checks| == 1 then 1 else if |checks| > 1 then 2 else 0;
    }

    /** Takes over a finished batch of `n` checks; `wake` says whether the master is notified. */
    method CleanUp(n: nat, ok: bool, master: bool) returns (wake: bool)
      modifies this
      ensures State() == old(State()).(allOk := old(allOk) && ok, nTodo := old(nTodo) - n)
      ensures wake <==> nTodo == 0 && !master
    {
      allOk := allOk && ok;
      nTodo := nTodo - n;
      wake := nTodo == 0 && !master;
    }

    /** Moves the last `nNow` checks of the stack into a batch, topmost first. */
    method PopBatch(nNow: nat) returns (batch: seq<Check>)
      requires nNow <= |queue|
      modifies this
      ensures State() == old(State()).(queue := old(queue)[..|old(queue)| - nNow])
      ensures batch == Popped(old(queue), nNow)
    {
      hide Popped;
      batch := [];
      var left := nNow;
      while left > 0
        invariant 0 <= left <= nNow && left <= |queue| && |old(queue)| - nNow == |queue| - left
        invariant State() == old(State()).(queue := queue) && queue <= old(queue)
        invariant batch + Popped(queue, left) == Popped(old(queue), nNow)
      {
        PoppedNext(batch, queue, left);
        batch := batch + [queue[|queue| - 1]];
        queue := queue[..|queue| - 1];
        left := left - 1;
      }
      assert Popped(queue, 0) == [];
      assert batch + [] == batch;
    }

    /** Looks for work: the outcome and the new state are those of `Poll`. */
    method Look(master: bool) returns (out: Outcome)
      requires nTotal + nIdle + 1 > 0
      modifies this
      ensures (State(), out) == Poll(old(State()), master)
    {
      hide Popped, BatchCount;
      if queue == [] {
        if master && nTodo == 0 {
          nTotal := nTotal - 1;
          out := Returned(allOk);
          allOk := true;
        } else {
          nIdle := nIdle + 1;
          out := Blocked;
        }
      } else {
        BatchFits(State());
        var nNow := BatchCount(State());
        var batch := PopBatch(nNow);
        out := Took(batch, allOk);
      }
    }
  }

  /** Calls the checks of a batch outside the lock, stopping at the first failure. */
  method RunBatch(verdict: Check -> bool, batch: seq<Check>, allOk: bool) returns (ok: bool, ran: nat)
    ensures ok <==> allOk && ran == |batch| && forall k :: 0 <= k < |batch| ==> verdict(batch[k])
    ensures ThreadOk(verdict, allOk, Running(batch, |batch|, ran, ok))
  {
    ok, ran := allOk, 0;
    var next := 0;
    while next < |batch|
      invariant next <= |batch| && ThreadOk(verdict, allOk, Running(batch, next, ran, ok))
      invariant ok ==> allOk
    {
      if ok {
        ok, ran := verdict(batch[next]), ran + 1;
      }
      next := next + 1;
    }
  }
}
