/** After a stop request: exactly which workers can still begin a callback. */
module PoolCallbacks {
  import opened Collections
  import opened RingQueue
  import opened ThreadPool
  import opened PoolLocks
  import opened PoolSlots
  import opened PoolWakeups
  import opened PoolTickets
  import opened PoolSafety
  import opened PoolProgress

  /** The submission a worker has taken or, past its last test of the flag, is about to take. */
  function PendingTicket(s: Pool, i: nat): Option<nat> {
    if i >= |s.workers| then None
    else if WorkerJob(s.workers[i]).Some? then Some(WorkerJob(s.workers[i]).value.ticket)
    else if s.workers[i].WTake? then Some(|s.fate|)
    else None
  }

  predicate HasRoutine(s: Pool, ticket: nat) {
    ticket < |s.submitted| && s.submitted[ticket].routine != 0
  }

  /** The worker has a callback ahead of it. */
  predicate CallbackAhead(s: Pool, i: nat) {
    PendingTicket(s, i).Some? && HasRoutine(s, PendingTicket(s, i).value)
  }

  /** The worker is about to begin what it has ahead of it. */
  predicate Starts(s: Pool, step: Step, i: nat) {
    step == WorkerStep(i) && i < |s.workers| && s.workers[i].WStart?
  }

  lemma OwnStepKeepsTicket(s: Pool, i: nat)
    requires Good(s) && s.stop && WorkerEnabled(s, i) && !s.workers[i].WStart?
    ensures PendingTicket(WorkerNext(s, i), i) == PendingTicket(s, i)
    ensures WorkerNext(s, i).submitted == s.submitted
  {
    if s.workers[i].WTake? {
      assert WorkerLocal(s.workers[i], s.tasks == [], s.stop, s.stopper);
    } else {
      OwnMoveKeepsTicket(s, i);
    }
  }

  lemma OwnMoveKeepsTicket(s: Pool, i: nat)
    requires s.stop && WorkerEnabled(s, i) && !s.workers[i].WStart? && !s.workers[i].WTake?
    ensures PendingTicket(WorkerNext(s, i), i) == PendingTicket(s, i)
    ensures WorkerNext(s, i).submitted == s.submitted
  {
  }

  /** Another worker leaves a worker and its ticket alone: only one of them can be taking. */
  lemma OtherStepKeepsTicket(s: Pool, i: nat, j: nat)
    requires Good(s) && WorkerEnabled(s, j) && i < |s.workers| && i != j
    ensures PendingTicket(WorkerNext(s, j), i) == PendingTicket(s, i)
    ensures WorkerNext(s, j).submitted == s.submitted
  {
    WorkerMovesAlone(s, j);
    WorkerHistory(s, j);
  }

  lemma WorkerHistory(s: Pool, j: nat)
    requires WorkerEnabled(s, j)
    ensures WorkerNext(s, j).submitted == s.submitted
    ensures !s.workers[j].WTake? ==> |WorkerNext(s, j).fate| == |s.fate|
  {
  }

  lemma ProducerHistory(s: Pool, p: nat)
    requires ProducerEnabled(s, p)
    ensures s.submitted <= ProducerNext(s, p).submitted && ProducerNext(s, p).fate == s.fate
  {
  }

  lemma TicketIsSubmitted(s: Pool, i: nat)
    requires Good(s) && PendingTicket(s, i).Some?
    ensures PendingTicket(s, i).value < |s.submitted|
  {
    assert WorkerLocal(s.workers[i], s.tasks == [], s.stop, s.stopper);
  }

  /** With the flag up, nothing but its own start changes what a worker has ahead of it. */
  lemma StepKeepsAhead(s: Pool, step: Step, i: nat)
    requires Good(s) && s.stop && Enabled(s, step) && i < |s.workers| && !Starts(s, step, i)
    ensures CallbackAhead(Apply(s, step), i) <==> CallbackAhead(s, i)
  {
    match step
    case WorkerStep(j) =>
      if j == i {
        OwnStepKeepsTicket(s, i);
      } else {
        OtherStepKeepsTicket(s, i, j);
      }
    case ProducerStep(p) => ProducerKeepsAhead(s, p, i);
    case _ => OutsideKeepsAhead(s, step, i);
  }

  lemma ProducerKeepsAhead(s: Pool, p: nat, i: nat)
    requires Good(s) && ProducerEnabled(s, p) && i < |s.workers|
    ensures CallbackAhead(ProducerNext(s, p), i) <==> CallbackAhead(s, i)
  {
    ProducerHistory(s, p);
    ProducerMovesAlone(s, p);
    if PendingTicket(s, i).Some? {
      TicketIsSubmitted(s, i);
    }
  }

  lemma OutsideKeepsAhead(s: Pool, step: Step, i: nat)
    requires Enabled(s, step) && !step.WorkerStep? && !step.ProducerStep? && i < |s.workers|
    ensures CallbackAhead(Apply(s, step), i) <==> CallbackAhead(s, i)
  {
  }

  /** The start of a callback is counted exactly if there is one. */
  lemma StartCounts(s: Pool, i: nat)
    requires Good(s) && s.stop && i < |s.workers| && s.workers[i].WStart?
    ensures (Slot(s, s.workers[i].job.slot).routine != 0) <==> CallbackAhead(s, i)
  {
    assert WorkerJob(s.workers[i]) == Some(s.workers[i].job);
  }

  /** A worker without a callback ahead of it never begins one. */
  lemma {:induction false} NoneAheadNoneBegun(s: Pool, steps: seq<Step>, i: nat)
    requires Good(s) && s.stop && IsRun(s, steps) && i < |s.workers| && !CallbackAhead(s, i)
    ensures Begins(s, steps, i) == 0
    decreases |steps|
  {
    if steps != [] {
      StepKeepsGood(s, steps[0]);
      StepKeepsFlag(s, steps[0]);
      StepKeepsThreads(s, steps[0]);
      if Starts(s, steps[0], i) {
        StartCounts(s, i);
        StopStays(s, steps[0], i);
        AtMostOneMoreCallback(Apply(s, steps[0]), steps[1..], i);
      } else {
        StepKeepsAhead(s, steps[0], i);
        NoneAheadNoneBegun(Apply(s, steps[0]), steps[1..], i);
      }
    }
  }

  /** A worker with a callback ahead of it begins it when it is scheduled. */
  lemma {:induction false} AheadCanBegin(s: Pool, i: nat) returns (steps: seq<Step>)
    requires Good(s) && s.stop && i < |s.workers| && CallbackAhead(s, i)
    ensures IsRun(s, steps) && Begins(s, steps, i) == 1
    decreases if s.workers[i].WTake? then 2 else if s.workers[i].WUnlockTasks? then 1 else 0
  {
    var step := WorkerStep(i);
    if s.workers[i].WStart? {
      StartCounts(s, i);
      steps := [step];
      assert steps[1..] == [];
    } else {
      OwnStepKeepsTicket(s, i);
      StepKeepsGood(s, step);
      StepKeepsFlag(s, step);
      StepKeepsThreads(s, step);
      assert WorkerLocal(s.workers[i], s.tasks == [], s.stop, s.stopper);
      var rest := AheadCanBegin(Apply(s, step), i);
      steps := [step] + rest;
      assert steps[1..] == rest;
    }
  }

  /** Once a stop is requested, a worker can begin one more callback exactly if it has one ahead
      of it: it holds a task with a routine, or has passed its last test of the flag and the
      oldest task in the queue has one. */
  lemma OneMoreCallbackExactly(s: Pool, i: nat)
    requires Reachable(s) && s.stop && i < |s.workers|
    ensures CallbackAhead(s, i) <==> exists steps: seq<Step> :: IsRun(s, steps) && Begins(s, steps, i) == 1
    ensures CallbackAhead(s, i) ==> Pending(s.workers[i]) == 1
  {
    ReachableIsGood(s);
    if CallbackAhead(s, i) {
      var steps := AheadCanBegin(s, i);
      assert IsRun(s, steps) && Begins(s, steps, i) == 1;
    } else {
      forall steps: seq<Step> | IsRun(s, steps) ensures Begins(s, steps, i) == 0 {
        NoneAheadNoneBegun(s, steps, i);
      }
    }
  }
}
