/** Progress of the thread pool: a measure that every step of the pool's own decreases, and
    what that means once a stop has been requested. */
module PoolProgress {
  import opened Collections
  import opened RingQueue
  import opened ThreadPool
  import opened PoolLocks
  import opened PoolSlots
  import opened PoolWakeups
  import opened PoolTickets
  import opened PoolSafety

  // ---------- the measure ----------

  /** Work a queued task still causes, with `np` producers to wake. */
  function TaskWeight(np: nat): nat {
    12 + 2 * np
  }

  function WorkerWeight(np: nat, w: WorkerPc): nat {
    match w
    case WExited => 0
    case WAsleep => 0
    case WGoSleep => 1
    case WTake => 2
    case WCheck => 3
    case WTest => 4
    case WLockTasks => 5
    case WWoken => 5
    case WTop => 6
    case WUnlockFree(_) => 7
    case WSizeFree => 8 + 2 * np
    case WPutFree(_) => 9 + 2 * np
    case WLockFree(_) => 10 + 2 * np
    case WRunning(_) => 11 + 2 * np
    case WStart(_) => 12 + 2 * np
    case WUnlockTasks(got) => if got.Some? then 13 + 2 * np else 1
  }

  /** Work until a submission with `nw` workers to wake is through. */
  function SubmitWeight(nw: nat, np: nat): nat {
    5 * nw + TaskWeight(np)
  }

  function ProducerWeight(nw: nat, np: nat, p: ProducerPc): nat {
    match p
    case PIdle => 0
    case PGiveUp(_) => 1
    case PUnlockTasks(_) => 1
    case PSizeTasks => 2 + 5 * nw
    case PPutTask(_, _) => 3 + SubmitWeight(nw, np)
    case PLockTasks(_, _) => 4 + SubmitWeight(nw, np)
    case PFill(_, _) => 5 + SubmitWeight(nw, np)
    case PUnlockFree(_, _) => 6 + SubmitWeight(nw, np)
    case PAsleep(_) => 7 + SubmitWeight(nw, np)
    case PTestFree(_, _) => 8 + SubmitWeight(nw, np)
    case PLockFree(_, _) => 9 + SubmitWeight(nw, np)
    case PWoken(_) => 9 + SubmitWeight(nw, np)
  }

  function StopperWeight(nw: nat, st: StopperPc): nat {
    match st
    case SIdle => 6 * nw + 5
    case SLock => 6 * nw + 4
    case SBroadcast => 6 * nw + 3
    case SUnlock => nw + 2
    case SJoin(k) => if k <= nw then nw + 1 - k else 1
    case SDone => 0
  }

  function Workers(np: nat, ws: seq<WorkerPc>): nat {
    if ws == [] then 0 else WorkerWeight(np, ws[0]) + Workers(np, ws[1..])
  }

  function Producers(nw: nat, np: nat, ps: seq<ProducerPc>): nat {
    if ps == [] then 0 else ProducerWeight(nw, np, ps[0]) + Producers(nw, np, ps[1..])
  }

  function Measure(s: Pool): nat {
    var nw, np := |s.workers|, |s.producers|;
    Workers(np, s.workers) + Producers(nw, np, s.producers) + TaskWeight(np) * |s.tasks| + StopperWeight(nw, s.stopper)
  }

  lemma {:induction false} SetWorkerWeight(np: nat, ws: seq<WorkerPc>, i: nat, w: WorkerPc)
    requires i < |ws|
    ensures Workers(np, ws[i := w]) + WorkerWeight(np, ws[i]) == Workers(np, ws) + WorkerWeight(np, w)
  {
    if i == 0 {
      assert ws[i := w][1..] == ws[1..];
    } else {
      assert ws[i := w][1..] == ws[1..][i - 1 := w];
      SetWorkerWeight(np, ws[1..], i - 1, w);
    }
  }

  lemma {:induction false} SetProducerWeight(nw: nat, np: nat, ps: seq<ProducerPc>, p: nat, pc: ProducerPc)
    requires p < |ps|
    ensures Producers(nw, np, ps[p := pc]) + ProducerWeight(nw, np, ps[p]) ==
            Producers(nw, np, ps) + ProducerWeight(nw, np, pc)
  {
    if p == 0 {
      assert ps[p := pc][1..] == ps[1..];
    } else {
      assert ps[p := pc][1..] == ps[1..][p - 1 := pc];
      SetProducerWeight(nw, np, ps[1..], p - 1, pc);
    }
  }

  /** A broadcast adds at most 5 for every worker, or 2 for every producer. */
  lemma {:induction false} WakeWorkersWeight(np: nat, ws: seq<WorkerPc>)
    ensures Workers(np, ws) <= Workers(np, WakeWorkers(ws)) <= Workers(np, ws) + 5 * |ws|
  {
    if ws != [] {
      assert WakeWorkers(ws)[1..] == WakeWorkers(ws[1..]);
      WakeWorkersWeight(np, ws[1..]);
    }
  }

  lemma {:induction false} WakeProducersWeight(nw: nat, np: nat, ps: seq<ProducerPc>)
    ensures Producers(nw, np, WakeProducers(ps)) <= Producers(nw, np, ps) + 2 * |ps|
  {
    if ps != [] {
      assert WakeProducers(ps)[1..] == WakeProducers(ps[1..]);
      WakeProducersWeight(nw, np, ps[1..]);
    }
  }

  /** A worker step changes its own position, and may wake all producers. */
  lemma WorkerStepMoves(s: Pool, i: nat)
    requires WorkerEnabled(s, i)
    ensures var s', np := WorkerNext(s, i), |s.producers|;
            && s'.workers == s.workers[i := s'.workers[i]]
            && s'.stopper == s.stopper && |s'.producers| == np
            && (s.workers[i].WSizeFree? || s'.producers == s.producers)
            && (s.workers[i].WSizeFree? ==>
                  (s'.producers == s.producers || s'.producers == WakeProducers(s.producers))
                    && s'.workers[i] == WUnlockFree(true))
  {
  }

  /** The weight a worker step takes off, broadcasts and queue changes included. */
  lemma WorkerStepWeight(s: Pool, i: nat)
    requires WorkerEnabled(s, i)
    ensures var s', np := WorkerNext(s, i), |s.producers|;
            && |s'.workers| == |s.workers| && |s'.tasks| <= |s.tasks|
            && (|s'.tasks| == |s.tasks| ==> WorkerWeight(np, s'.workers[i]) < WorkerWeight(np, s.workers[i]))
            && (|s'.tasks| != |s.tasks| ==>
                  |s'.tasks| == |s.tasks| - 1 && s.workers[i] == WTake
                    && WorkerWeight(np, s'.workers[i]) == 13 + 2 * np)
  {
  }

  lemma WorkerStepDecreases(s: Pool, i: nat)
    requires WorkerEnabled(s, i)
    ensures Measure(WorkerNext(s, i)) < Measure(s)
  {
    var s', nw, np := WorkerNext(s, i), |s.workers|, |s.producers|;
    WorkerStepMoves(s, i);
    WorkerStepWeight(s, i);
    SetWorkerWeight(np, s.workers, i, s'.workers[i]);
    WakeProducersWeight(nw, np, s.producers);
    if |s'.tasks| != |s.tasks| {
      assert TaskWeight(np) * |s.tasks| == TaskWeight(np) * |s'.tasks| + TaskWeight(np);
    }
  }

  lemma ProducerStepWeight(s: Pool, p: nat)
    requires ProducerEnabled(s, p)
    ensures var s', nw, np := ProducerNext(s, p), |s.workers|, |s.producers|;
            && s'.producers == s.producers[p := s'.producers[p]]
            && s'.stopper == s.stopper && |s'.workers| == nw
            && (s.producers[p].PSizeTasks? || s'.workers == s.workers)
            && (s.producers[p].PSizeTasks? ==>
                  (s'.workers == s.workers || s'.workers == WakeWorkers(s.workers))
                    && s'.producers[p] == PUnlockTasks(0))
            && (|s'.tasks| == |s.tasks| || |s'.tasks| == |s.tasks| + 1)
            && (|s'.tasks| == |s.tasks| ==>
                  ProducerWeight(nw, np, s'.producers[p]) < ProducerWeight(nw, np, s.producers[p]))
            && (|s'.tasks| != |s.tasks| ==> s.producers[p].PPutTask? && s'.producers[p] == PSizeTasks)
  {
  }

  lemma ProducerStepDecreases(s: Pool, p: nat)
    requires ProducerEnabled(s, p)
    ensures Measure(ProducerNext(s, p)) < Measure(s)
  {
    var s', nw, np := ProducerNext(s, p), |s.workers|, |s.producers|;
    ProducerStepWeight(s, p);
    SetProducerWeight(nw, np, s.producers, p, s'.producers[p]);
    if |s'.tasks| != |s.tasks| {
      Distribute(TaskWeight(np), |s.tasks|);
    } else if s.producers[p].PSizeTasks? {
      WakeWorkersWeight(np, s.workers);
    }
  }

  lemma StopStepDecreases(s: Pool)
    requires StopEnabled(s)
    ensures Measure(StopNext(s)) < Measure(s)
  {
    WakeWorkersWeight(|s.producers|, s.workers);
  }

  /** The pool's own steps; the others are calls from outside and spurious wakeups. */
  predicate Internal(step: Step) {
    step.WorkerStep? || step.ProducerStep? || step.StopStep?
  }

  /** The most that one outside step can add. */
  function OutsideCost(s: Pool): nat {
    9 + SubmitWeight(|s.workers|, |s.producers|)
  }

  lemma OutsideStepCost(s: Pool, step: Step)
    requires Enabled(s, step) && !Internal(step)
    ensures Measure(Apply(s, step)) <= Measure(s) + OutsideCost(s)
  {
    match step
    case SpuriousWorker(i) => SetWorkerWeight(|s.producers|, s.workers, i, WWoken);
    case SpuriousProducer(p) =>
      SetProducerWeight(|s.workers|, |s.producers|, s.producers, p, PWoken(s.producers[p].task));
    case Call(p, task, blocking) =>
      SetProducerWeight(|s.workers|, |s.producers|, s.producers, p, PLockFree(task, blocking));
    case _ =>
  }

  function CountInternal(steps: seq<Step>): nat {
    if steps == [] then 0 else (if Internal(steps[0]) then 1 else 0) + CountInternal(steps[1..])
  }

  lemma StepKeepsThreads(s: Pool, step: Step)
    requires Enabled(s, step)
    ensures |Apply(s, step).workers| == |s.workers| && |Apply(s, step).producers| == |s.producers|
  {
    match step
    case WorkerStep(i) => WorkerStepMoves(s, i);
    case ProducerStep(p) => ProducerStepWeight(s, p);
    case _ =>
  }

  /** One step, weighed. */
  lemma StepIsWeighed(s: Pool, step: Step)
    requires Enabled(s, step)
    ensures Internal(step) ==> Measure(Apply(s, step)) + 1 <= Measure(s)
    ensures !Internal(step) ==> Measure(Apply(s, step)) <= Measure(s) + OutsideCost(s)
  {
    match step
    case WorkerStep(i) => WorkerStepDecreases(s, i);
    case ProducerStep(p) => ProducerStepDecreases(s, p);
    case StopStep => StopStepDecreases(s);
    case _ => OutsideStepCost(s, step);
  }

  /** In any run the pool's own steps are bounded by the work at the start plus a fixed amount
      for every call and every spurious wakeup. */
  lemma {:induction false} WorkIsBounded(s: Pool, steps: seq<Step>)
    requires IsRun(s, steps)
    ensures CountInternal(steps) + Measure(After(s, steps)) <=
            Measure(s) + OutsideCost(s) * (|steps| - CountInternal(steps))
    ensures CountInternal(steps) <= |steps|
    decreases |steps|
  {
    if steps != [] {
      var s' := Apply(s, steps[0]);
      StepKeepsThreads(s, steps[0]);
      WorkIsBounded(s', steps[1..]);
      StepIsWeighed(s, steps[0]);
      Distribute(OutsideCost(s), |steps[1..]| - CountInternal(steps[1..]));
    }
  }

  lemma Distribute(c: nat, n: nat)
    ensures c * (n + 1) == c * n + c
  {
  }

  /** Left alone, the pool comes to rest: from every reachable state its own steps lead, after
      at most Measure(s) of them, to a state where nothing moves. */
  lemma {:induction false} ComesToRest(s: Pool) returns (steps: seq<Step>)
    requires Good(s)
    ensures IsRun(s, steps) && |steps| <= Measure(s)
    ensures forall step | step in steps :: Internal(step)
    ensures Good(After(s, steps)) && Quiescent(After(s, steps))
    ensures s.stop ==> After(s, steps).stop
    decreases Measure(s)
  {
    if i: nat :| WorkerEnabled(s, i) {
      steps := OneMore(s, WorkerStep(i));
    } else if p: nat :| ProducerEnabled(s, p) {
      steps := OneMore(s, ProducerStep(p));
    } else if s.stopper != SIdle && StopEnabled(s) {
      steps := OneMore(s, StopStep);
    } else {
      steps := [];
    }
  }

  lemma {:induction false} OneMore(s: Pool, step: Step) returns (steps: seq<Step>)
    requires Good(s) && Enabled(s, step) && Internal(step)
    ensures IsRun(s, steps) && |steps| <= Measure(s)
    ensures forall step | step in steps :: Internal(step)
    ensures Good(After(s, steps)) && Quiescent(After(s, steps))
    ensures s.stop ==> After(s, steps).stop
    decreases Measure(s), 0
  {
    var s' := Apply(s, step);
    InternalStep(s, step);
    StepKeepsGood(s, step);
    var rest := ComesToRest(s');
    steps := [step] + rest;
    assert steps[1..] == rest;
  }

  // ---------- after a stop request ----------

  /** The callbacks a worker may still begin once the flag is up: it holds a task, or it has
      read the flag for the last time and is about to take one. */
  function Pending(w: WorkerPc): nat {
    if WorkerJob(w).Some? || w.WTake? then 1 else 0
  }

  /** The callbacks that worker `i` begins during a run. */
  function Begins(s: Pool, steps: seq<Step>, i: nat): nat
    requires IsRun(s, steps)
    decreases |steps|
  {
    if steps == [] then 0
    else (if steps[0] == WorkerStep(i) && s.workers[i].WStart? &&
             Slot(s, s.workers[i].job.slot).routine != 0 then 1 else 0)
         + Begins(Apply(s, steps[0]), steps[1..], i)
  }

  lemma StopStays(s: Pool, step: Step, i: nat)
    requires s.stop && Enabled(s, step) && i < |s.workers|
    ensures var s' := Apply(s, step);
            && s'.stop && i < |s'.workers|
            && (step == WorkerStep(i) && s.workers[i].WStart? ==> Pending(s'.workers[i]) == 0)
            && Pending(s'.workers[i]) <= Pending(s.workers[i])
  {
    match step
    case WorkerStep(j) =>
      WorkerStepFrame(s, j);
      WorkerStepWeight(s, j);
    case ProducerStep(p) => ProducerStepFrame(s, p);
    case _ =>
  }

  /** From the moment the flag is set, each worker begins at most one more callback, and only
      if it holds a task already or has passed its last test of the flag. */
  lemma {:induction false} AtMostOneMoreCallback(s: Pool, steps: seq<Step>, i: nat)
    requires s.stop && IsRun(s, steps) && i < |s.workers|
    ensures Begins(s, steps, i) <= Pending(s.workers[i]) <= 1
    decreases |steps|
  {
    if steps != [] {
      StopStays(s, steps[0], i);
      AtMostOneMoreCallback(Apply(s, steps[0]), steps[1..], i);
    }
  }

  /** Once the stopper has broadcast, no worker is ever asleep again. */
  lemma {:induction false} NoSleepAfterBroadcast(s: Pool, steps: seq<Step>)
    requires Good(s) && PastBroadcast(s.stopper) && IsRun(s, steps)
    ensures NoWorkerAsleep(After(s, steps).workers) && PastBroadcast(After(s, steps).stopper)
    decreases |steps|
  {
    if steps != [] {
      StepKeepsGood(s, steps[0]);
      BroadcastStays(s, steps[0]);
      NoSleepAfterBroadcast(Apply(s, steps[0]), steps[1..]);
    } else {
      assert forall i | 0 <= i < |s.workers| :: WorkerLocal(s.workers[i], s.tasks == [], s.stop, s.stopper);
    }
  }

  lemma BroadcastStays(s: Pool, step: Step)
    requires Enabled(s, step) && PastBroadcast(s.stopper)
    ensures PastBroadcast(Apply(s, step).stopper)
  {
    match step
    case WorkerStep(i) => WorkerStepFrame(s, i);
    case ProducerStep(p) => ProducerStepFrame(s, p);
    case _ =>
  }

  function CountWorkerSteps(steps: seq<Step>): nat {
    if steps == [] then 0 else (if steps[0].WorkerStep? then 1 else 0) + CountWorkerSteps(steps[1..])
  }

  /** After the broadcast the steps of other threads no longer reach the workers. */
  lemma WorkersUndisturbed(s: Pool, step: Step)
    requires Inv(s) && PastBroadcast(s.stopper) && Enabled(s, step) && !step.WorkerStep?
    ensures Apply(s, step).workers == s.workers
  {
    assert forall i | 0 <= i < |s.workers| :: WorkerLocal(s.workers[i], s.tasks == [], s.stop, s.stopper);
    assert WakeWorkers(s.workers) == s.workers;
    if step.ProducerStep? {
      ProducerStepFrame(s, step.p);
    }
  }

  lemma WorkerWindsDown(s: Pool, i: nat)
    requires WorkerEnabled(s, i) && s.stop && !s.workers[i].WTake?
    ensures var s' := WorkerNext(s, i);
            && s'.workers == s.workers[i := s'.workers[i]]
            && WorkerWeight(0, s'.workers[i]) < WorkerWeight(0, s.workers[i])
  {
  }

  /** Whatever the producers and callers do, the workers together take at most
      Workers(0, s.workers) more steps after the broadcast: at most 13 each. */
  lemma {:induction false} WorkersWindDown(s: Pool, steps: seq<Step>)
    requires Good(s) && PastBroadcast(s.stopper) && IsRun(s, steps)
    ensures CountWorkerSteps(steps) + Workers(0, After(s, steps).workers) <= Workers(0, s.workers) <= 13 * |s.workers|
    decreases |steps|
  {
    WindDownBound(s.workers);
    if steps != [] {
      StepKeepsGood(s, steps[0]);
      BroadcastStays(s, steps[0]);
      WorkersWindDown(Apply(s, steps[0]), steps[1..]);
      if steps[0].WorkerStep? {
        WorkerWindsDown(s, steps[0].i);
        SetWorkerWeight(0, s.workers, steps[0].i, Apply(s, steps[0]).workers[steps[0].i]);
      } else {
        WorkersUndisturbed(s, steps[0]);
      }
    }
  }

  lemma {:induction false} WindDownBound(ws: seq<WorkerPc>)
    ensures Workers(0, ws) <= 13 * |ws|
  {
    if ws != [] {
      WindDownBound(ws[1..]);
    }
  }

  /** While some worker is still alive after the broadcast, a worker can move, or the owner of
      a mutex, who can move and is on its way to giving the mutex back. */
  lemma SomebodyMoves(s: Pool, i: nat)
    requires Reachable(s) && PastBroadcast(s.stopper) && i < |s.workers| && s.workers[i] != WExited
    ensures || (exists j: nat :: WorkerEnabled(s, j))
            || (exists p: nat ::
                  ProducerEnabled(s, p) && (ProducerHasTasks(s.producers[p]) || ProducerHasFree(s.producers[p])))
            || (s.stopper == SUnlock && StopEnabled(s))
  {
    ReachableIsGood(s);
    assert WorkerLocal(s.workers[i], s.tasks == [], s.stop, s.stopper);
    if !WorkerEnabled(s, i) {
      var owner := if s.workers[i].WLockFree? then s.freeMutex.value else s.mutex.value;
      match owner
      case Worker(j) => assert WorkerEnabled(s, j);
      case Producer(p) => assert ProducerEnabled(s, p);
      case Stopper =>
    }
  }

  lemma InternalStep(s: Pool, step: Step)
    requires Enabled(s, step) && Internal(step)
    ensures Measure(Apply(s, step)) < Measure(s)
    ensures s.stop ==> Apply(s, step).stop
  {
    match step
    case WorkerStep(i) => WorkerStepDecreases(s, i); WorkerStepFrame(s, i);
    case ProducerStep(p) => ProducerStepDecreases(s, p); ProducerStepFrame(s, p);
    case _ => StopStepDecreases(s);
  }

  lemma {:induction false} FlagStaysUp(s: Pool, steps: seq<Step>)
    requires s.stop && IsRun(s, steps)
    ensures After(s, steps).stop
    decreases |steps|
  {
    if steps != [] {
      StepKeepsFlag(s, steps[0]);
      FlagStaysUp(Apply(s, steps[0]), steps[1..]);
    }
  }

  lemma StepKeepsFlag(s: Pool, step: Step)
    requires s.stop && Enabled(s, step)
    ensures Apply(s, step).stop
  {
    match step
    case WorkerStep(i) => WorkerStepFrame(s, i);
    case ProducerStep(p) => ProducerStepFrame(s, p);
    case _ =>
  }

  /** A requested stop completes, whatever the schedule: in every run with the flag up the
      pool's own steps are bounded by the work at hand plus a fixed amount for every further
      call and every spurious wakeup, and where the pool can take no more of them every worker
      has exited and every join has returned. */
  lemma StopIsInevitable(s: Pool, steps: seq<Step>)
    requires Reachable(s) && s.stop && IsRun(s, steps)
    ensures CountInternal(steps) <= Measure(s) + OutsideCost(s) * (|steps| - CountInternal(steps))
    ensures Quiescent(After(s, steps)) ==>
              && After(s, steps).stopper == SDone
              && forall i | 0 <= i < |After(s, steps).workers| :: After(s, steps).workers[i] == WExited
  {
    ReachableIsGood(s);
    RunKeepsGood(s, steps);
    WorkIsBounded(s, steps);
    FlagStaysUp(s, steps);
    if Quiescent(After(s, steps)) {
      QuiescentMeansStopped(After(s, steps));
    }
  }

  /** Such a schedule exists. */
  lemma StopCompletes(s: Pool) returns (steps: seq<Step>)
    requires Reachable(s) && s.stop
    ensures IsRun(s, steps) && forall step | step in steps :: Internal(step)
    ensures After(s, steps).stopper == SDone
  {
    ReachableIsGood(s);
    steps := ComesToRest(s);
    QuiescentMeansStopped(After(s, steps));
  }
}
