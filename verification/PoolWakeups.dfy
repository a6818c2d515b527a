/** No lost wakeup and the stop protocol: who may be asleep, and when. */
module PoolWakeups {
  import opened Collections
  import opened RingQueue
  import opened ThreadPool
  import opened PoolLocks
  import opened PoolSlots

  /** The stopper holds or has held the mutex, so every worker that saw a clear flag sleeps. */
  predicate PastLock(st: StopperPc) {
    st.SBroadcast? || st.SUnlock? || st.SJoin? || st.SDone?
  }

  predicate PastBroadcast(st: StopperPc) {
    st.SUnlock? || st.SJoin? || st.SDone?
  }

  /** What a worker's position says about the flag and the tasks queue. In particular no
      worker ever takes one of the error exits. */
  predicate WorkerLocal(w: WorkerPc, empty: bool, stop: bool, st: StopperPc) {
    && (w.WGoSleep? ==> empty && !PastLock(st))
    && (w.WAsleep? ==> !PastBroadcast(st))
    && (w.WCheck? ==> !empty || stop)
    && (w.WTake? ==> !empty && !PastLock(st))
    && (w == WUnlockTasks(None) || w.WExited? ==> stop)
    && w != WUnlockFree(false)
  }

  /** threadpool_add_task returns 0, or -2 when it must not block. */
  predicate ProducerLocal(p: ProducerPc) {
    && (p.PGiveUp? ==> p.code == -2)
    && (p.PUnlockTasks? ==> p.code == 0)
  }

  /** The only time a sleeping worker and a queued task may coexist: the producer that made
      the queue non-empty is about to broadcast. */
  predicate TasksSignalDue(ps: seq<ProducerPc>, tasks: seq<nat>, mutex: Option<Thread>) {
    && |tasks| == 1
    && mutex.Some? && mutex.value.Producer? && mutex.value.p < |ps| && ps[mutex.value.p] == PSizeTasks
  }

  predicate FreeSignalDue(ws: seq<WorkerPc>, free: seq<nat>, mutex: Option<Thread>) {
    && |free| == 1
    && mutex.Some? && mutex.value.Worker? && mutex.value.i < |ws| && ws[mutex.value.i] == WSizeFree
  }

  ghost predicate WorkersOk(ws: seq<WorkerPc>, tasks: seq<nat>, stop: bool, st: StopperPc) {
    forall i | 0 <= i < |ws| :: WorkerLocal(ws[i], tasks == [], stop, st)
  }

  ghost predicate ProducersOk(ps: seq<ProducerPc>) {
    forall p | 0 <= p < |ps| :: ProducerLocal(ps[p])
  }

  ghost predicate NoWorkerAsleep(ws: seq<WorkerPc>) {
    forall i | 0 <= i < |ws| :: ws[i] != WAsleep
  }

  ghost predicate NoProducerAsleep(ps: seq<ProducerPc>) {
    forall p | 0 <= p < |ps| :: !ps[p].PAsleep?
  }

  ghost predicate WorkersWakeOk(ws: seq<WorkerPc>, ps: seq<ProducerPc>, tasks: seq<nat>, mutex: Option<Thread>) {
    NoWorkerAsleep(ws) || tasks == [] || TasksSignalDue(ps, tasks, mutex)
  }

  ghost predicate ProducersWakeOk(ws: seq<WorkerPc>, ps: seq<ProducerPc>, free: seq<nat>, mutex: Option<Thread>) {
    NoProducerAsleep(ps) || free == [] || FreeSignalDue(ws, free, mutex)
  }

  ghost predicate StopOk(ws: seq<WorkerPc>, stop: bool, st: StopperPc) {
    && (stop <==> st != SIdle)
    && (st.SJoin? ==> st.next <= |ws| && forall i | 0 <= i < st.next :: ws[i] == WExited)
    && (st.SDone? ==> forall i | 0 <= i < |ws| :: ws[i] == WExited)
  }

  ghost predicate WakeOk(s: Pool) {
    && WorkersOk(s.workers, s.tasks, s.stop, s.stopper)
    && ProducersOk(s.producers)
    && WorkersWakeOk(s.workers, s.producers, s.tasks, s.mutex)
    && ProducersWakeOk(s.workers, s.producers, s.free, s.freeMutex)
    && StopOk(s.workers, s.stop, s.stopper)
  }

  ghost predicate Inv(s: Pool) {
    LocksOk(s) && SlotsOk(s) && WakeOk(s)
  }

  // ---------- worker steps ----------

  /** The queues change only where the worker says so. */
  lemma WorkerStepFrame(s: Pool, i: nat)
    requires WorkerEnabled(s, i)
    ensures var s' := WorkerNext(s, i);
            && s'.stop == s.stop && s'.stopper == s.stopper
            && (s'.tasks == s.tasks || (s.workers[i].WTake? && s.tasks != []))
            && (s'.free == s.free || s.workers[i].WPutFree?)
            && s'.producers ==
               (if s.workers[i].WSizeFree? && |s.free| == 1 then WakeProducers(s.producers) else s.producers)
  {
  }

  lemma WorkerStepLocal(s: Pool, i: nat)
    requires WorkerEnabled(s, i) && SlotsOk(s) && (s.stop <==> s.stopper != SIdle)
    requires WorkerLocal(s.workers[i], s.tasks == [], s.stop, s.stopper)
    ensures var s' := WorkerNext(s, i);
            WorkerLocal(s'.workers[i], s'.tasks == [], s'.stop, s'.stopper)
  {
    if s.workers[i].WPutFree? {
      WorkerReturnsKeepsSlots(s, i);
    } else if s.workers[i].WTake? || s.workers[i].WStart? {
      WorkerStepLocalWithTask(s, i);
    } else {
      WorkerStepLocalElsewhere(s, i);
    }
  }

  lemma WorkerStepLocalWithTask(s: Pool, i: nat)
    requires WorkerEnabled(s, i) && (s.workers[i].WTake? || s.workers[i].WStart?)
    requires WorkerLocal(s.workers[i], s.tasks == [], s.stop, s.stopper)
    ensures var s' := WorkerNext(s, i);
            WorkerLocal(s'.workers[i], s'.tasks == [], s'.stop, s'.stopper)
  {
  }

  lemma WorkerStepLocalElsewhere(s: Pool, i: nat)
    requires WorkerEnabled(s, i) && (s.stop <==> s.stopper != SIdle)
    requires !s.workers[i].WPutFree? && !s.workers[i].WTake? && !s.workers[i].WStart?
    requires WorkerLocal(s.workers[i], s.tasks == [], s.stop, s.stopper)
    ensures var s' := WorkerNext(s, i);
            WorkerLocal(s'.workers[i], s'.tasks == [], s'.stop, s'.stopper)
  {
  }

  lemma SetWorkerOk(ws: seq<WorkerPc>, tasks: seq<nat>, stop: bool, st: StopperPc, i: nat, w: WorkerPc,
                    tasks': seq<nat>)
    requires WorkersOk(ws, tasks, stop, st) && i < |ws|
    requires WorkerLocal(w, tasks' == [], stop, st)
    requires tasks' == tasks || (forall j | 0 <= j < |ws| && j != i :: !WorkerHasTasks(ws[j]))
    ensures WorkersOk(ws[i := w], tasks', stop, st)
  {
  }

  lemma WorkerKeepsWorkersOk(s: Pool, i: nat)
    requires Inv(s) && WorkerEnabled(s, i)
    ensures var s' := WorkerNext(s, i); WorkersOk(s'.workers, s'.tasks, s'.stop, s'.stopper)
  {
    var s' := WorkerNext(s, i);
    WorkerStepMoves(s, i);
    WorkerStepFrame(s, i);
    WorkerStepLocal(s, i);
    SetWorkerOk(s.workers, s.tasks, s.stop, s.stopper, i, s'.workers[i], s'.tasks);
  }

  /** A worker falls asleep only on an empty queue. */
  lemma WorkerStepSleep(s: Pool, i: nat)
    requires WorkerEnabled(s, i) && WorkerLocal(s.workers[i], s.tasks == [], s.stop, s.stopper)
    ensures var s' := WorkerNext(s, i);
            && (s'.workers[i] == WAsleep ==> s.tasks == [] && s'.tasks == [])
            && (s'.workers[i] == WSizeFree ==> s.workers[i].WPutFree? && s'.free == s.free + [s.workers[i].slot])
            && (s'.free != s.free ==> s'.workers[i] == WSizeFree)
  {
  }

  lemma WorkerKeepsWorkersWakeOk(s: Pool, i: nat)
    requires Inv(s) && WorkerEnabled(s, i)
    ensures var s' := WorkerNext(s, i); WorkersWakeOk(s'.workers, s'.producers, s'.tasks, s'.mutex)
  {
    WorkerStepMoves(s, i);
    WorkerStepFrame(s, i);
    WorkerStepSleep(s, i);
    var s' := WorkerNext(s, i);
    if TasksSignalDue(s.producers, s.tasks, s.mutex) {
      assert TasksSignalDue(s'.producers, s'.tasks, s'.mutex);
    } else if s.tasks != [] {
      assert NoWorkerAsleep(s.workers) && NoWorkerAsleep(s'.workers);
    }
  }

  lemma WorkerKeepsProducersWakeOk(s: Pool, i: nat)
    requires Inv(s) && WorkerEnabled(s, i)
    ensures var s' := WorkerNext(s, i); ProducersWakeOk(s'.workers, s'.producers, s'.free, s'.freeMutex)
  {
    WorkerStepMoves(s, i);
    WorkerStepFrame(s, i);
    WorkerStepSleep(s, i);
    var s' := WorkerNext(s, i);
    if s.workers[i].WSizeFree? {
      assert s.freeMutex == Some(Worker(i));
      if |s.free| == 1 {
        assert NoProducerAsleep(s'.producers);
      }
    } else if FreeSignalDue(s.workers, s.free, s.freeMutex) {
      assert FreeSignalDue(s'.workers, s'.free, s'.freeMutex);
    }
  }

  lemma WorkerKeepsStopOk(s: Pool, i: nat)
    requires Inv(s) && WorkerEnabled(s, i)
    ensures var s' := WorkerNext(s, i); StopOk(s'.workers, s'.stop, s'.stopper)
  {
    WorkerStepMoves(s, i);
    WorkerStepFrame(s, i);
  }

  lemma WorkerKeepsWakeOk(s: Pool, i: nat)
    requires Inv(s) && WorkerEnabled(s, i)
    ensures WakeOk(WorkerNext(s, i))
  {
    WorkerKeepsWorkersOk(s, i);
    WorkerKeepsWorkersWakeOk(s, i);
    WorkerKeepsProducersWakeOk(s, i);
    WorkerKeepsStopOk(s, i);
    WorkerStepFrame(s, i);
  }

  // ---------- producer steps ----------

  lemma ProducerStepFrame(s: Pool, p: nat)
    requires ProducerEnabled(s, p)
    ensures var s' := ProducerNext(s, p);
            && s'.stop == s.stop && s'.stopper == s.stopper
            && (s'.free == s.free || (s.producers[p].PTestFree? && s.free != []))
            && (s'.tasks == s.tasks || s.producers[p].PPutTask?)
            && s'.workers ==
               (if s.producers[p].PSizeTasks? && |s.tasks| == 1 then WakeWorkers(s.workers) else s.workers)
  {
  }

  lemma ProducerStepLocal(s: Pool, p: nat)
    requires ProducerEnabled(s, p) && SlotsOk(s) && ProducerLocal(s.producers[p])
    ensures ProducerLocal(ProducerNext(s, p).producers[p])
  {
    if s.producers[p].PPutTask? {
      ProducerSubmitsKeepsSlots(s, p);
    }
  }

  lemma ProducerStepSleep(s: Pool, p: nat)
    requires ProducerEnabled(s, p)
    ensures var s' := ProducerNext(s, p);
            && (s'.producers[p].PAsleep? ==> s.free == [] && s'.free == [])
            && (s'.producers[p] == PSizeTasks ==>
                s.producers[p].PPutTask? && s'.tasks == s.tasks + [s.producers[p].slot])
            && (s'.tasks != s.tasks ==> s'.producers[p] == PSizeTasks)
  {
  }

  lemma ProducerKeepsWorkersOk(s: Pool, p: nat)
    requires Inv(s) && ProducerEnabled(s, p)
    ensures var s' := ProducerNext(s, p); WorkersOk(s'.workers, s'.tasks, s'.stop, s'.stopper)
    ensures ProducersOk(ProducerNext(s, p).producers)
  {
    ProducerStepFrame(s, p);
    ProducerStepMoves(s, p);
    ProducerStepLocal(s, p);
  }

  lemma ProducerKeepsWorkersWakeOk(s: Pool, p: nat)
    requires Inv(s) && ProducerEnabled(s, p)
    ensures var s' := ProducerNext(s, p); WorkersWakeOk(s'.workers, s'.producers, s'.tasks, s'.mutex)
  {
    ProducerStepMoves(s, p);
    ProducerStepFrame(s, p);
    ProducerStepSleep(s, p);
    var s' := ProducerNext(s, p);
    if s.producers[p].PSizeTasks? {
      assert s.mutex == Some(Producer(p));
      if |s.tasks| == 1 {
        assert NoWorkerAsleep(s'.workers);
      }
    } else if TasksSignalDue(s.producers, s.tasks, s.mutex) {
      assert TasksSignalDue(s'.producers, s'.tasks, s'.mutex);
    }
  }

  lemma ProducerKeepsProducersWakeOk(s: Pool, p: nat)
    requires Inv(s) && ProducerEnabled(s, p)
    ensures var s' := ProducerNext(s, p); ProducersWakeOk(s'.workers, s'.producers, s'.free, s'.freeMutex)
  {
    ProducerStepMoves(s, p);
    ProducerStepFrame(s, p);
    ProducerStepSleep(s, p);
    var s' := ProducerNext(s, p);
    if FreeSignalDue(s.workers, s.free, s.freeMutex) {
      assert FreeSignalDue(s'.workers, s'.free, s'.freeMutex);
    } else if s.free != [] {
      assert NoProducerAsleep(s.producers) && NoProducerAsleep(s'.producers);
    }
  }

  lemma ProducerKeepsStopOk(s: Pool, p: nat)
    requires Inv(s) && ProducerEnabled(s, p)
    ensures var s' := ProducerNext(s, p); StopOk(s'.workers, s'.stop, s'.stopper)
  {
    ProducerStepFrame(s, p);
  }

  lemma ProducerKeepsWakeOk(s: Pool, p: nat)
    requires Inv(s) && ProducerEnabled(s, p)
    ensures WakeOk(ProducerNext(s, p))
  {
    ProducerKeepsWorkersOk(s, p);
    ProducerKeepsWorkersWakeOk(s, p);
    ProducerKeepsProducersWakeOk(s, p);
    ProducerKeepsStopOk(s, p);
  }

  // ---------- the stopper and the environment ----------

  /** The flag goes up while workers may be anywhere. */
  lemma RaisedKeepsWakeOk(s: Pool)
    requires WakeOk(s) && s.stopper == SIdle
    ensures WakeOk(StopNext(s))
  {
  }

  /** Whoever holds the mutex now has seen that no worker is about to sleep or to take. */
  lemma LockedKeepsWakeOk(s: Pool)
    requires Inv(s) && s.stopper == SLock && StopEnabled(s)
    ensures WakeOk(StopNext(s))
  {
    assert forall i | 0 <= i < |s.workers| :: !WorkerHasTasks(s.workers[i]);
  }

  lemma BroadcastKeepsWakeOk(s: Pool)
    requires Inv(s) && s.stopper == SBroadcast
    ensures WakeOk(StopNext(s))
  {
    assert NoWorkerAsleep(StopNext(s).workers);
    assert !TasksSignalDue(s.producers, s.tasks, s.mutex);
  }

  lemma JoiningKeepsWakeOk(s: Pool)
    requires Inv(s) && (s.stopper.SUnlock? || s.stopper.SJoin?) && StopEnabled(s)
    ensures WakeOk(StopNext(s))
  {
    assert NoWorkerAsleep(s.workers);
  }

  lemma StopKeepsWakeOk(s: Pool)
    requires Inv(s) && StopEnabled(s)
    ensures WakeOk(StopNext(s))
  {
    match s.stopper
    case SIdle => RaisedKeepsWakeOk(s);
    case SLock => LockedKeepsWakeOk(s);
    case SBroadcast => BroadcastKeepsWakeOk(s);
    case _ => JoiningKeepsWakeOk(s);
  }

  lemma WorkerWakesUp(s: Pool, i: nat)
    requires Inv(s) && i < |s.workers| && s.workers[i] == WAsleep
    ensures WakeOk(SetWorker(s, i, WWoken))
  {
  }

  lemma ProducerMovesOutside(s: Pool, p: nat, pc: ProducerPc)
    requires Inv(s) && p < |s.producers| && (s.producers[p] == PIdle || s.producers[p].PAsleep?)
    requires pc.PWoken? || pc.PLockFree?
    ensures WakeOk(SetProducer(s, p, pc))
  {
  }

  lemma EnvironmentKeepsWakeOk(s: Pool, step: Step)
    requires Inv(s) && Enabled(s, step) && (step.SpuriousWorker? || step.SpuriousProducer? || step.Call?)
    ensures WakeOk(Apply(s, step))
  {
    match step
    case SpuriousWorker(i) => WorkerWakesUp(s, i);
    case SpuriousProducer(p) => ProducerMovesOutside(s, p, PWoken(s.producers[p].task));
    case Call(p, task, blocking) => ProducerMovesOutside(s, p, PLockFree(task, blocking));
  }

  lemma StepKeepsInv(s: Pool, step: Step)
    requires Inv(s) && Enabled(s, step)
    ensures Inv(Apply(s, step))
  {
    StepKeepsLocks(s, step);
    StepKeepsSlots(s, step);
    match step
    case WorkerStep(i) => WorkerKeepsWakeOk(s, i);
    case ProducerStep(p) => ProducerKeepsWakeOk(s, p);
    case StopStep => StopKeepsWakeOk(s);
    case _ => EnvironmentKeepsWakeOk(s, step);
  }
}
