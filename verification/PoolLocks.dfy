/** Mutual exclusion in the thread pool: the two mutexes have the owner they say they have. */
module PoolLocks {
  import opened Collections
  import opened RingQueue
  import opened ThreadPool

  predicate WorkerHasTasks(w: WorkerPc) {
    w.WTest? || w.WGoSleep? || w.WCheck? || w.WTake? || w.WUnlockTasks?
  }

  predicate WorkerHasFree(w: WorkerPc) {
    w.WPutFree? || w.WSizeFree? || w.WUnlockFree?
  }

  predicate ProducerHasFree(p: ProducerPc) {
    p.PTestFree? || p.PGiveUp? || p.PUnlockFree?
  }

  predicate ProducerHasTasks(p: ProducerPc) {
    p.PPutTask? || p.PSizeTasks? || p.PUnlockTasks?
  }

  /** Exactly the recorded owner of `mutex` is between its lock and its unlock. */
  ghost predicate TasksLockOk(ws: seq<WorkerPc>, ps: seq<ProducerPc>, st: StopperPc, mutex: Option<Thread>) {
    && (forall i | 0 <= i < |ws| :: WorkerHasTasks(ws[i]) <==> mutex == Some(Worker(i)))
    && (forall p | 0 <= p < |ps| :: ProducerHasTasks(ps[p]) <==> mutex == Some(Producer(p)))
    && (st.SBroadcast? || st.SUnlock? <==> mutex == Some(Stopper))
    && InRange(ws, ps, mutex)
  }

  /** The same for `free_tasks_mutex`, which the stopper never takes. */
  ghost predicate FreeLockOk(ws: seq<WorkerPc>, ps: seq<ProducerPc>, mutex: Option<Thread>) {
    && (forall i | 0 <= i < |ws| :: WorkerHasFree(ws[i]) <==> mutex == Some(Worker(i)))
    && (forall p | 0 <= p < |ps| :: ProducerHasFree(ps[p]) <==> mutex == Some(Producer(p)))
    && mutex != Some(Stopper) && InRange(ws, ps, mutex)
  }

  predicate InRange(ws: seq<WorkerPc>, ps: seq<ProducerPc>, owner: Option<Thread>) {
    match owner
    case Some(Worker(i)) => i < |ws|
    case Some(Producer(p)) => p < |ps|
    case _ => true
  }

  ghost predicate LocksOk(s: Pool) {
    && TasksLockOk(s.workers, s.producers, s.stopper, s.mutex)
    && FreeLockOk(s.workers, s.producers, s.freeMutex)
  }

  /** A thread's mutex stays, is taken when free, or is given back by its owner. */
  predicate Moves(who: Thread, held: bool, holds: bool, before: Option<Thread>, after: Option<Thread>) {
    || (before == after && held == holds)
    || (before.None? && after == Some(who) && holds)
    || (held && after.None? && !holds)
  }

  lemma WorkerMoves(ws: seq<WorkerPc>, ps: seq<ProducerPc>, st: StopperPc, m: Option<Thread>, f: Option<Thread>,
                    i: nat, w: WorkerPc, m': Option<Thread>, f': Option<Thread>)
    requires TasksLockOk(ws, ps, st, m) && FreeLockOk(ws, ps, f) && i < |ws|
    requires Moves(Worker(i), WorkerHasTasks(ws[i]), WorkerHasTasks(w), m, m')
    requires Moves(Worker(i), WorkerHasFree(ws[i]), WorkerHasFree(w), f, f')
    ensures TasksLockOk(ws[i := w], ps, st, m') && FreeLockOk(ws[i := w], ps, f')
  {
  }

  lemma ProducerMoves(ws: seq<WorkerPc>, ps: seq<ProducerPc>, st: StopperPc, m: Option<Thread>, f: Option<Thread>,
                      p: nat, pc: ProducerPc, m': Option<Thread>, f': Option<Thread>)
    requires TasksLockOk(ws, ps, st, m) && FreeLockOk(ws, ps, f) && p < |ps|
    requires Moves(Producer(p), ProducerHasTasks(ps[p]), ProducerHasTasks(pc), m, m')
    requires Moves(Producer(p), ProducerHasFree(ps[p]), ProducerHasFree(pc), f, f')
    ensures TasksLockOk(ws, ps[p := pc], st, m') && FreeLockOk(ws, ps[p := pc], f')
  {
  }

  lemma BroadcastKeepsLocks(ws: seq<WorkerPc>, ps: seq<ProducerPc>, st: StopperPc, m: Option<Thread>, f: Option<Thread>)
    requires TasksLockOk(ws, ps, st, m) && FreeLockOk(ws, ps, f)
    ensures TasksLockOk(WakeWorkers(ws), ps, st, m) && FreeLockOk(WakeWorkers(ws), ps, f)
    ensures TasksLockOk(ws, WakeProducers(ps), st, m) && FreeLockOk(ws, WakeProducers(ps), f)
  {
  }

  lemma WorkerMovesTasksLock(s: Pool, i: nat)
    requires WorkerEnabled(s, i) && (WorkerHasTasks(s.workers[i]) <==> s.mutex == Some(Worker(i)))
    ensures var s' := WorkerNext(s, i);
            i < |s'.workers| && Moves(Worker(i), WorkerHasTasks(s.workers[i]), WorkerHasTasks(s'.workers[i]), s.mutex,
                                      s'.mutex)
  {
  }

  lemma WorkerMovesFreeLock(s: Pool, i: nat)
    requires WorkerEnabled(s, i) && (WorkerHasFree(s.workers[i]) <==> s.freeMutex == Some(Worker(i)))
    ensures var s' := WorkerNext(s, i);
            i < |s'.workers| && Moves(Worker(i), WorkerHasFree(s.workers[i]), WorkerHasFree(s'.workers[i]),
                                      s.freeMutex, s'.freeMutex)
  {
  }

  lemma WorkerMovesAlone(s: Pool, i: nat)
    requires WorkerEnabled(s, i)
    ensures var s' := WorkerNext(s, i);
            && i < |s'.workers| && s'.workers == s.workers[i := s'.workers[i]]
            && (s'.producers == s.producers || s'.producers == WakeProducers(s.producers))
            && s'.stopper == s.stopper
  {
  }

  lemma WorkerStepMoves(s: Pool, i: nat)
    requires WorkerEnabled(s, i)
    requires WorkerHasTasks(s.workers[i]) <==> s.mutex == Some(Worker(i))
    requires WorkerHasFree(s.workers[i]) <==> s.freeMutex == Some(Worker(i))
    ensures var s' := WorkerNext(s, i);
            && s'.workers == s.workers[i := s'.workers[i]]
            && Moves(Worker(i), WorkerHasTasks(s.workers[i]), WorkerHasTasks(s'.workers[i]), s.mutex, s'.mutex)
            && Moves(Worker(i), WorkerHasFree(s.workers[i]), WorkerHasFree(s'.workers[i]), s.freeMutex, s'.freeMutex)
            && (s'.producers == s.producers || s'.producers == WakeProducers(s.producers))
            && s'.stopper == s.stopper
  {
    WorkerMovesAlone(s, i);
    WorkerMovesTasksLock(s, i);
    WorkerMovesFreeLock(s, i);
  }

  lemma ProducerMovesTasksLock(s: Pool, p: nat)
    requires ProducerEnabled(s, p) && (ProducerHasTasks(s.producers[p]) <==> s.mutex == Some(Producer(p)))
    ensures var s' := ProducerNext(s, p);
            p < |s'.producers| && Moves(Producer(p), ProducerHasTasks(s.producers[p]),
                                        ProducerHasTasks(s'.producers[p]), s.mutex, s'.mutex)
  {
  }

  lemma ProducerMovesFreeLock(s: Pool, p: nat)
    requires ProducerEnabled(s, p) && (ProducerHasFree(s.producers[p]) <==> s.freeMutex == Some(Producer(p)))
    ensures var s' := ProducerNext(s, p);
            p < |s'.producers| && Moves(Producer(p), ProducerHasFree(s.producers[p]),
                                        ProducerHasFree(s'.producers[p]), s.freeMutex, s'.freeMutex)
  {
  }

  lemma ProducerMovesAlone(s: Pool, p: nat)
    requires ProducerEnabled(s, p)
    ensures var s' := ProducerNext(s, p);
            && p < |s'.producers| && s'.producers == s.producers[p := s'.producers[p]]
            && (s'.workers == s.workers || s'.workers == WakeWorkers(s.workers))
            && s'.stopper == s.stopper
  {
  }

  lemma ProducerStepMoves(s: Pool, p: nat)
    requires ProducerEnabled(s, p)
    requires ProducerHasTasks(s.producers[p]) <==> s.mutex == Some(Producer(p))
    requires ProducerHasFree(s.producers[p]) <==> s.freeMutex == Some(Producer(p))
    ensures var s' := ProducerNext(s, p);
            && s'.producers == s.producers[p := s'.producers[p]]
            && Moves(Producer(p), ProducerHasTasks(s.producers[p]), ProducerHasTasks(s'.producers[p]), s.mutex,
                     s'.mutex)
            && Moves(Producer(p), ProducerHasFree(s.producers[p]), ProducerHasFree(s'.producers[p]), s.freeMutex,
                     s'.freeMutex)
            && (s'.workers == s.workers || s'.workers == WakeWorkers(s.workers))
            && s'.stopper == s.stopper
  {
    ProducerMovesAlone(s, p);
    ProducerMovesTasksLock(s, p);
    ProducerMovesFreeLock(s, p);
  }

  lemma WorkerKeepsLocks(s: Pool, i: nat)
    requires LocksOk(s) && WorkerEnabled(s, i)
    ensures LocksOk(WorkerNext(s, i))
  {
    var s' := WorkerNext(s, i);
    WorkerStepMoves(s, i);
    WorkerMoves(s.workers, s.producers, s.stopper, s.mutex, s.freeMutex, i, s'.workers[i], s'.mutex, s'.freeMutex);
    BroadcastKeepsLocks(s'.workers, s.producers, s.stopper, s'.mutex, s'.freeMutex);
  }

  lemma ProducerKeepsLocks(s: Pool, p: nat)
    requires LocksOk(s) && ProducerEnabled(s, p)
    ensures LocksOk(ProducerNext(s, p))
  {
    var s' := ProducerNext(s, p);
    ProducerStepMoves(s, p);
    ProducerMoves(s.workers, s.producers, s.stopper, s.mutex, s.freeMutex, p, s'.producers[p], s'.mutex, s'.freeMutex);
    BroadcastKeepsLocks(s.workers, s'.producers, s.stopper, s'.mutex, s'.freeMutex);
  }

  lemma StopKeepsLocks(s: Pool)
    requires LocksOk(s) && StopEnabled(s)
    ensures LocksOk(StopNext(s))
  {
    BroadcastKeepsLocks(s.workers, s.producers, s.stopper, s.mutex, s.freeMutex);
  }

  lemma StepKeepsLocks(s: Pool, step: Step)
    requires LocksOk(s) && Enabled(s, step)
    ensures LocksOk(Apply(s, step))
  {
    match step
    case WorkerStep(i) => WorkerKeepsLocks(s, i);
    case ProducerStep(p) => ProducerKeepsLocks(s, p);
    case StopStep => StopKeepsLocks(s);
    case _ =>
  }
}
