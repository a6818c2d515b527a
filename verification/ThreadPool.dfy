/** The thread pool (src/threadpool.c) as a state machine: any number of workers and
    producers and one stopper, interleaved one atomic step at a time. A step is a lock, an
    unlock, falling asleep on a condition variable (which releases the mutex), waking up,
    a queue operation under a mutex, or a read or write of the stop flag. */
module ThreadPool {
  import opened Collections
  import opened RingQueue

  /** What a slot holds: the addresses of a routine and of its data; 0 is NULL. */
  datatype Task = Task(routine: nat, data: nat)

  const BLANK := Task(0, 0)

  /** A dequeued slot, with the position of its task in the order of submission. */
  datatype Job = Job(slot: nat, ticket: nat)

  datatype Thread = Worker(i: nat) | Producer(p: nat) | Stopper

  /** worker_thr_routine and threadpool_task_get_task */
  datatype WorkerPc =
    | WTop                          // about to read the stop flag (203)
    | WLockTasks                    // 209
    | WTest                         // the while condition (214), mutex held
    | WGoSleep                      // about to wait (216), mutex held
    | WAsleep                       // on cond, not signalled
    | WWoken                        // signalled, waiting for the mutex
    | WCheck                        // about to read the stop flag again (226), mutex held
    | WTake                         // the flag was clear; 234, mutex held
    | WUnlockTasks(got: Option<Job>)  // 228 or 239, mutex held
    | WStart(job: Job)              // 274
    | WRunning(slot: nat)           // inside the callback (275)
    | WLockFree(slot: nat)          // slot blanked (278), 279
    | WPutFree(slot: nat)           // 285, free_tasks_mutex held
    | WSizeFree                     // 295, free_tasks_mutex held
    | WUnlockFree(ok: bool)         // 287 or 307, free_tasks_mutex held
    | WExited

  /** threadpool_add_task */
  datatype ProducerPc =
    | PIdle
    | PLockFree(task: Task, blocking: bool)    // 444
    | PTestFree(task: Task, blocking: bool)    // 450, free_tasks_mutex held
    | PGiveUp(code: int)                       // 453 or 475, free_tasks_mutex held
    | PAsleep(task: Task)                      // on free_tasks_cond, not signalled
    | PWoken(task: Task)
    | PUnlockFree(task: Task, slot: nat)       // 482, free_tasks_mutex held
    | PFill(task: Task, slot: nat)             // 487
    | PLockTasks(task: Task, slot: nat)        // 491
    | PPutTask(task: Task, slot: nat)          // 496, mutex held
    | PSizeTasks                               // 504, mutex held
    | PUnlockTasks(code: int)                  // 498 or 516, mutex held

  /** stop_worker_thr_routines_cb */
  datatype StopperPc =
    | SIdle
    | SLock                         // flag written (333), 336
    | SBroadcast                    // 343, mutex held
    | SUnlock                       // 350, mutex held
    | SJoin(next: nat)              // 358
    | SDone

  // Auxiliary record keeping; no step reads it.

  /** Where a slot is. */
  datatype Place = InFree | InTasks | WithWorker(i: nat) | WithProducer(p: nat) | Lost

  /** What became of a dequeued task. */
  datatype Fate = Held(i: nat) | Begun(task: Task) | Dropped

  /** The start of a callback. */
  datatype Begin = Begin(ticket: nat, task: Task)

  datatype Pool = Pool(
    slots: seq<Task>,
    free: seq<nat>,
    tasks: seq<nat>,
    freeMutex: Option<Thread>,
    mutex: Option<Thread>,
    stop: bool,
    workers: seq<WorkerPc>,
    producers: seq<ProducerPc>,
    stopper: StopperPc,
    // auxiliary
    place: seq<Place>,
    submitted: seq<Task>,
    fate: seq<Fate>,
    begun: seq<Begin>)

  /** The state threadpool_init leaves behind. */
  predicate Init(s: Pool) {
    && 0 < |s.slots|
    && s.slots == seq(|s.slots|, _ => BLANK)
    && s.free == seq(|s.slots|, i => i)
    && s.tasks == []
    && s.freeMutex.None? && s.mutex.None? && !s.stop
    && s.workers == seq(|s.workers|, _ => WTop)
    && s.producers == seq(|s.producers|, _ => PIdle)
    && s.stopper == SIdle
    && s.place == seq(|s.slots|, _ => InFree)
    && s.submitted == [] && s.fate == [] && s.begun == []
  }

  // ---------- steps ----------

  datatype Step =
    | WorkerStep(i: nat)
    | SpuriousWorker(i: nat)
    | ProducerStep(p: nat)
    | SpuriousProducer(p: nat)
    | Call(p: nat, task: Task, blocking: bool)   // threadpool_add_task is called
    | StopStep

  function WakeWorker(w: WorkerPc): WorkerPc {
    if w == WAsleep then WWoken else w
  }

  function WakeProducer(p: ProducerPc): ProducerPc {
    if p.PAsleep? then PWoken(p.task) else p
  }

  /** pthread_cond_broadcast on cond and on free_tasks_cond */
  function WakeWorkers(ws: seq<WorkerPc>): seq<WorkerPc> {
    seq(|ws|, i requires 0 <= i < |ws| => WakeWorker(ws[i]))
  }

  function WakeProducers(ps: seq<ProducerPc>): seq<ProducerPc> {
    seq(|ps|, i requires 0 <= i < |ps| => WakeProducer(ps[i]))
  }

  /** Indexed write and read; indices are in range in every reachable state. */
  function Write<T>(xs: seq<T>, k: nat, x: T): seq<T> {
    if k < |xs| then xs[k := x] else xs
  }

  function Slot(s: Pool, k: nat): Task {
    if k < |s.slots| then s.slots[k] else BLANK
  }

  function SetWorker(s: Pool, i: nat, w: WorkerPc): Pool {
    s.(workers := Write(s.workers, i, w))
  }

  function SetProducer(s: Pool, p: nat, pc: ProducerPc): Pool {
    s.(producers := Write(s.producers, p, pc))
  }

  predicate WorkerEnabled(s: Pool, i: nat) {
    && i < |s.workers|
    && match s.workers[i]
       case WAsleep => false
       case WExited => false
       case WLockTasks => s.mutex.None?
       case WWoken => s.mutex.None?
       case WLockFree(_) => s.freeMutex.None?
       case _ => true
  }

  function WorkerNext(s: Pool, i: nat): Pool
    requires WorkerEnabled(s, i)
  {
    match s.workers[i]
    case WTop => SetWorker(s, i, if s.stop then WExited else WLockTasks)
    case WLockTasks => SetWorker(s, i, WTest).(mutex := Some(Worker(i)))
    case WTest => SetWorker(s, i, if s.tasks == [] && !s.stop then WGoSleep else WCheck)
    case WGoSleep => SetWorker(s, i, WAsleep).(mutex := None)
    case WWoken => SetWorker(s, i, WTest).(mutex := Some(Worker(i)))
    case WCheck => SetWorker(s, i, if s.stop then WUnlockTasks(None) else WTake)
    case WTake => WorkerTakes(s, i)
    case WUnlockTasks(got) =>
      SetWorker(s, i, if got.Some? then WStart(got.value) else WExited).(mutex := None)
    case WStart(job) => WorkerStarts(s, i, job)
    case WRunning(slot) => SetWorker(s, i, WLockFree(slot)).(slots := Write(s.slots, slot, BLANK))
    case WLockFree(slot) => SetWorker(s, i, WPutFree(slot)).(freeMutex := Some(Worker(i)))
    case WPutFree(slot) => WorkerReturns(s, i, slot)
    case WSizeFree =>
      SetWorker(s, i, WUnlockFree(true))
      .(producers := if |s.free| == 1 then WakeProducers(s.producers) else s.producers)
    case WUnlockFree(ok) => SetWorker(s, i, if ok then WTop else WExited).(freeMutex := None)
    case _ => s
  }

  function WorkerTakes(s: Pool, i: nat): Pool {
    var (x, q) := Take(s.tasks);
    match x
    case None => SetWorker(s, i, WUnlockTasks(None))
    case Some(slot) =>
      SetWorker(s, i, WUnlockTasks(Some(Job(slot, |s.fate|))))
      .(tasks := q, place := Write(s.place, slot, WithWorker(i)), fate := s.fate + [Held(i)])
  }

  /** A NULL routine is not called, and its slot is not returned to the free queue. */
  function WorkerStarts(s: Pool, i: nat, job: Job): Pool {
    var task := Slot(s, job.slot);
    if task.routine != 0 then
      SetWorker(s, i, WRunning(job.slot))
      .(fate := Write(s.fate, job.ticket, Begun(task)), begun := s.begun + [Begin(job.ticket, task)])
    else
      SetWorker(s, i, WTop)
      .(fate := Write(s.fate, job.ticket, Dropped), place := Write(s.place, job.slot, Lost))
  }

  function WorkerReturns(s: Pool, i: nat, slot: nat): Pool {
    var (ok, q) := Put(|s.slots|, s.free, slot);
    if ok then SetWorker(s, i, WSizeFree).(free := q, place := Write(s.place, slot, InFree))
    else SetWorker(s, i, WUnlockFree(false))
  }

  predicate ProducerEnabled(s: Pool, p: nat) {
    && p < |s.producers|
    && match s.producers[p]
       case PIdle => false
       case PAsleep(_) => false
       case PLockFree(_, _) => s.freeMutex.None?
       case PWoken(_) => s.freeMutex.None?
       case PLockTasks(_, _) => s.mutex.None?
       case _ => true
  }

  function ProducerNext(s: Pool, p: nat): Pool
    requires ProducerEnabled(s, p)
  {
    match s.producers[p]
    case PLockFree(task, blocking) => SetProducer(s, p, PTestFree(task, blocking)).(freeMutex := Some(Producer(p)))
    case PTestFree(task, blocking) =>
      if s.free == [] then
        if blocking then SetProducer(s, p, PAsleep(task)).(freeMutex := None)
        else SetProducer(s, p, PGiveUp(-2))
      else ProducerTakes(s, p, task)
    case PGiveUp(_) => SetProducer(s, p, PIdle).(freeMutex := None)
    case PWoken(task) => SetProducer(s, p, PTestFree(task, true)).(freeMutex := Some(Producer(p)))
    case PUnlockFree(task, slot) => SetProducer(s, p, PFill(task, slot)).(freeMutex := None)
    case PFill(task, slot) => SetProducer(s, p, PLockTasks(task, slot)).(slots := Write(s.slots, slot, task))
    case PLockTasks(task, slot) => SetProducer(s, p, PPutTask(task, slot)).(mutex := Some(Producer(p)))
    case PPutTask(task, slot) => ProducerSubmits(s, p, task, slot)
    case PSizeTasks =>
      SetProducer(s, p, PUnlockTasks(0))
      .(workers := if |s.tasks| == 1 then WakeWorkers(s.workers) else s.workers)
    case PUnlockTasks(_) => SetProducer(s, p, PIdle).(mutex := None)
    case _ => s
  }

  function ProducerTakes(s: Pool, p: nat, task: Task): Pool {
    var (x, q) := Take(s.free);
    match x
    case None => SetProducer(s, p, PGiveUp(-1))
    case Some(slot) =>
      SetProducer(s, p, PUnlockFree(task, slot))
      .(free := q, place := Write(s.place, slot, WithProducer(p)))
  }

  function ProducerSubmits(s: Pool, p: nat, task: Task, slot: nat): Pool {
    var (ok, q) := Put(|s.slots|, s.tasks, slot);
    if ok then
      SetProducer(s, p, PSizeTasks)
      .(tasks := q, place := Write(s.place, slot, InTasks), submitted := s.submitted + [task])
    else SetProducer(s, p, PUnlockTasks(-1))
  }

  predicate StopEnabled(s: Pool) {
    match s.stopper
    case SLock => s.mutex.None?
    case SJoin(k) => k < |s.workers| ==> s.workers[k] == WExited
    case SDone => false
    case _ => true
  }

  function StopNext(s: Pool): Pool
    requires StopEnabled(s)
  {
    match s.stopper
    case SIdle => s.(stopper := SLock, stop := true)
    case SLock => s.(stopper := SBroadcast, mutex := Some(Stopper))
    case SBroadcast => s.(stopper := SUnlock, workers := WakeWorkers(s.workers))
    case SUnlock => s.(stopper := SJoin(0), mutex := None)
    case SJoin(k) => s.(stopper := if k < |s.workers| then SJoin(k + 1) else SDone)
    case _ => s
  }

  predicate Enabled(s: Pool, step: Step) {
    match step
    case WorkerStep(i) => WorkerEnabled(s, i)
    case SpuriousWorker(i) => i < |s.workers| && s.workers[i] == WAsleep
    case ProducerStep(p) => ProducerEnabled(s, p)
    case SpuriousProducer(p) => p < |s.producers| && s.producers[p].PAsleep?
    case Call(p, _, _) => p < |s.producers| && s.producers[p] == PIdle
    case StopStep => StopEnabled(s)
  }

  function Apply(s: Pool, step: Step): Pool
    requires Enabled(s, step)
  {
    match step
    case WorkerStep(i) => WorkerNext(s, i)
    case SpuriousWorker(i) => SetWorker(s, i, WWoken)
    case ProducerStep(p) => ProducerNext(s, p)
    case SpuriousProducer(p) => SetProducer(s, p, PWoken(s.producers[p].task))
    case Call(p, task, blocking) => SetProducer(s, p, PLockFree(task, blocking))
    case StopStep => StopNext(s)
  }

  /** A run: the steps in order, each enabled when it is taken. */
  predicate IsRun(s: Pool, steps: seq<Step>)
    decreases |steps|
  {
    steps == [] || (Enabled(s, steps[0]) && IsRun(Apply(s, steps[0]), steps[1..]))
  }

  function After(s: Pool, steps: seq<Step>): Pool
    requires IsRun(s, steps)
    decreases |steps|
  {
    if steps == [] then s else After(Apply(s, steps[0]), steps[1..])
  }

  ghost predicate Reachable(s: Pool) {
    exists s0: Pool, steps: seq<Step> :: Init(s0) && IsRun(s0, steps) && After(s0, steps) == s
  }
}
