/** Two runs of a pool with one worker and one slot: one loses the slot, in the other a callback
    begins after a stop was requested. */
module PoolExample {
  import opened Collections
  import opened ThreadPool
  import opened PoolSafety
  import opened PoolProgress
  import opened PoolCallbacks

  lemma {:induction false} RunSnoc(s: Pool, steps: seq<Step>, step: Step)
    requires IsRun(s, steps) && Enabled(After(s, steps), step)
    ensures IsRun(s, steps + [step]) && After(s, steps + [step]) == Apply(After(s, steps), step)
    decreases |steps|
  {
    if steps == [] {
      assert ([] + [step])[1..] == [];
    } else {
      assert (steps + [step])[1..] == steps[1..] + [step];
      RunSnoc(Apply(s, steps[0]), steps[1..], step);
    }
  }

  lemma StepIsReachable(s: Pool, step: Step)
    requires Reachable(s) && Enabled(s, step)
    ensures Reachable(Apply(s, step))
  {
    var s0: Pool, steps: seq<Step> :| Init(s0) && IsRun(s0, steps) && After(s0, steps) == s;
    RunSnoc(s0, steps, step);
  }

  /** The pool with one thread of each kind. */
  function State(slot: Task, free: seq<nat>, tasks: seq<nat>, freeMutex: Option<Thread>, mutex: Option<Thread>,
                 w: WorkerPc, p: ProducerPc, place: Place, submitted: seq<Task>, fate: seq<Fate>): Pool
  {
    Pool([slot], free, tasks, freeMutex, mutex, false, [w], [p], SIdle, [place], submitted, fate, [])
  }

  lemma Started()
    ensures Reachable(State(BLANK, [0], [], None, None, WTop, PIdle, InFree, [], []))
  {
    var s0 := State(BLANK, [0], [], None, None, WTop, PIdle, InFree, [], []);
    assert Init(s0);
    assert IsRun(s0, []) && After(s0, []) == s0;
  }

  /** threadpool_add_task takes the slot, */
  lemma SlotTaken(task: Task)
    ensures Reachable(State(BLANK, [], [], Some(Producer(0)), None, WTop, PUnlockFree(task, 0), WithProducer(0),
                            [], []))
  {
    Started();
    StepIsReachable(State(BLANK, [0], [], None, None, WTop, PIdle, InFree, [], []), Call(0, task, true));
    StepIsReachable(State(BLANK, [0], [], None, None, WTop, PLockFree(task, true), InFree, [], []), ProducerStep(0));
    StepIsReachable(State(BLANK, [0], [], Some(Producer(0)), None, WTop, PTestFree(task, true), InFree, [], []),
                    ProducerStep(0));
  }

  /** and fills it. */
  lemma SlotFilled(task: Task)
    ensures Reachable(State(task, [], [], None, None, WTop, PLockTasks(task, 0), WithProducer(0), [], []))
  {
    SlotTaken(task);
    StepIsReachable(State(BLANK, [], [], Some(Producer(0)), None, WTop, PUnlockFree(task, 0), WithProducer(0), [], []),
                    ProducerStep(0));
    StepIsReachable(State(BLANK, [], [], None, None, WTop, PFill(task, 0), WithProducer(0), [], []), ProducerStep(0));
  }

  /** The task is queued. */
  lemma TaskQueued(task: Task)
    ensures Reachable(State(task, [], [0], None, Some(Producer(0)), WTop, PSizeTasks, InTasks, [task], []))
  {
    SlotFilled(task);
    StepIsReachable(State(task, [], [], None, None, WTop, PLockTasks(task, 0), WithProducer(0), [], []),
                    ProducerStep(0));
    StepIsReachable(State(task, [], [], None, Some(Producer(0)), WTop, PPutTask(task, 0), WithProducer(0), [], []),
                    ProducerStep(0));
  }

  /** The call returns. */
  lemma CallReturned(task: Task)
    ensures Reachable(State(task, [], [0], None, None, WTop, PIdle, InTasks, [task], []))
  {
    TaskQueued(task);
    var s := State(task, [], [0], None, Some(Producer(0)), WTop, PSizeTasks, InTasks, [task], []);
    StepIsReachable(s, ProducerStep(0));
    assert WakeWorkers([WTop]) == [WTop];
    StepIsReachable(s.(producers := [PUnlockTasks(0)]), ProducerStep(0));
  }

  /** The worker passes both tests of the stop flag. */
  lemma FlagTested(task: Task)
    ensures Reachable(State(task, [], [0], None, Some(Worker(0)), WTake, PIdle, InTasks, [task], []))
  {
    CallReturned(task);
    var s := State(task, [], [0], None, None, WTop, PIdle, InTasks, [task], []);
    StepIsReachable(s, WorkerStep(0));
    StepIsReachable(s.(workers := [WLockTasks]), WorkerStep(0));
    StepIsReachable(s.(workers := [WTest], mutex := Some(Worker(0))), WorkerStep(0));
    StepIsReachable(s.(workers := [WCheck], mutex := Some(Worker(0))), WorkerStep(0));
  }

  /** It takes the task. */
  lemma TaskTaken(task: Task)
    ensures Reachable(State(task, [], [], None, None, WStart(Job(0, 0)), PIdle, WithWorker(0), [task], [Held(0)]))
  {
    FlagTested(task);
    StepIsReachable(State(task, [], [0], None, Some(Worker(0)), WTake, PIdle, InTasks, [task], []), WorkerStep(0));
    StepIsReachable(State(task, [], [], None, Some(Worker(0)), WUnlockTasks(Some(Job(0, 0))), PIdle, WithWorker(0),
                          [task], [Held(0)]),
                    WorkerStep(0));
  }

  /** The routine is NULL, and the worker goes on without returning the slot: the pool can be
      left with no slot at all. */
  lemma NullRoutineLosesTheSlot() returns (s: Pool)
    ensures Reachable(s) && |s.slots| == 1 && !Accounted(s, 0) && Missing(s) == {0}
  {
    var task := Task(0, 7);
    TaskTaken(task);
    StepIsReachable(State(task, [], [], None, None, WStart(Job(0, 0)), PIdle, WithWorker(0), [task], [Held(0)]),
                    WorkerStep(0));
    s := State(task, [], [], None, None, WTop, PIdle, Lost, [task], [Dropped]);
    ReachableIsGood(s);
    PlaceIsAccounted(s, 0);
  }

  /** A stop request that comes between the worker's last test of the flag and its dequeue: the
      flag is up, the task is still queued, and the worker begins it. */
  lemma CallbackAfterTheFlag(task: Task) returns (s: Pool, steps: seq<Step>)
    requires task.routine != 0
    ensures Reachable(s) && s.stop && s.tasks == [0] && |s.workers| == 1 && s.workers[0] == WTake
    ensures IsRun(s, steps) && Begins(s, steps, 0) == 1
  {
    FlagTested(task);
    var before := State(task, [], [0], None, Some(Worker(0)), WTake, PIdle, InTasks, [task], []);
    StepIsReachable(before, StopStep);
    s := before.(stop := true, stopper := SLock);
    ReachableIsGood(s);
    steps := AheadCanBegin(s, 0);
  }
}
