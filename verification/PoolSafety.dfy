/** Safety of the thread pool over whole runs. */
module PoolSafety {
  import opened Collections
  import opened RingQueue
  import opened ThreadPool
  import opened PoolLocks
  import opened PoolSlots
  import opened PoolWakeups
  import opened PoolTickets
  import opened PoolLosses

  ghost predicate Good(s: Pool) {
    0 < |s.slots| && Inv(s) && TicketsOk(s) && LossesOk(s)
  }

  lemma InitIsGood(s: Pool)
    requires Init(s)
    ensures Good(s)
  {
    forall x: nat ensures x in s.free <==> x < |s.place| && s.place[x] == InFree {
      if x < |s.place| {
        assert s.free[x] == x;
      }
    }
    NothingLost(s.place);
  }

  lemma {:induction false} NothingLost(place: seq<Place>)
    requires forall x | 0 <= x < |place| :: place[x] == InFree
    ensures CountPlace(place, Lost) == 0
  {
    if place != [] {
      NothingLost(place[..|place| - 1]);
    }
  }

  lemma WorkerKeepsSize(s: Pool, i: nat)
    requires WorkerEnabled(s, i)
    ensures |WorkerNext(s, i).slots| == |s.slots|
  {
  }

  lemma ProducerKeepsSize(s: Pool, p: nat)
    requires ProducerEnabled(s, p)
    ensures |ProducerNext(s, p).slots| == |s.slots|
  {
  }

  lemma StepKeepsSize(s: Pool, step: Step)
    requires Enabled(s, step)
    ensures |Apply(s, step).slots| == |s.slots|
  {
    match step
    case WorkerStep(i) => WorkerKeepsSize(s, i);
    case ProducerStep(p) => ProducerKeepsSize(s, p);
    case _ =>
  }

  lemma StepKeepsGood(s: Pool, step: Step)
    requires Good(s) && Enabled(s, step)
    ensures Good(Apply(s, step))
  {
    StepKeepsSize(s, step);
    StepKeepsInv(s, step);
    StepKeepsTickets(s, step);
    StepKeepsLosses(s, step);
  }

  lemma {:induction false} RunKeepsGood(s: Pool, steps: seq<Step>)
    requires Good(s) && IsRun(s, steps)
    ensures Good(After(s, steps))
    decreases |steps|
  {
    if steps != [] {
      StepKeepsGood(s, steps[0]);
      RunKeepsGood(Apply(s, steps[0]), steps[1..]);
    }
  }

  lemma ReachableIsGood(s: Pool)
    requires Reachable(s)
    ensures Good(s)
  {
    var s0: Pool, steps: seq<Step> :| Init(s0) && IsRun(s0, steps) && After(s0, steps) == s;
    InitIsGood(s0);
    RunKeepsGood(s0, steps);
  }

  // ---------- conservation ----------

  ghost predicate WorkerHolds(s: Pool, x: nat, i: nat) {
    i < |s.workers| && WorkerSlot(s.workers[i]) == Some(x)
  }

  ghost predicate ProducerHolds(s: Pool, x: nat, p: nat) {
    p < |s.producers| && ProducerSlot(s.producers[p]) == Some(x)
  }

  /** No slot is in two places, or twice in one. */
  lemma NoSlotTwice(s: Pool, x: nat)
    requires Reachable(s)
    ensures Distinct(s.free) && Distinct(s.tasks)
    ensures x in s.free ==> x !in s.tasks
    ensures forall i: nat | WorkerHolds(s, x, i) ::
              x !in s.free && x !in s.tasks && forall j: nat | WorkerHolds(s, x, j) :: i == j
    ensures forall p: nat | ProducerHolds(s, x, p) ::
              && x !in s.free && x !in s.tasks
              && (forall i: nat :: !WorkerHolds(s, x, i))
              && forall q: nat | ProducerHolds(s, x, q) :: p == q
  {
    ReachableIsGood(s);
  }

  /** In a queue or in a thread's hand. */
  ghost predicate Accounted(s: Pool, x: nat) {
    || x in s.free || x in s.tasks
    || (exists i: nat :: WorkerHolds(s, x, i)) || (exists p: nat :: ProducerHolds(s, x, p))
  }

  lemma PlaceIsAccounted(s: Pool, x: nat)
    requires Good(s) && x < |s.slots|
    ensures Accounted(s, x) <==> s.place[x] != Lost
  {
    match s.place[x]
    case InFree =>
    case InTasks =>
    case WithWorker(i) => assert WorkerHolds(s, x, i);
    case WithProducer(p) => assert ProducerHolds(s, x, p);
    case Lost =>
  }

  /** The slots that nobody will ever see again. */
  ghost function Missing(s: Pool): set<nat> {
    set x: nat | x < |s.slots| && !Accounted(s, x)
  }

  ghost predicate TicketHeld(s: Pool, k: nat) {
    exists i :: 0 <= i < |s.workers| && WorkerJob(s.workers[i]).Some? && WorkerJob(s.workers[i]).value.ticket == k
  }

  /** The tasks without a routine that a worker took from the queue and has done with. */
  ghost function Swallowed(s: Pool): set<nat> {
    set k: nat | k < |s.fate| && k < |s.submitted| && s.submitted[k].routine == 0 && !TicketHeld(s, k)
  }

  lemma SwallowedIsDropped(s: Pool)
    requires Good(s)
    ensures Swallowed(s) == DroppedTickets(s.fate)
  {
    forall k: nat | k < |s.fate| ensures k in Swallowed(s) <==> s.fate[k] == Dropped {
      if s.fate[k].Held? {
        assert TicketHeld(s, k);
      }
    }
  }

  /** Every task without a routine costs the pool exactly one slot, for good; nothing else
      loses one. */
  lemma SlotsLostExactly(s: Pool)
    requires Reachable(s)
    ensures |Missing(s)| == |Swallowed(s)|
  {
    ReachableIsGood(s);
    forall x: nat | x < |s.slots| ensures Accounted(s, x) <==> s.place[x] != Lost {
      PlaceIsAccounted(s, x);
    }
    assert Missing(s) == SlotsIn(s.place, Lost);
    SlotsInSize(s.place, Lost);
    SwallowedIsDropped(s);
    DroppedTicketsSize(s.fate);
  }

  /** All slots are in a queue or a hand exactly when no worker has finished with a task that
      has no routine. */
  lemma NoSlotLost(s: Pool)
    requires Reachable(s)
    ensures (forall x: nat | x < |s.slots| :: Accounted(s, x)) <==>
            (forall k: nat | k < |s.fate| && k < |s.submitted| && s.submitted[k].routine == 0 :: TicketHeld(s, k))
  {
    SlotsLostExactly(s);
    assert (forall x: nat | x < |s.slots| :: Accounted(s, x)) <==> Missing(s) == {} by {
      assert forall x: nat | x < |s.slots| :: Accounted(s, x) <==> x !in Missing(s);
    }
    assert (forall k: nat | k < |s.fate| && k < |s.submitted| && s.submitted[k].routine == 0 :: TicketHeld(s, k))
           <==> Swallowed(s) == {} by {
      assert forall k: nat | k < |s.fate| && k < |s.submitted| && s.submitted[k].routine == 0 ::
               TicketHeld(s, k) <==> k !in Swallowed(s);
    }
  }

  /** Neither enqueue finds its queue full, neither dequeue finds its queue empty, and no
      thread takes an error exit: workers leave only after the flag is up, and
      threadpool_add_task returns 0, or -2 from a call that must not block. */
  lemma NoErrorPath(s: Pool)
    requires Reachable(s)
    ensures forall i | 0 <= i < |s.workers| ::
              && (s.workers[i].WPutFree? ==> Put(|s.slots|, s.free, s.workers[i].slot).0)
              && (s.workers[i].WTake? ==> Take(s.tasks).0.Some?)
              && (s.workers[i].WExited? || s.workers[i] == WUnlockTasks(None) ==> s.stop)
              && s.workers[i] != WUnlockFree(false)
    ensures forall p | 0 <= p < |s.producers| ::
              && (s.producers[p].PPutTask? ==> Put(|s.slots|, s.tasks, s.producers[p].slot).0)
              && (s.producers[p].PGiveUp? ==> s.producers[p].code == -2)
              && (s.producers[p].PUnlockTasks? ==> s.producers[p].code == 0)
  {
    ReachableIsGood(s);
    forall i | 0 <= i < |s.workers| && s.workers[i].WPutFree?
      ensures Put(|s.slots|, s.free, s.workers[i].slot).0
    {
      EnqueueSucceeds(s, s.free, InFree, s.workers[i].slot);
    }
    forall p | 0 <= p < |s.producers| && s.producers[p].PPutTask?
      ensures Put(|s.slots|, s.tasks, s.producers[p].slot).0
    {
      assert ProducerSlot(s.producers[p]) == Some(s.producers[p].slot);
      EnqueueSucceeds(s, s.tasks, InTasks, s.producers[p].slot);
    }
    assert forall i | 0 <= i < |s.workers| :: WorkerLocal(s.workers[i], s.tasks == [], s.stop, s.stopper);
    assert forall p | 0 <= p < |s.producers| :: ProducerLocal(s.producers[p]);
  }

  // ---------- wakeups ----------

  /** Whenever a mutex is free, a non-empty queue has nobody asleep waiting for it, although
      the broadcasts happen only when a queue's size becomes 1. */
  lemma NoLostWakeup(s: Pool)
    requires Reachable(s)
    ensures s.mutex.None? && s.tasks != [] ==> NoWorkerAsleep(s.workers)
    ensures s.freeMutex.None? && s.free != [] ==> NoProducerAsleep(s.producers)
  {
    ReachableIsGood(s);
  }

  // ---------- order and multiplicity ----------

  /** The queue holds exactly the submitted tasks not yet taken, in order; a worker that took
      ticket k holds the k-th submitted task; every callback started so far ran the routine and
      data of a submitted task, and no ticket was started twice. */
  lemma FifoExactlyOnce(s: Pool)
    requires Reachable(s)
    ensures |s.submitted| == |s.fate| + |s.tasks|
    ensures forall k | 0 <= k < |s.tasks| :: s.tasks[k] < |s.slots| && s.slots[s.tasks[k]] == s.submitted[|s.fate| + k]
    ensures forall i | 0 <= i < |s.workers| && WorkerJob(s.workers[i]).Some? ::
              var job := WorkerJob(s.workers[i]).value;
              job.ticket < |s.fate| && Slot(s, job.slot) == s.submitted[job.ticket]
    ensures forall j | 0 <= j < |s.begun| ::
              && s.begun[j].ticket < |s.fate|
              && s.begun[j].task == s.submitted[s.begun[j].ticket]
              && s.begun[j].task.routine != 0
    ensures forall j, k | 0 <= j < k < |s.begun| :: s.begun[j].ticket != s.begun[k].ticket
  {
    ReachableIsGood(s);
    assert forall j | 0 <= j < |s.begun| :: s.fate[s.begun[j].ticket].Begun?;
  }

  // ---------- quiescence ----------

  /** Nobody can move: no worker, no producer inside a call, no stopper that has started. */
  ghost predicate Quiescent(s: Pool) {
    && (forall i: nat :: !WorkerEnabled(s, i))
    && (forall p: nat :: !ProducerEnabled(s, p))
    && (s.stopper != SIdle ==> !StopEnabled(s))
  }

  lemma QuiescentMutexesFree(s: Pool)
    requires LocksOk(s) && Quiescent(s)
    ensures s.mutex.None? && s.freeMutex.None?
  {
    if s.mutex.Some? && s.mutex.value.Worker? {
      assert WorkerEnabled(s, s.mutex.value.i);
    }
    if s.mutex.Some? && s.mutex.value.Producer? {
      assert ProducerEnabled(s, s.mutex.value.p);
    }
    if s.freeMutex.Some? && s.freeMutex.value.Worker? {
      assert WorkerEnabled(s, s.freeMutex.value.i);
    }
    if s.freeMutex.Some? && s.freeMutex.value.Producer? {
      assert ProducerEnabled(s, s.freeMutex.value.p);
    }
  }

  lemma QuiescentPositions(s: Pool)
    requires LocksOk(s) && Quiescent(s)
    ensures forall i | 0 <= i < |s.workers| :: s.workers[i].WAsleep? || s.workers[i].WExited?
    ensures forall p | 0 <= p < |s.producers| :: s.producers[p].PIdle? || s.producers[p].PAsleep?
  {
    QuiescentMutexesFree(s);
    forall i | 0 <= i < |s.workers| ensures s.workers[i].WAsleep? || s.workers[i].WExited? {
      assert !WorkerEnabled(s, i);
    }
    forall p | 0 <= p < |s.producers| ensures s.producers[p].PIdle? || s.producers[p].PAsleep? {
      assert !ProducerEnabled(s, p);
    }
  }

  /** When nothing moves before a stop, the workers sleep on an empty tasks queue, and every
      submitted task has been taken. */
  lemma QuiescentMeansDrained(s: Pool)
    requires Reachable(s) && Quiescent(s) && !s.stop && 0 < |s.workers|
    ensures s.tasks == []
    ensures forall i | 0 <= i < |s.workers| :: s.workers[i] == WAsleep
    ensures |s.fate| == |s.submitted|
    ensures forall k | 0 <= k < |s.submitted| ::
              s.fate[k] == if s.submitted[k].routine == 0 then Dropped else Begun(s.submitted[k])
  {
    ReachableIsGood(s);
    QuiescentMutexesFree(s);
    QuiescentPositions(s);
    assert s.workers[0] == WAsleep;
    assert forall i | 0 <= i < |s.workers| :: WorkerJob(s.workers[i]).None?;
  }

  /** Nobody holds a slot in such a state: what is not lost is free. */
  lemma QuiescentPlaces(s: Pool)
    requires Reachable(s) && Quiescent(s) && !s.stop && 0 < |s.workers|
    ensures |s.place| == |s.slots| && forall x | 0 <= x < |s.place| :: s.place[x] == InFree || s.place[x] == Lost
  {
    ReachableIsGood(s);
    QuiescentPositions(s);
    QuiescentMeansDrained(s);
    forall x | 0 <= x < |s.place| ensures s.place[x] == InFree || s.place[x] == Lost {
      assert s.place[x] == InTasks ==> x in s.tasks;
    }
  }

  /** Then free slots and submissions without a routine make up the capacity, every other
      submission has been started exactly once, and as long as a slot is left every call of
      threadpool_add_task has returned. */
  lemma QuiescentMeansIdle(s: Pool)
    requires Reachable(s) && Quiescent(s) && !s.stop && 0 < |s.workers|
    ensures |s.free| + CountNull(s.submitted) == |s.slots|
    ensures forall k | 0 <= k < |s.submitted| && s.submitted[k].routine != 0 :: Started(s, k)
    ensures CountNull(s.submitted) < |s.slots| ==> forall p | 0 <= p < |s.producers| :: s.producers[p] == PIdle
  {
    ReachableIsGood(s);
    QuiescentMutexesFree(s);
    QuiescentPositions(s);
    QuiescentMeansDrained(s);
    QuiescentPlaces(s);
    TwoPlaces(s.place, InFree, Lost);
    QueueSize(s.free, s.place, InFree);
    AllDecided(s.fate, s.submitted);
    forall k | 0 <= k < |s.submitted| && s.submitted[k].routine != 0 ensures Started(s, k) {
      assert s.fate[k].Begun?;
      var j :| 0 <= j < |s.begun| && s.begun[j].ticket == k;
      assert s.begun[j] == Begin(k, s.submitted[k]);
    }
  }

  /** The k-th submission's callback was begun, with its own routine and data, and once. */
  ghost predicate Started(s: Pool, k: nat) {
    && k < |s.submitted|
    && exists j :: 0 <= j < |s.begun| && s.begun[j] == Begin(k, s.submitted[k])
                   && forall i | 0 <= i < |s.begun| && s.begun[i].ticket == k :: i == j
  }

  /** When nothing moves after a stop was requested, every worker has exited and every join
      has returned. */
  lemma QuiescentMeansStopped(s: Pool)
    requires Good(s) && Quiescent(s) && s.stop
    ensures s.stopper == SDone
    ensures forall i | 0 <= i < |s.workers| :: s.workers[i] == WExited
  {
    QuiescentMutexesFree(s);
    QuiescentPositions(s);
  }
}
