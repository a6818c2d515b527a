/** Tasks are dequeued in the order they were submitted, and each non-NULL one is run once,
    with the routine and data it was submitted with. */
module PoolTickets {
  import opened Collections
  import opened RingQueue
  import opened ThreadPool
  import opened PoolSlots
  import opened PoolLocks
  import opened PoolWakeups

  /** The task a worker has dequeued and not yet started. */
  function WorkerJob(w: WorkerPc): Option<Job> {
    match w
    case WUnlockTasks(got) => got
    case WStart(job) => Some(job)
    case _ => None
  }

  /** The tasks queue holds, in order, the submitted tasks not yet dequeued. */
  ghost predicate QueuedOk(slots: seq<Task>, tasks: seq<nat>, submitted: seq<Task>, taken: nat) {
    && |submitted| == taken + |tasks|
    && (forall k | 0 <= k < |tasks| :: tasks[k] < |slots| && slots[tasks[k]] == submitted[taken + k])
  }

  ghost predicate JobOk(job: Job, i: nat, slots: seq<Task>, submitted: seq<Task>, fate: seq<Fate>) {
    && job.ticket < |fate| <= |submitted| && fate[job.ticket] == Held(i)
    && job.slot < |slots| && slots[job.slot] == submitted[job.ticket]
  }

  ghost predicate JobsOk(ws: seq<WorkerPc>, slots: seq<Task>, submitted: seq<Task>, fate: seq<Fate>) {
    && (forall i | 0 <= i < |ws| :: WorkerJob(ws[i]).Some? ==> JobOk(WorkerJob(ws[i]).value, i, slots, submitted, fate))
    && (forall k | 0 <= k < |fate| :: fate[k].Held? ==>
          fate[k].i < |ws| && WorkerJob(ws[fate[k].i]).Some? && WorkerJob(ws[fate[k].i]).value.ticket == k)
  }

  ghost predicate FateOk(submitted: seq<Task>, fate: seq<Fate>) {
    && |fate| <= |submitted|
    && (forall k | 0 <= k < |fate| :: fate[k].Begun? ==> fate[k].task == submitted[k] && submitted[k].routine != 0)
    && (forall k | 0 <= k < |fate| :: fate[k].Dropped? ==> submitted[k].routine == 0)
  }

  /** The log of started callbacks names each begun ticket once. */
  ghost predicate BegunOk(begun: seq<Begin>, fate: seq<Fate>) {
    && (forall j | 0 <= j < |begun| :: begun[j].ticket < |fate| && fate[begun[j].ticket] == Begun(begun[j].task))
    && (forall j, k | 0 <= j < k < |begun| :: begun[j].ticket != begun[k].ticket)
    && (forall k | 0 <= k < |fate| :: fate[k].Begun? ==> exists j :: 0 <= j < |begun| && begun[j].ticket == k)
  }

  ghost predicate FilledOk(ps: seq<ProducerPc>, slots: seq<Task>) {
    forall p | 0 <= p < |ps| :: ps[p].PLockTasks? || ps[p].PPutTask? ==>
      ps[p].slot < |slots| && slots[ps[p].slot] == ps[p].task
  }

  ghost predicate TicketsOk(s: Pool) {
    && QueuedOk(s.slots, s.tasks, s.submitted, |s.fate|)
    && JobsOk(s.workers, s.slots, s.submitted, s.fate)
    && FateOk(s.submitted, s.fate)
    && BegunOk(s.begun, s.fate)
    && FilledOk(s.producers, s.slots)
  }

  // ---------- writes to a slot in somebody's hand ----------

  lemma WriteByWorker(s: Pool, i: nat, x: nat, task: Task)
    requires SlotsOk(s) && TicketsOk(s) && i < |s.workers|
    requires WorkerSlot(s.workers[i]) == Some(x) && WorkerJob(s.workers[i]).None?
    ensures QueuedOk(Write(s.slots, x, task), s.tasks, s.submitted, |s.fate|)
    ensures JobsOk(s.workers, Write(s.slots, x, task), s.submitted, s.fate)
    ensures FilledOk(s.producers, Write(s.slots, x, task))
  {
    assert forall k | 0 <= k < |s.tasks| :: s.tasks[k] in s.tasks;
    forall p | 0 <= p < |s.producers| && (s.producers[p].PLockTasks? || s.producers[p].PPutTask?)
      ensures s.producers[p].slot != x
    {
      assert ProducerSlot(s.producers[p]) == Some(s.producers[p].slot);
    }
  }

  lemma WriteByProducer(s: Pool, p: nat, x: nat, task: Task)
    requires SlotsOk(s) && TicketsOk(s) && p < |s.producers|
    requires s.producers[p].PFill? && s.producers[p].slot == x
    ensures QueuedOk(Write(s.slots, x, task), s.tasks, s.submitted, |s.fate|)
    ensures JobsOk(s.workers, Write(s.slots, x, task), s.submitted, s.fate)
    ensures FilledOk(s.producers, Write(s.slots, x, task))
  {
    assert ProducerSlot(s.producers[p]) == Some(x);
    assert forall k | 0 <= k < |s.tasks| :: s.tasks[k] in s.tasks;
    forall q | 0 <= q < |s.producers| && (s.producers[q].PLockTasks? || s.producers[q].PPutTask?)
      ensures s.producers[q].slot != x
    {
      assert ProducerSlot(s.producers[q]) == Some(s.producers[q].slot);
    }
  }

  // ---------- positions without a task ----------

  lemma WorkerStays(ws: seq<WorkerPc>, slots: seq<Task>, submitted: seq<Task>, fate: seq<Fate>, i: nat, w: WorkerPc)
    requires JobsOk(ws, slots, submitted, fate) && i < |ws| && WorkerJob(w) == WorkerJob(ws[i])
    ensures JobsOk(ws[i := w], slots, submitted, fate)
  {
  }

  lemma ProducerStays(ps: seq<ProducerPc>, slots: seq<Task>, p: nat, pc: ProducerPc)
    requires FilledOk(ps, slots) && p < |ps|
    requires pc.PLockTasks? || pc.PPutTask? ==> pc.slot < |slots| && slots[pc.slot] == pc.task
    ensures FilledOk(ps[p := pc], slots)
  {
  }

  lemma BroadcastKeepsTickets(ws: seq<WorkerPc>, ps: seq<ProducerPc>, slots: seq<Task>, submitted: seq<Task>,
                              fate: seq<Fate>)
    ensures JobsOk(ws, slots, submitted, fate) ==> JobsOk(WakeWorkers(ws), slots, submitted, fate)
    ensures FilledOk(ps, slots) ==> FilledOk(WakeProducers(ps), slots)
  {
  }

  // ---------- steps that move a ticket ----------

  lemma WorkerTakesKeepsTickets(s: Pool, i: nat)
    requires SlotsOk(s) && TicketsOk(s) && i < |s.workers| && s.workers[i].WTake? && s.tasks != []
    ensures TicketsOk(WorkerTakes(s, i))
  {
    var s' := WorkerTakes(s, i);
    assert s.tasks[0] in s.tasks;
    assert s'.fate == s.fate + [Held(i)];
    assert forall k | 0 <= k < |s'.tasks| :: s'.tasks[k] == s.tasks[k + 1];
    assert forall k | 0 <= k < |s.fate| :: s'.fate[k] == s.fate[k];
  }

  lemma WorkerBeginsKeepsTickets(s: Pool, i: nat)
    requires TicketsOk(s) && i < |s.workers| && s.workers[i].WStart?
    requires Slot(s, s.workers[i].job.slot).routine != 0
    ensures TicketsOk(WorkerStarts(s, i, s.workers[i].job))
  {
    var s' := WorkerStarts(s, i, s.workers[i].job);
    var job := s.workers[i].job;
    assert WorkerJob(s.workers[i]) == Some(job);
    assert s'.begun[|s.begun|].ticket == job.ticket;
    forall k | 0 <= k < |s'.fate| && s'.fate[k].Begun?
      ensures exists j :: 0 <= j < |s'.begun| && s'.begun[j].ticket == k
    {
      if k != job.ticket {
        assert s.fate[k].Begun?;
        var j :| 0 <= j < |s.begun| && s.begun[j].ticket == k;
        assert s'.begun[j].ticket == k;
      }
    }
  }

  lemma WorkerDropsKeepsTickets(s: Pool, i: nat)
    requires TicketsOk(s) && i < |s.workers| && s.workers[i].WStart?
    requires Slot(s, s.workers[i].job.slot).routine == 0
    ensures TicketsOk(WorkerStarts(s, i, s.workers[i].job))
  {
    var s' := WorkerStarts(s, i, s.workers[i].job);
    var job := s.workers[i].job;
    assert WorkerJob(s.workers[i]) == Some(job);
  }

  lemma SubmitKeepsTickets(s: Pool, p: nat)
    requires SlotsOk(s) && TicketsOk(s) && p < |s.producers| && s.producers[p].PPutTask?
    ensures TicketsOk(ProducerSubmits(s, p, s.producers[p].task, s.producers[p].slot))
  {
    ProducerSubmitsKeepsSlots(s, p);
    var s' := ProducerSubmits(s, p, s.producers[p].task, s.producers[p].slot);
    assert s'.tasks == s.tasks + [s.producers[p].slot];
    assert s'.submitted == s.submitted + [s.producers[p].task];
  }

  // ---------- all steps ----------

  predicate WorkerTicketIdle(s: Pool, i: nat) {
    && i < |s.workers|
    && !s.workers[i].WTake? && !s.workers[i].WStart? && !s.workers[i].WRunning?
  }

  /** The other worker steps touch no slot, queue entry or ticket. */
  lemma WorkerTicketFrame(s: Pool, i: nat)
    requires WorkerEnabled(s, i) && WorkerTicketIdle(s, i)
    ensures var s' := WorkerNext(s, i);
            && s'.slots == s.slots && s'.tasks == s.tasks && s'.submitted == s.submitted
            && s'.fate == s.fate && s'.begun == s.begun
            && WorkerJob(s'.workers[i]) == WorkerJob(s.workers[i])
            && s'.workers == s.workers[i := s'.workers[i]]
            && (s'.producers == s.producers || s'.producers == WakeProducers(s.producers))
  {
  }

  lemma WorkerIdleKeepsTickets(s: Pool, i: nat)
    requires TicketsOk(s) && WorkerEnabled(s, i) && WorkerTicketIdle(s, i)
    ensures TicketsOk(WorkerNext(s, i))
  {
    var s' := WorkerNext(s, i);
    WorkerTicketFrame(s, i);
    WorkerStays(s.workers, s.slots, s.submitted, s.fate, i, s'.workers[i]);
    BroadcastKeepsTickets(s.workers, s.producers, s.slots, s.submitted, s.fate);
  }

  lemma WorkerKeepsTickets(s: Pool, i: nat)
    requires Inv(s) && TicketsOk(s) && WorkerEnabled(s, i)
    ensures TicketsOk(WorkerNext(s, i))
  {
    var w := s.workers[i];
    if WorkerTicketIdle(s, i) {
      WorkerIdleKeepsTickets(s, i);
    } else if w.WTake? {
      WorkerTakesKeepsTickets(s, i);
    } else if w.WRunning? {
      WriteByWorker(s, i, w.slot, BLANK);
      WorkerStays(s.workers, Write(s.slots, w.slot, BLANK), s.submitted, s.fate, i, WLockFree(w.slot));
    } else if Slot(s, w.job.slot).routine != 0 {
      WorkerBeginsKeepsTickets(s, i);
    } else {
      WorkerDropsKeepsTickets(s, i);
    }
  }

  lemma ProducerTicketFrame(s: Pool, p: nat)
    requires ProducerEnabled(s, p) && !s.producers[p].PFill? && !s.producers[p].PPutTask?
    ensures var s' := ProducerNext(s, p);
            && s'.slots == s.slots && s'.tasks == s.tasks && s'.submitted == s.submitted
            && s'.fate == s.fate && s'.begun == s.begun
            && s'.producers == s.producers[p := s'.producers[p]]
            && !s'.producers[p].PLockTasks?
            && (s'.producers[p].PPutTask? ==> s.producers[p] == PLockTasks(s'.producers[p].task, s'.producers[p].slot))
            && (s'.workers == s.workers || s'.workers == WakeWorkers(s.workers))
  {
  }

  lemma ProducerKeepsTickets(s: Pool, p: nat)
    requires Inv(s) && TicketsOk(s) && ProducerEnabled(s, p)
    ensures TicketsOk(ProducerNext(s, p))
  {
    var pc, s' := s.producers[p], ProducerNext(s, p);
    if pc.PPutTask? {
      SubmitKeepsTickets(s, p);
    } else if pc.PFill? {
      assert ProducerSlot(pc) == Some(pc.slot);
      WriteByProducer(s, p, pc.slot, pc.task);
      ProducerStays(s.producers, Write(s.slots, pc.slot, pc.task), p, PLockTasks(pc.task, pc.slot));
    } else {
      ProducerTicketFrame(s, p);
      ProducerStays(s.producers, s.slots, p, s'.producers[p]);
      BroadcastKeepsTickets(s.workers, s.producers, s.slots, s.submitted, s.fate);
    }
  }

  lemma StepKeepsTickets(s: Pool, step: Step)
    requires Inv(s) && TicketsOk(s) && Enabled(s, step)
    ensures TicketsOk(Apply(s, step))
  {
    match step
    case WorkerStep(i) => WorkerKeepsTickets(s, i);
    case ProducerStep(p) => ProducerKeepsTickets(s, p);
    case SpuriousWorker(i) => WorkerStays(s.workers, s.slots, s.submitted, s.fate, i, WWoken);
    case SpuriousProducer(p) => ProducerStays(s.producers, s.slots, p, PWoken(s.producers[p].task));
    case Call(p, task, blocking) => ProducerStays(s.producers, s.slots, p, PLockFree(task, blocking));
    case StopStep => BroadcastKeepsTickets(s.workers, s.producers, s.slots, s.submitted, s.fate);
  }
}
