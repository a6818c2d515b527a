/** Conservation of task slots: each is in the free queue, in the tasks queue, in one
    thread's hand, or was dropped together with a NULL routine. */
module PoolSlots {
  import opened Collections
  import opened RingQueue
  import opened ThreadPool

  /** The queue lists, once each, exactly the slots whose place is `tag`. */
  ghost predicate QueueOk(q: seq<nat>, place: seq<Place>, tag: Place) {
    && Distinct(q)
    && (forall x: nat :: x in q <==> x < |place| && place[x] == tag)
  }

  lemma Push(q: seq<nat>, place: seq<Place>, tag: Place, x: nat)
    requires QueueOk(q, place, tag) && x < |place| && place[x] != tag
    ensures QueueOk(q + [x], place[x := tag], tag)
  {
    assert x !in q;
    assert forall y: nat :: y in q + [x] <==> y in q || y == x;
  }

  lemma Pop(q: seq<nat>, place: seq<Place>, tag: Place, tag': Place)
    requires QueueOk(q, place, tag) && q != [] && tag' != tag
    ensures q[0] < |place| && place[q[0]] == tag
    ensures QueueOk(q[1..], place[q[0] := tag'], tag)
  {
    assert q[0] in q;
    assert q == [q[0]] + q[1..];
    assert forall y: nat :: y in q <==> y == q[0] || y in q[1..];
    assert q[0] !in q[1..];
  }

  lemma Elsewhere(q: seq<nat>, place: seq<Place>, tag: Place, x: nat, tag': Place)
    requires QueueOk(q, place, tag) && x < |place| && place[x] != tag && tag' != tag
    ensures QueueOk(q, place[x := tag'], tag)
  {
  }

  /** Distinct slot numbers below `n` are at most `n` many. */
  lemma {:induction false} Pigeonhole(q: seq<nat>, n: nat)
    requires Distinct(q) && forall k | 0 <= k < |q| :: q[k] < n
    ensures |q| <= n
    decreases n
  {
    if q != [] {
      assert q[0] < n;
      if n - 1 in q {
        var k :| 0 <= k < |q| && q[k] == n - 1;
        Pigeonhole(q[..k] + q[k + 1..], n - 1);
      } else {
        Pigeonhole(q, n - 1);
      }
    }
  }

  // ---------- hands ----------

  function WorkerSlot(w: WorkerPc): Option<nat> {
    match w
    case WUnlockTasks(got) => if got.Some? then Some(got.value.slot) else None
    case WStart(job) => Some(job.slot)
    case WRunning(slot) => Some(slot)
    case WLockFree(slot) => Some(slot)
    case WPutFree(slot) => Some(slot)
    case _ => None
  }

  function ProducerSlot(p: ProducerPc): Option<nat> {
    match p
    case PUnlockFree(_, slot) => Some(slot)
    case PFill(_, slot) => Some(slot)
    case PLockTasks(_, slot) => Some(slot)
    case PPutTask(_, slot) => Some(slot)
    case _ => None
  }

  ghost predicate WorkersHold(ws: seq<WorkerPc>, place: seq<Place>) {
    && (forall i | 0 <= i < |ws| :: WorkerSlot(ws[i]).Some? ==>
          WorkerSlot(ws[i]).value < |place| && place[WorkerSlot(ws[i]).value] == WithWorker(i))
    && (forall x | 0 <= x < |place| :: place[x].WithWorker? ==>
          place[x].i < |ws| && WorkerSlot(ws[place[x].i]) == Some(x))
  }

  ghost predicate ProducersHold(ps: seq<ProducerPc>, place: seq<Place>) {
    && (forall p | 0 <= p < |ps| :: ProducerSlot(ps[p]).Some? ==>
          ProducerSlot(ps[p]).value < |place| && place[ProducerSlot(ps[p]).value] == WithProducer(p))
    && (forall x | 0 <= x < |place| :: place[x].WithProducer? ==>
          place[x].p < |ps| && ProducerSlot(ps[place[x].p]) == Some(x))
  }

  /** A slot may be put into an empty hand, taken out of one, or stay. */
  lemma WorkerHand(ws: seq<WorkerPc>, place: seq<Place>, i: nat, w: WorkerPc, x: nat, tag: Place)
    requires WorkersHold(ws, place) && i < |ws| && x < |place|
    requires || (WorkerSlot(ws[i]).None? && !place[x].WithWorker? && WorkerSlot(w) == Some(x) && tag == WithWorker(i))
             || (WorkerSlot(ws[i]) == Some(x) && WorkerSlot(w).None? && !tag.WithWorker?)
    ensures WorkersHold(ws[i := w], place[x := tag])
  {
  }

  lemma WorkerHandStays(ws: seq<WorkerPc>, place: seq<Place>, i: nat, w: WorkerPc)
    requires WorkersHold(ws, place) && i < |ws| && WorkerSlot(w) == WorkerSlot(ws[i])
    ensures WorkersHold(ws[i := w], place)
  {
  }

  lemma ProducerHand(ps: seq<ProducerPc>, place: seq<Place>, p: nat, pc: ProducerPc, x: nat, tag: Place)
    requires ProducersHold(ps, place) && p < |ps| && x < |place|
    requires || (ProducerSlot(ps[p]).None? && !place[x].WithProducer? && ProducerSlot(pc) == Some(x)
                 && tag == WithProducer(p))
             || (ProducerSlot(ps[p]) == Some(x) && ProducerSlot(pc).None? && !tag.WithProducer?)
    ensures ProducersHold(ps[p := pc], place[x := tag])
  {
  }

  lemma ProducerHandStays(ps: seq<ProducerPc>, place: seq<Place>, p: nat, pc: ProducerPc)
    requires ProducersHold(ps, place) && p < |ps| && ProducerSlot(pc) == ProducerSlot(ps[p])
    ensures ProducersHold(ps[p := pc], place)
  {
  }

  /** A slot that changes place between two other places. */
  lemma NotInHand(ws: seq<WorkerPc>, ps: seq<ProducerPc>, place: seq<Place>, x: nat, tag: Place)
    requires x < |place|
    ensures WorkersHold(ws, place) && !place[x].WithWorker? && !tag.WithWorker? ==> WorkersHold(ws, place[x := tag])
    ensures ProducersHold(ps, place) && !place[x].WithProducer? && !tag.WithProducer? ==>
            ProducersHold(ps, place[x := tag])
  {
  }

  lemma BroadcastKeepsHands(ws: seq<WorkerPc>, ps: seq<ProducerPc>, place: seq<Place>)
    ensures WorkersHold(ws, place) ==> WorkersHold(WakeWorkers(ws), place)
    ensures ProducersHold(ps, place) ==> ProducersHold(WakeProducers(ps), place)
  {
  }

  // ---------- the invariant ----------

  ghost predicate PlacesOk(ws: seq<WorkerPc>, ps: seq<ProducerPc>, free: seq<nat>, tasks: seq<nat>, place: seq<Place>) {
    && QueueOk(free, place, InFree)
    && QueueOk(tasks, place, InTasks)
    && WorkersHold(ws, place)
    && ProducersHold(ps, place)
  }

  ghost predicate SlotsOk(s: Pool) {
    |s.slots| == |s.place| && PlacesOk(s.workers, s.producers, s.free, s.tasks, s.place)
  }

  /** A slot in somebody's hand leaves room in both queues, so both enqueues succeed. */
  lemma EnqueueSucceeds(s: Pool, q: seq<nat>, tag: Place, x: nat)
    requires SlotsOk(s) && QueueOk(q, s.place, tag) && x < |s.place| && s.place[x] != tag
    ensures |q| < |s.slots|
  {
    Push(q, s.place, tag, x);
    assert forall k | 0 <= k < |q + [x]| :: (q + [x])[k] in q + [x];
    Pigeonhole(q + [x], |s.place|);
  }

  lemma WorkerTakesKeepsSlots(s: Pool, i: nat)
    requires SlotsOk(s) && i < |s.workers| && WorkerSlot(s.workers[i]).None? && s.tasks != []
    ensures SlotsOk(WorkerTakes(s, i))
  {
    var x := s.tasks[0];
    Pop(s.tasks, s.place, InTasks, WithWorker(i));
    Elsewhere(s.free, s.place, InFree, x, WithWorker(i));
    WorkerHand(s.workers, s.place, i, WUnlockTasks(Some(Job(x, |s.fate|))), x, WithWorker(i));
    NotInHand(s.workers, s.producers, s.place, x, WithWorker(i));
  }

  lemma WorkerStartsKeepsSlots(s: Pool, i: nat)
    requires SlotsOk(s) && i < |s.workers| && s.workers[i].WStart?
    ensures SlotsOk(WorkerStarts(s, i, s.workers[i].job))
  {
    var x := s.workers[i].job.slot;
    if Slot(s, x).routine != 0 {
      WorkerHandStays(s.workers, s.place, i, WRunning(x));
    } else {
      WorkerHand(s.workers, s.place, i, WTop, x, Lost);
      Elsewhere(s.free, s.place, InFree, x, Lost);
      Elsewhere(s.tasks, s.place, InTasks, x, Lost);
      NotInHand(s.workers, s.producers, s.place, x, Lost);
    }
  }

  lemma WorkerReturnsKeepsSlots(s: Pool, i: nat)
    requires SlotsOk(s) && i < |s.workers| && s.workers[i].WPutFree?
    ensures SlotsOk(WorkerReturns(s, i, s.workers[i].slot))
    ensures WorkerReturns(s, i, s.workers[i].slot).workers[i] == WSizeFree
  {
    var x := s.workers[i].slot;
    EnqueueSucceeds(s, s.free, InFree, x);
    Push(s.free, s.place, InFree, x);
    Elsewhere(s.tasks, s.place, InTasks, x, InFree);
    WorkerHand(s.workers, s.place, i, WSizeFree, x, InFree);
    NotInHand(s.workers, s.producers, s.place, x, InFree);
  }

  lemma ProducerTakesKeepsSlots(s: Pool, p: nat, task: Task)
    requires SlotsOk(s) && p < |s.producers| && ProducerSlot(s.producers[p]).None? && s.free != []
    ensures SlotsOk(ProducerTakes(s, p, task))
  {
    var x := s.free[0];
    Pop(s.free, s.place, InFree, WithProducer(p));
    Elsewhere(s.tasks, s.place, InTasks, x, WithProducer(p));
    ProducerHand(s.producers, s.place, p, PUnlockFree(task, x), x, WithProducer(p));
    NotInHand(s.workers, s.producers, s.place, x, WithProducer(p));
  }

  lemma ProducerSubmitsKeepsSlots(s: Pool, p: nat)
    requires SlotsOk(s) && p < |s.producers| && s.producers[p].PPutTask?
    ensures SlotsOk(ProducerSubmits(s, p, s.producers[p].task, s.producers[p].slot))
    ensures ProducerSubmits(s, p, s.producers[p].task, s.producers[p].slot).producers[p] == PSizeTasks
  {
    var x := s.producers[p].slot;
    EnqueueSucceeds(s, s.tasks, InTasks, x);
    Push(s.tasks, s.place, InTasks, x);
    Elsewhere(s.free, s.place, InFree, x, InTasks);
    ProducerHand(s.producers, s.place, p, PSizeTasks, x, InTasks);
    NotInHand(s.workers, s.producers, s.place, x, InTasks);
  }

  /** The worker steps that leave every slot where it is. */
  predicate WorkerHandsIdle(s: Pool, i: nat) {
    && i < |s.workers|
    && !s.workers[i].WStart? && !s.workers[i].WPutFree?
    && !(s.workers[i].WTake? && s.tasks != [])
  }

  lemma WorkerMovesNoSlot(s: Pool, i: nat)
    requires WorkerEnabled(s, i) && WorkerHandsIdle(s, i)
    ensures var s' := WorkerNext(s, i);
            && |s'.slots| == |s.slots| && s'.place == s.place && s'.free == s.free && s'.tasks == s.tasks
            && i < |s'.workers| && s'.workers == s.workers[i := s'.workers[i]]
            && WorkerSlot(s'.workers[i]) == WorkerSlot(s.workers[i])
            && (s'.producers == s.producers || s'.producers == WakeProducers(s.producers))
  {
  }

  lemma WorkerMovesKeepSlots(s: Pool, i: nat)
    requires SlotsOk(s) && WorkerEnabled(s, i) && WorkerHandsIdle(s, i)
    ensures SlotsOk(WorkerNext(s, i))
  {
    var s' := WorkerNext(s, i);
    WorkerMovesNoSlot(s, i);
    WorkerHandStays(s.workers, s.place, i, s'.workers[i]);
    BroadcastKeepsHands(s'.workers, s.producers, s.place);
  }

  lemma WorkerKeepsSlots(s: Pool, i: nat)
    requires SlotsOk(s) && WorkerEnabled(s, i)
    ensures SlotsOk(WorkerNext(s, i))
  {
    if WorkerHandsIdle(s, i) {
      WorkerMovesKeepSlots(s, i);
    } else if s.workers[i].WStart? {
      WorkerStartsKeepsSlots(s, i);
    } else if s.workers[i].WPutFree? {
      WorkerReturnsKeepsSlots(s, i);
    } else {
      WorkerTakesKeepsSlots(s, i);
    }
  }

  predicate ProducerHandsIdle(s: Pool, p: nat) {
    && p < |s.producers|
    && !s.producers[p].PPutTask?
    && !(s.producers[p].PTestFree? && s.free != [])
  }

  lemma ProducerMovesNoSlot(s: Pool, p: nat)
    requires ProducerEnabled(s, p) && ProducerHandsIdle(s, p)
    ensures var s' := ProducerNext(s, p);
            && |s'.slots| == |s.slots| && s'.place == s.place && s'.free == s.free && s'.tasks == s.tasks
            && p < |s'.producers| && s'.producers == s.producers[p := s'.producers[p]]
            && ProducerSlot(s'.producers[p]) == ProducerSlot(s.producers[p])
            && (s'.workers == s.workers || s'.workers == WakeWorkers(s.workers))
  {
  }

  lemma ProducerMovesKeepSlots(s: Pool, p: nat)
    requires SlotsOk(s) && ProducerEnabled(s, p) && ProducerHandsIdle(s, p)
    ensures SlotsOk(ProducerNext(s, p))
  {
    var s' := ProducerNext(s, p);
    ProducerMovesNoSlot(s, p);
    ProducerHandStays(s.producers, s.place, p, s'.producers[p]);
    BroadcastKeepsHands(s.workers, s'.producers, s.place);
  }

  lemma ProducerKeepsSlots(s: Pool, p: nat)
    requires SlotsOk(s) && ProducerEnabled(s, p)
    ensures SlotsOk(ProducerNext(s, p))
  {
    if ProducerHandsIdle(s, p) {
      ProducerMovesKeepSlots(s, p);
    } else if s.producers[p].PPutTask? {
      ProducerSubmitsKeepsSlots(s, p);
    } else {
      ProducerTakesKeepsSlots(s, p, s.producers[p].task);
    }
  }

  lemma StepKeepsSlots(s: Pool, step: Step)
    requires SlotsOk(s) && Enabled(s, step)
    ensures SlotsOk(Apply(s, step))
  {
    match step
    case WorkerStep(i) => WorkerKeepsSlots(s, i);
    case ProducerStep(p) => ProducerKeepsSlots(s, p);
    case SpuriousWorker(i) => WorkerHandStays(s.workers, s.place, i, WWoken);
    case SpuriousProducer(p) => ProducerHandStays(s.producers, s.place, p, PWoken(s.producers[p].task));
    case Call(p, task, blocking) => ProducerHandStays(s.producers, s.place, p, PLockFree(task, blocking));
    case StopStep => BroadcastKeepsHands(s.workers, s.producers, s.place);
  }
}
