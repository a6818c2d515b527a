/** What a NULL routine costs: a task that is taken from the queue and has no routine is
    dropped, and its slot is not returned. Lost slots and dropped tasks are equally many. */
module PoolLosses {
  import opened Collections
  import opened RingQueue
  import opened ThreadPool
  import opened PoolSlots
  import opened PoolWakeups
  import opened PoolTickets

  // ---------- counting ----------

  /** The slots in one place. */
  function CountPlace(place: seq<Place>, tag: Place): nat {
    if place == [] then 0
    else CountPlace(place[..|place| - 1], tag) + if place[|place| - 1] == tag then 1 else 0
  }

  lemma {:induction false} MoveSlot(place: seq<Place>, x: nat, to: Place, tag: Place)
    requires x < |place|
    ensures CountPlace(place[x := to], tag) ==
            CountPlace(place, tag) - (if place[x] == tag then 1 else 0) + (if to == tag then 1 else 0)
  {
    var n := |place| - 1;
    if x == n {
      assert place[x := to][..n] == place[..n];
    } else {
      assert place[x := to][..n] == place[..n][x := to];
      MoveSlot(place[..n], x, to, tag);
    }
  }

  function CountFate(fate: seq<Fate>): nat {
    if fate == [] then 0
    else CountFate(fate[..|fate| - 1]) + if fate[|fate| - 1] == Dropped then 1 else 0
  }

  lemma {:induction false} SetFate(fate: seq<Fate>, k: nat, f: Fate)
    requires k < |fate|
    ensures CountFate(fate[k := f]) ==
            CountFate(fate) - (if fate[k] == Dropped then 1 else 0) + (if f == Dropped then 1 else 0)
  {
    var n := |fate| - 1;
    if k == n {
      assert fate[k := f][..n] == fate[..n];
    } else {
      assert fate[k := f][..n] == fate[..n][k := f];
      SetFate(fate[..n], k, f);
    }
  }

  /** The submissions without a routine. */
  function CountNull(submitted: seq<Task>): nat {
    if submitted == [] then 0
    else CountNull(submitted[..|submitted| - 1]) + if submitted[|submitted| - 1].routine == 0 then 1 else 0
  }

  // ---------- the invariant ----------

  ghost predicate LossesOk(s: Pool) {
    CountPlace(s.place, Lost) == CountFate(s.fate)
  }

  lemma TakeKeepsLosses(s: Pool, i: nat)
    requires SlotsOk(s) && LossesOk(s) && i < |s.workers| && s.tasks != []
    ensures LossesOk(WorkerTakes(s, i))
  {
    assert s.tasks[0] in s.tasks;
    MoveSlot(s.place, s.tasks[0], WithWorker(i), Lost);
    assert (s.fate + [Held(i)])[..|s.fate|] == s.fate;
  }

  lemma StartKeepsLosses(s: Pool, i: nat)
    requires SlotsOk(s) && TicketsOk(s) && LossesOk(s) && i < |s.workers| && s.workers[i].WStart?
    ensures LossesOk(WorkerStarts(s, i, s.workers[i].job))
  {
    var job := s.workers[i].job;
    assert WorkerJob(s.workers[i]) == Some(job) && WorkerSlot(s.workers[i]) == Some(job.slot);
    MoveSlot(s.place, job.slot, Lost, Lost);
    SetFate(s.fate, job.ticket, Begun(Slot(s, job.slot)));
    SetFate(s.fate, job.ticket, Dropped);
  }

  lemma ReturnKeepsLosses(s: Pool, i: nat)
    requires SlotsOk(s) && LossesOk(s) && i < |s.workers| && s.workers[i].WPutFree?
    ensures LossesOk(WorkerReturns(s, i, s.workers[i].slot))
  {
    assert WorkerSlot(s.workers[i]) == Some(s.workers[i].slot);
    MoveSlot(s.place, s.workers[i].slot, InFree, Lost);
  }

  lemma WorkerPlaceFrame(s: Pool, i: nat)
    requires WorkerEnabled(s, i)
    ensures var s' := WorkerNext(s, i);
            s.workers[i].WTake? || s.workers[i].WStart? || s.workers[i].WPutFree? ||
            (s'.place == s.place && s'.fate == s.fate)
  {
  }

  lemma WorkerKeepsLosses(s: Pool, i: nat)
    requires Inv(s) && TicketsOk(s) && LossesOk(s) && WorkerEnabled(s, i)
    ensures LossesOk(WorkerNext(s, i))
  {
    WorkerPlaceFrame(s, i);
    match s.workers[i]
    case WTake => TakeKeepsLosses(s, i);
    case WStart(_) => StartKeepsLosses(s, i);
    case WPutFree(_) => ReturnKeepsLosses(s, i);
    case _ =>
  }

  lemma ProducerPlaceFrame(s: Pool, p: nat)
    requires ProducerEnabled(s, p)
    ensures var s' := ProducerNext(s, p);
      && s'.fate == s.fate
      && (s.producers[p].PPutTask? || (s.producers[p].PTestFree? && s.free != []) || s'.place == s.place)
  {
  }

  lemma SubmitKeepsLosses(s: Pool, p: nat)
    requires SlotsOk(s) && LossesOk(s) && p < |s.producers| && s.producers[p].PPutTask?
    ensures LossesOk(ProducerSubmits(s, p, s.producers[p].task, s.producers[p].slot))
  {
    assert ProducerSlot(s.producers[p]) == Some(s.producers[p].slot);
    MoveSlot(s.place, s.producers[p].slot, InTasks, Lost);
  }

  lemma ProducerKeepsLosses(s: Pool, p: nat)
    requires Inv(s) && TicketsOk(s) && LossesOk(s) && ProducerEnabled(s, p)
    ensures LossesOk(ProducerNext(s, p))
  {
    ProducerPlaceFrame(s, p);
    if s.producers[p].PPutTask? {
      SubmitKeepsLosses(s, p);
    } else if s.producers[p].PTestFree? && s.free != [] {
      assert s.free[0] in s.free;
      MoveSlot(s.place, s.free[0], WithProducer(p), Lost);
    }
  }

  lemma StepKeepsLosses(s: Pool, step: Step)
    requires Inv(s) && TicketsOk(s) && LossesOk(s) && Enabled(s, step)
    ensures LossesOk(Apply(s, step))
  {
    match step
    case WorkerStep(i) => WorkerKeepsLosses(s, i);
    case ProducerStep(p) => ProducerKeepsLosses(s, p);
    case _ =>
  }

  // ---------- counts and sets ----------

  ghost function SlotsIn(place: seq<Place>, tag: Place): set<nat> {
    set x: nat | x < |place| && place[x] == tag
  }

  lemma {:induction false} SlotsInSize(place: seq<Place>, tag: Place)
    ensures |SlotsIn(place, tag)| == CountPlace(place, tag)
  {
    if place == [] {
      assert SlotsIn(place, tag) == {};
    } else {
      var n := |place| - 1;
      SlotsInSize(place[..n], tag);
      if place[n] == tag {
        assert SlotsIn(place, tag) == SlotsIn(place[..n], tag) + {n};
      } else {
        assert SlotsIn(place, tag) == SlotsIn(place[..n], tag);
      }
    }
  }

  ghost function DroppedTickets(fate: seq<Fate>): set<nat> {
    set k: nat | k < |fate| && fate[k] == Dropped
  }

  lemma {:induction false} DroppedTicketsSize(fate: seq<Fate>)
    ensures |DroppedTickets(fate)| == CountFate(fate)
  {
    if fate == [] {
      assert DroppedTickets(fate) == {};
    } else {
      var n := |fate| - 1;
      DroppedTicketsSize(fate[..n]);
      if fate[n] == Dropped {
        assert DroppedTickets(fate) == DroppedTickets(fate[..n]) + {n};
      } else {
        assert DroppedTickets(fate) == DroppedTickets(fate[..n]);
      }
    }
  }

  ghost function Elements(q: seq<nat>): set<nat> {
    set x | x in q
  }

  lemma {:induction false} DistinctSize(q: seq<nat>)
    requires Distinct(q)
    ensures |Elements(q)| == |q|
  {
    if q == [] {
      assert Elements(q) == {};
    } else {
      var n := |q| - 1;
      DistinctSize(q[..n]);
      assert q == q[..n] + [q[n]];
      assert Elements(q) == Elements(q[..n]) + {q[n]};
      assert q[n] !in q[..n];
    }
  }

  lemma QueueSize(q: seq<nat>, place: seq<Place>, tag: Place)
    requires QueueOk(q, place, tag)
    ensures |q| == CountPlace(place, tag)
  {
    DistinctSize(q);
    SlotsInSize(place, tag);
    assert Elements(q) == SlotsIn(place, tag);
  }

  lemma {:induction false} TwoPlaces(place: seq<Place>, a: Place, b: Place)
    requires a != b && forall x | 0 <= x < |place| :: place[x] == a || place[x] == b
    ensures CountPlace(place, a) + CountPlace(place, b) == |place|
  {
    if place != [] {
      TwoPlaces(place[..|place| - 1], a, b);
    }
  }

  lemma {:induction false} AllDecided(fate: seq<Fate>, submitted: seq<Task>)
    requires |fate| == |submitted|
    requires forall k | 0 <= k < |fate| :: fate[k] == Dropped <==> submitted[k].routine == 0
    ensures CountFate(fate) == CountNull(submitted)
  {
    if fate != [] {
      AllDecided(fate[..|fate| - 1], submitted[..|fate| - 1]);
    }
  }
}
