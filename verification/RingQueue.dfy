/** The thread pool's ring buffer (src/threadpool.c) and the bounded queue it implements. */
module RingQueue {
  import opened Collections

  // ---------- the abstract queue ----------

  /** Enqueue on a queue of capacity `cap`; refused when full. */
  function Put<T>(cap: nat, q: seq<T>, x: T): (r: (bool, seq<T>)) {
    if |q| == cap then (false, q) else (true, q + [x])
  }

  /** Dequeue; NULL from an empty queue. */
  function Take<T>(q: seq<T>): (r: (Option<T>, seq<T>)) {
    if q == [] then (None, q) else (Some(q[0]), q[1..])
  }

  // ---------- the ring buffer ----------

  class Queue<T> {
    var cells: array<Option<T>>
    var head: nat
    var tail: nat
    var numOfCells: nat
    ghost var contents: seq<T>

    /** Distance of a cell from the head, going round the end of the array. */
    static function Offset(head: nat, size: nat, cell: nat): nat
      requires head <= size && cell < size
    {
      if head <= cell then cell - head else cell - head + size
    }

    ghost predicate Valid()
      reads this, cells
    {
      && 0 < cells.Length && head < cells.Length && tail < cells.Length
      && numOfCells == |contents| <= cells.Length
      && (numOfCells < cells.Length ==> Offset(head, cells.Length, tail) == numOfCells)
      && (numOfCells == cells.Length ==> tail == head)
      && (forall c | 0 <= c < cells.Length ::
            cells[c] == (var k := Offset(head, cells.Length, c); if k < |contents| then Some(contents[k]) else None))
    }

    /** threadpool_queue_init */
    constructor (size: nat)
      requires 0 < size
      ensures Valid() && contents == [] && cells.Length == size && fresh(cells)
    {
      cells := new Option[size](_ => None);
      head, tail, numOfCells, contents := 0, 0, 0, [];
    }

    /** threadpool_queue_enqueue. The second refusal, an occupied tail cell, never happens. */
    method Enqueue(x: T) returns (ok: bool)
      requires Valid()
      modifies this, cells
      ensures Valid() && cells == old(cells)
      ensures (ok, contents) == Put(cells.Length, old(contents), x)
    {
      if numOfCells == cells.Length {
        return false;
      }
      if cells[tail] != None {
        assert false;
        return false;
      }
      cells[tail] := Some(x);
      numOfCells := numOfCells + 1;
      tail := tail + 1;
      if tail == cells.Length {
        tail := 0;
      }
      contents := contents + [x];
      ok := true;
    }

    /** threadpool_queue_dequeue; an emptied ring starts again at cell 0. */
    method Dequeue() returns (x: Option<T>)
      requires Valid()
      modifies this, cells
      ensures Valid() && cells == old(cells)
      ensures (x, contents) == Take(old(contents))
    {
      if numOfCells == 0 {
        return None;
      }
      x := cells[head];
      cells[head] := None;
      numOfCells := numOfCells - 1;
      if numOfCells == 0 {
        head, tail := 0, 0;
      } else {
        head := head + 1;
        if head == cells.Length {
          head := 0;
        }
      }
      contents := contents[1..];
    }

    /** threadpool_queue_is_empty and threadpool_queue_getsize */
    method Size() returns (n: nat)
      requires Valid()
      ensures n == |contents|
    {
      n := numOfCells;
    }
  }

  /** threadpool_init's loop: every slot number enters the free queue, in order. */
  method FillFreeQueue(size: nat) returns (q: Queue<nat>)
    requires 0 < size
    ensures fresh(q) && fresh(q.cells) && q.Valid() && q.cells.Length == size
    ensures q.contents == seq(size, i => i)
  {
    q := new Queue(size);
    var i := 0;
    while i < size
      invariant i <= size
      invariant fresh(q) && fresh(q.cells) && q.Valid() && q.cells.Length == size
      invariant q.contents == seq(i, k => k)
    {
      var ok := q.Enqueue(i);
      i := i + 1;
    }
  }
}
