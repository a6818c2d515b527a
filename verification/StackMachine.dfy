/** The main loop of exec_trap (src/exec.c:747-757) as a machine over values: pop an item,
    run it, push what it leads to. What running an item does is left open. */
module StackMachine {
  import opened Collections

  /** The outcome of running one item: its result, unless the trap is abandoned, and the items
      it pushed. */
  datatype Run<T, R> = Run(result: Option<R>, pushed: seq<T>)

  // ---------- reading one item's output ----------

  /** What a line means: a complete result, or a partial one that pushes items first; `ok` says
      whether there was something to push and all of it could be. */
  datatype Verdict<T, R> = Complete(r: R) | Partial(r: R, pushed: seq<T>, ok: bool)

  /** The loop of stack_run: the lines are read up to the first complete result. */
  function ReadLines<T, R>(judge: string -> Verdict<T, R>, lines: seq<string>, last: Option<R>): Run<T, R> {
    if lines == [] then Run(last, [])
    else
      match judge(lines[0])
      case Complete(r) => Run(Some(r), [])
      case Partial(r, pushed, ok) =>
        if ok then After(pushed, ReadLines(judge, lines[1..], Some(r))) else Run(None, pushed)
  }

  function After<T, R>(pushed: seq<T>, run: Run<T, R>): Run<T, R> {
    Run(run.result, pushed + run.pushed)
  }

  lemma ReadStep<T, R>(judge: string -> Verdict<T, R>, lines: seq<string>, i: nat, last: Option<R>, done: seq<T>)
    requires i < |lines|
    ensures After(done, ReadLines(judge, lines[i..], last)) ==
      match judge(lines[i])
      case Complete(r) => Run(Some(r), done)
      case Partial(r, pushed, ok) =>
        if ok then After(done + pushed, ReadLines(judge, lines[i + 1..], Some(r))) else Run(None, done + pushed)
  {
    assert lines[i..][1..] == lines[i + 1..];
    assert done + [] == done;
  }

  /** A plugin's result is that of its first complete line, else that of its last line; every
      line before it has had its items pushed, in order. */
  lemma {:induction false} ReadLinesStopsAt<T, R>(judge: string -> Verdict<T, R>, lines: seq<string>, last: Option<R>,
                                                  i: nat)
    requires i <= |lines| && forall j | 0 <= j < i :: judge(lines[j]).Partial? && judge(lines[j]).ok
    requires i < |lines| ==> judge(lines[i]).Complete? || !judge(lines[i]).ok
    ensures var run := ReadLines(judge, lines, last);
      if i < |lines| then
        run.result == (if judge(lines[i]).Complete? then Some(judge(lines[i]).r) else None)
      else run.result == if lines == [] then last else Some(judge(lines[i - 1]).r)
    ensures ReadLines(judge, lines, last).pushed ==
      PushedBy(judge, lines[..i]) + if i < |lines| && judge(lines[i]).Partial? then judge(lines[i]).pushed else []
  {
    if i > 0 {
      ReadLinesStopsAt(judge, lines[1..], Some(judge(lines[0]).r), i - 1);
      assert lines[..i][1..] == lines[1..][..i - 1];
    }
  }

  function PushedBy<T, R>(judge: string -> Verdict<T, R>, lines: seq<string>): seq<T>
  {
    if lines == [] || judge(lines[0]).Complete? then []
    else judge(lines[0]).pushed + PushedBy(judge, lines[1..])
  }

  // ---------- the machine ----------

  /** What happened: whether the stack was emptied, the items run and the results handed to
      the output gate, how many items were pushed, and what is left on the stack. */
  datatype Outcome<T, R> = Outcome(ok: bool, runs: seq<T>, results: seq<R>, pushed: nat, left: seq<T>)

  /** The loop with `k` items run so far and the top of the stack last. An item's outcome may
      depend on how many were run before it. */
  function RunAll<T, R>(step: (nat, T) -> Run<T, R>, max: int, k: nat, stack: seq<T>): Outcome<T, R>
    decreases if k <= max then max + 1 - k else 0
  {
    if stack == [] then Outcome(true, [], [], 0, [])
    else if k > max then Outcome(false, [], [], 0, stack)
    else
      var n := |stack| - 1;
      var run := step(k, stack[n]);
      if run.result.None? then Outcome(false, [stack[n]], [], |run.pushed|, stack[..n] + run.pushed)
      else First(stack[n], run, RunAll(step, max, k + 1, stack[..n] + run.pushed))
  }

  /** One successful run, then the rest. */
  function First<T, R>(item: T, run: Run<T, R>, o: Outcome<T, R>): Outcome<T, R>
    requires run.result.Some?
  {
    Outcome(o.ok, [item] + o.runs, [run.result.value] + o.results, |run.pushed| + o.pushed, o.left)
  }

  /** One outcome after another. */
  function Then<T, R>(first: Outcome<T, R>, second: Outcome<T, R>): Outcome<T, R> {
    Outcome(second.ok, first.runs + second.runs, first.results + second.results,
            first.pushed + second.pushed, second.left)
  }

  /** Whatever the items lead to, at most max + 1 of them are run. */
  lemma {:induction false} RunsAreBounded<T, R>(step: (nat, T) -> Run<T, R>, max: int, k: nat, stack: seq<T>)
    ensures |RunAll(step, max, k, stack).runs| <= if k <= max then max + 1 - k else 0
    decreases if k <= max then max + 1 - k else 0
  {
    if stack != [] && k <= max {
      var n := |stack| - 1;
      RunsAreBounded(step, max, k + 1, stack[..n] + step(k, stack[n]).pushed);
    }
  }

  /** The depth is pushes minus pops; a trap that is handled to the end leaves nothing. */
  lemma {:induction false} DepthIsPushesMinusPops<T, R>(step: (nat, T) -> Run<T, R>, max: int, k: nat, stack: seq<T>)
    ensures var o := RunAll(step, max, k, stack); |o.left| == |stack| + o.pushed - |o.runs| && (o.ok ==> o.left == [])
    decreases if k <= max then max + 1 - k else 0
  {
    if stack != [] && k <= max {
      var n := |stack| - 1;
      DepthIsPushesMinusPops(step, max, k + 1, stack[..n] + step(k, stack[n]).pushed);
    }
  }

  /** The i-th result is what the i-th run gave; only the last run may lack one. */
  lemma {:induction false} ResultsMatchRuns<T, R>(step: (nat, T) -> Run<T, R>, max: int, k: nat, stack: seq<T>, i: nat)
    ensures var o := RunAll(step, max, k, stack);
      && |o.results| <= |o.runs| <= |o.results| + 1 && (o.ok ==> |o.results| == |o.runs|)
      && (i < |o.results| ==> step(k + i, o.runs[i]).result == Some(o.results[i]))
    decreases if k <= max then max + 1 - k else 0
  {
    if stack != [] && k <= max {
      var n := |stack| - 1;
      ResultsMatchRuns(step, max, k + 1, stack[..n] + step(k, stack[n]).pushed, if i > 0 then i - 1 else 0);
    }
  }

  /** A trap is abandoned only when the budget is used up or a run has no result. */
  lemma {:induction false} WhyAbandoned<T, R>(step: (nat, T) -> Run<T, R>, max: int, k: nat, stack: seq<T>)
    ensures var o := RunAll(step, max, k, stack);
      !o.ok <==>
        || (|o.runs| == |o.results| && k + |o.runs| > max && o.left != [])
        || (|o.runs| > |o.results| && step(k + |o.results|, o.runs[|o.results|]).result.None?)
    decreases if k <= max then max + 1 - k else 0
  {
    if stack != [] && k <= max {
      var n := |stack| - 1;
      ResultsMatchRuns(step, max, k + 1, stack[..n] + step(k, stack[n]).pushed, 0);
      WhyAbandoned(step, max, k + 1, stack[..n] + step(k, stack[n]).pushed);
    }
  }

  /** What has happened so far, followed by what is still to come, is the whole run. */
  ghost predicate OnTheWay<T, R>(step: (nat, T) -> Run<T, R>, max: int, goal: Outcome<T, R>, results: seq<R>, k: nat,
                                 stack: seq<T>) {
    var rest := RunAll(step, max, k, stack);
    goal.ok == rest.ok && goal.results == results + rest.results && |goal.runs| == k + |rest.runs|
  }

  /** The loop invariant of the main loop, kept by one turn that gives `run`. */
  lemma NextOnTheWay<T, R>(step: (nat, T) -> Run<T, R>, max: int, goal: Outcome<T, R>, results: seq<R>, k: nat,
                           below: seq<T>, top: T, run: Run<T, R>)
    requires OnTheWay(step, max, goal, results, k, below + [top])
    requires k <= max ==> run == step(k, top)
    ensures k > max || run.result.None? ==>
            !goal.ok && goal.results == results && |goal.runs| == if k > max then k else k + 1
    ensures k <= max && run.result.Some? ==>
      OnTheWay(step, max, goal, results + [run.result.value], k + 1, below + run.pushed)
  {
    Unfold(step, max, k, below, top);
    if k <= max && run.result.Some? {
      var o := RunAll(step, max, k + 1, below + run.pushed);
      assert results + [run.result.value] + o.results == results + ([run.result.value] + o.results);
    }
  }

  // ---------- the loop's history ----------

  /** The turns of the loop so far, each with the stack it found. */
  datatype Log<T, R> = Begin(start: seq<T>) | Ran(before: Log<T, R>, below: seq<T>, top: T, pushed: seq<T>, result: R)

  function StackAfter<T, R>(log: Log<T, R>): seq<T> {
    if log.Begin? then log.start else log.below + log.pushed
  }

  function Count<T, R>(log: Log<T, R>): nat {
    if log.Begin? then 0 else Count(log.before) + 1
  }

  function ResultsOf<T, R>(log: Log<T, R>): seq<R> {
    if log.Begin? then [] else ResultsOf(log.before) + [log.result]
  }

  /** Every turn ran the item on top, within the budget; `goal` is the whole run from the
      stack at the start. */
  ghost predicate Obeys<T, R>(step: (nat, T) -> Run<T, R>, max: int, goal: Outcome<T, R>, log: Log<T, R>) {
    match log
    case Begin(start) => goal == RunAll(step, max, 0, start)
    case Ran(before, below, top, pushed, result) =>
      && Obeys(step, max, goal, before) && StackAfter(before) == below + [top]
      && Count(before) <= max && step(Count(before), top) == Run(Some(result), pushed)
  }

  /** The log is the part of the whole run that has happened. */
  lemma {:induction false} LogIsOnTheWay<T, R>(step: (nat, T) -> Run<T, R>, max: int, goal: Outcome<T, R>,
                                               log: Log<T, R>)
    requires Obeys(step, max, goal, log)
    ensures OnTheWay(step, max, goal, ResultsOf(log), Count(log), StackAfter(log))
  {
    if log.Ran? {
      LogIsOnTheWay(step, max, goal, log.before);
      NextOnTheWay(step, max, goal, ResultsOf(log.before), Count(log.before), log.below, log.top,
                   Run(Some(log.result), log.pushed));
    }
  }

  /** The results so far are the first results of the whole run. */
  lemma LogIsPrefix<T, R>(step: (nat, T) -> Run<T, R>, max: int, goal: Outcome<T, R>, log: Log<T, R>)
    requires Obeys(step, max, goal, log)
    ensures ResultsOf(log) <= goal.results
  {
    LogIsOnTheWay(step, max, goal, log);
  }

  /** The loop ends with an empty stack, */
  lemma LogEnds<T, R>(step: (nat, T) -> Run<T, R>, max: int, goal: Outcome<T, R>, log: Log<T, R>)
    requires Obeys(step, max, goal, log) && StackAfter(log) == []
    ensures goal.ok && goal.results == ResultsOf(log) && |goal.runs| == Count(log)
  {
    LogIsOnTheWay(step, max, goal, log);
  }

  /** or is abandoned at the item on top. */
  lemma LogBreaksOff<T, R>(step: (nat, T) -> Run<T, R>, max: int, goal: Outcome<T, R>, log: Log<T, R>, below: seq<T>,
                           top: T)
    requires Obeys(step, max, goal, log) && StackAfter(log) == below + [top]
    requires Count(log) > max || step(Count(log), top).result.None?
    ensures !goal.ok && goal.results == ResultsOf(log)
    ensures |goal.runs| == if Count(log) > max then Count(log) else Count(log) + 1
  {
    LogIsOnTheWay(step, max, goal, log);
    NextOnTheWay(step, max, goal, ResultsOf(log), Count(log), below, top, step(Count(log), top));
  }

  // ---------- what all results have ----------

  /** A turn on a good item pushes good items and has a fine result. */
  predicate TurnKeeps<T, R>(step: (nat, T) -> Run<T, R>, k: nat, x: T, good: T -> bool, fine: R -> bool) {
    && (step(k, x).result.Some? ==> fine(step(k, x).result.value))
    && forall i | 0 <= i < |step(k, x).pushed| :: good(step(k, x).pushed[i])
  }

  lemma {:induction false} ResultsHave<T, R>(step: (nat, T) -> Run<T, R>, max: int, k: nat, stack: seq<T>,
                                             good: T -> bool, fine: R -> bool)
    requires forall i | 0 <= i < |stack| :: good(stack[i])
    requires forall j: nat, x: T | good(x) :: TurnKeeps(step, j, x, good, fine)
    ensures forall i | 0 <= i < |RunAll(step, max, k, stack).results| :: fine(RunAll(step, max, k, stack).results[i])
    decreases if k <= max then max + 1 - k else 0
  {
    if stack != [] && k <= max {
      var n := |stack| - 1;
      assert TurnKeeps(step, k, stack[n], good, fine);
      var rest := stack[..n] + step(k, stack[n]).pushed;
      ResultsHave(step, max, k + 1, rest, good, fine);
    }
  }

  // ---------- order ----------

  /** Items on top run to the end, with everything they push, before those below are touched;
      if they fail, those below stay where they are. */
  lemma {:induction false} TopRunsFirst<T, R>(step: (nat, T) -> Run<T, R>, max: int, k: nat, below: seq<T>,
                                              above: seq<T>)
    ensures var o := RunAll(step, max, k, above);
      RunAll(step, max, k, below + above) ==
        if o.ok then Then(o, RunAll(step, max, k + |o.runs|, below)) else o.(left := below + o.left)
    decreases if k <= max then max + 1 - k else 0
  {
    if above == [] {
      assert below + above == below;
      NothingFirst(RunAll(step, max, k, below));
    } else {
      var n := |above| - 1;
      var run := step(k, above[n]);
      var rest := above[..n] + run.pushed;
      Regroup(below, above, run.pushed);
      Unfold(step, max, k, above[..n], above[n]);
      Unfold(step, max, k, below + above[..n], above[n]);
      if k <= max && run.result.Some? {
        TopRunsFirst(step, max, k + 1, below, rest);
        var o := RunAll(step, max, k + 1, rest);
        FirstStacked(above[n], run, below, o, RunAll(step, max, k + 1, below + rest),
                     RunAll(step, max, k + 1 + |o.runs|, below));
      }
    }
  }

  lemma Regroup<T>(below: seq<T>, above: seq<T>, pushed: seq<T>)
    requires above != []
    ensures var n := |above| - 1;
      && above == above[..n] + [above[n]]
      && below + above == below + above[..n] + [above[n]]
      && below + above[..n] + pushed == below + (above[..n] + pushed)
  {
  }

  /** One turn of the loop. */
  lemma Unfold<T, R>(step: (nat, T) -> Run<T, R>, max: int, k: nat, rest: seq<T>, item: T)
    ensures k > max ==> RunAll(step, max, k, rest + [item]) == Outcome(false, [], [], 0, rest + [item])
    ensures k <= max ==>
      var run := step(k, item);
      RunAll(step, max, k, rest + [item]) ==
        if run.result.None? then Outcome(false, [item], [], |run.pushed|, rest + run.pushed)
        else First(item, run, RunAll(step, max, k + 1, rest + run.pushed))
  {
    assert (rest + [item])[..|rest|] == rest;
  }

  lemma NothingFirst<T, R>(o: Outcome<T, R>)
    ensures Then(Outcome(true, [], [], 0, []), o) == o
  {
  }

  /** A turn before a run on top of others is a turn before all of it. */
  lemma FirstStacked<T, R>(item: T, run: Run<T, R>, below: seq<T>, o: Outcome<T, R>, whole: Outcome<T, R>,
                           next: Outcome<T, R>)
    requires run.result.Some?
    requires whole == if o.ok then Then(o, next) else o.(left := below + o.left)
    ensures var o' := First(item, run, o);
      First(item, run, whole) == (if o.ok then Then(o', next) else o'.(left := below + o'.left))
        && |o'.runs| == 1 + |o.runs|
  {
  }

  /** Of the items pushed from one list the last is run first, then whatever it pushed, and
      only then the others. */
  lemma LastPushedRunsFirst<T, R>(step: (nat, T) -> Run<T, R>, max: int, k: nat, stack: seq<T>, list: seq<T>)
    requires list != []
    ensures var n := |list| - 1; var o := RunAll(step, max, k, [list[n]]);
      RunAll(step, max, k, stack + list) ==
        if o.ok then Then(o, RunAll(step, max, k + |o.runs|, stack + list[..n]))
        else o.(left := stack + list[..n] + o.left)
  {
    var n := |list| - 1;
    assert stack + list == stack + list[..n] + [list[n]];
    TopRunsFirst(step, max, k, stack + list[..n], [list[n]]);
  }

  /** A plugin whose result needs no follow-up, whenever it is run. */
  ghost predicate Settles<T, R>(step: (nat, T) -> Run<T, R>, item: T) {
    forall k: nat :: step(k, item).result.Some? && step(k, item).pushed == []
  }

  function Reversed<T>(items: seq<T>): seq<T> {
    if items == [] then [] else [items[|items| - 1]] + Reversed(items[..|items| - 1])
  }

  /** Items that need no follow-up are run in the reverse of the order they were pushed in. */
  lemma {:induction false} ListRunsBackwards<T, R>(step: (nat, T) -> Run<T, R>, max: int, k: nat, list: seq<T>)
    requires k + |list| <= max + 1
    requires forall i | 0 <= i < |list| :: Settles(step, list[i])
    ensures var o := RunAll(step, max, k, list); o.ok && o.runs == Reversed(list)
    decreases |list|
  {
    if list != [] {
      var n := |list| - 1;
      assert Settles(step, list[n]);
      assert list[..n] + [] == list[..n];
      ListRunsBackwards(step, max, k + 1, list[..n]);
    }
  }
}
