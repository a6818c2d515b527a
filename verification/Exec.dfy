/** The code that runs a trap's plugins (src/exec.c). */
module Exec {
  import opened Collections
  import opened CStrings
  import opened HostIndex
  import opened Execlist
  import opened Results
  import opened StackMachine
  import opened Plugins
  import Stack

  /** Only lines with seven fields are parsed without following a NULL pointer. */
  ghost predicate PluginsPrintFields(plugin: (nat, string) -> seq<string>) {
    forall k, c :: AllWellFormed(plugin(k, c))
  }

  predicate AllWellFormed(lines: seq<string>) {
    forall i | 0 <= i < |lines| :: WellFormed(lines[i])
  }

  /** The tables that the environment's rows were loaded into. */
  ghost predicate Tables(env: Env, hosts: Index, svcs: Index)
    reads hosts, hosts.loaded, svcs, svcs.loaded
  {
    hosts.Valid() && svcs.Valid() && hosts.loaded == env.hosts && svcs.loaded == env.svcs
  }

  /** What stack_run relies on: loaded tables, a command that is not empty, and plugins whose
      lines have all fields. */
  ghost predicate Ready(env: Env, hosts: Index, svcs: Index)
    reads hosts, hosts.loaded, svcs, svcs.loaded
  {
    Tables(env, hosts, svcs) && env.command != Str("") && PluginsPrintFields(env.plugin)
  }

  lemma OneMoreItem(before: seq<Item>, items: seq<Item>, i: nat)
    requires i < |items|
    ensures before + items[..i] + [items[i]] == before + items[..i + 1]
  {
  }

  /** push_execlist */
  method PushExeclist(stack: Stack.Stack<Item>, list: List) returns (ok: bool)
    requires stack.Valid() && list.Valid()
    modifies stack
    ensures stack.Valid() && fresh(stack.repr - old(stack.repr)) && stack.executions == old(stack.executions)
    ensures stack.items == old(stack.items) + Runnable(list.items)
    ensures ok <==> Runnable(list.items) == list.items
  {
    var current := list.head;
    ghost var i, items, before := 0, list.items, stack.items;
    while current != null
      invariant i <= |list.nodes| && current == (if i < |list.nodes| then list.nodes[i] else null)
      invariant stack.Valid() && fresh(stack.repr - old(stack.repr)) && stack.executions == old(stack.executions)
      invariant stack.items == before + items[..i]
      invariant forall j | 0 <= j < i :: items[j].command.Str?
      decreases |list.nodes| - i
    {
      assert current.item == items[i];
      if current.item.command.Null? {
        RunnablePrefix(items, i);
        return false;
      }
      OneMoreItem(before, items, i);
      stack.Push(current.item);
      current := current.next;
      i := i + 1;
    }
    RunnablePrefix(items, i);
    assert items[..i] == items;
    ok := true;
  }

  /** execlist_build and push_execlist for one incomplete line. */
  method PushFollowUp(stack: Stack.Stack<Item>, env: Env, q: Request, hosts: Index, svcs: Index) returns (ok: bool)
    requires stack.Valid() && Tables(env, hosts, svcs) && q.command != Str("")
    modifies stack
    ensures stack.Valid() && fresh(stack.repr - old(stack.repr)) && stack.executions == old(stack.executions)
    ensures var more := Wanted(q, env.commands, env.hosts, env.svcs);
      && stack.items == old(stack.items) + Runnable(more)
      && (ok <==> Pushes(more))
  {
    var list := Build(q, env.commands, hosts, svcs);
    ok := list.head != null;
    if ok {
      ok := PushExeclist(stack, list);
    } else {
      assert list.items == [];
    }
  }

  /** One line of a plugin. */
  method ReadLine(stack: Stack.Stack<Item>, env: Env, item: Item, line: string, hosts: Index, svcs: Index)
    returns (r: Result, ok: bool, ghost pushed: seq<Item>)
    requires stack.Valid() && Tables(env, hosts, svcs) && env.command != Str("") && WellFormed(line)
    modifies stack
    ensures stack.Valid() && fresh(stack.repr - old(stack.repr)) && stack.executions == old(stack.executions)
    ensures Judge(env, item, line) == if r.complete then Complete(r) else Partial(r, pushed, ok)
    ensures stack.items == old(stack.items) + pushed && (r.complete ==> pushed == [])
  {
    r := ParseResult(line, item.isService, item.host, item.svc, env.useSender);
    ok, pushed := true, [];
    if !r.complete {
      pushed := Runnable(FollowUp(env, r));
      ok := PushFollowUp(stack, env, RequestFor(env, r.hostAddress, r.hostName), hosts, svcs);
    }
  }

  /** The body of the loop of stack_run: `done` has been pushed before. */
  method ReadNext(stack: Stack.Stack<Item>, env: Env, item: Item, lines: seq<string>, i: nat, last: Option<Result>,
                  hosts: Index, svcs: Index, ghost base: seq<Item>, ghost done: seq<Item>)
    returns (result: Option<Result>, stop: bool, ghost done': seq<Item>)
    requires stack.Valid() && Tables(env, hosts, svcs) && env.command != Str("")
    requires i < |lines| && WellFormed(lines[i]) && stack.items == base + done
    modifies stack
    ensures stack.Valid() && fresh(stack.repr - old(stack.repr)) && stack.executions == old(stack.executions)
    ensures stack.items == base + done'
    ensures After(done, ReadLines(JudgeOf(env, item), lines[i..], last)) ==
      if stop then Run(result, done') else After(done', ReadLines(JudgeOf(env, item), lines[i + 1..], result))
  {
    ReadStep(JudgeOf(env, item), lines, i, last, done);
    var r, ok;
    ghost var more;
    r, ok, more := ReadLine(stack, env, item, lines[i], hosts, svcs);
    Associate(base, done, more);
    done' := done + more;
    result := if r.complete || ok then Some(r) else None;
    stop := r.complete || !ok;
  }

  /** The loop of stack_run over the lines of a plugin. */
  method ReadAll(stack: Stack.Stack<Item>, env: Env, item: Item, lines: seq<string>, hosts: Index, svcs: Index)
    returns (result: Option<Result>, ghost pushed: seq<Item>)
    requires stack.Valid() && Tables(env, hosts, svcs) && env.command != Str("") && AllWellFormed(lines)
    modifies stack
    ensures stack.Valid() && fresh(stack.repr - old(stack.repr)) && stack.executions == old(stack.executions)
    ensures stack.items == old(stack.items) + pushed
    ensures Run(result, pushed) == ReadLines(JudgeOf(env, item), lines, None)
  {
    result, pushed := None, [];
    ghost var base, goal := stack.items, ReadLines(JudgeOf(env, item), lines, None);
    var i, stop := 0, false;
    assert lines[0..] == lines;
    while i < |lines| && !stop
      invariant i <= |lines| && stack.items == base + pushed
      invariant stack.Valid() && fresh(stack.repr - old(stack.repr)) && stack.executions == old(stack.executions)
      invariant goal == if stop then Run(result, pushed)
                else After(pushed, ReadLines(JudgeOf(env, item), lines[i..], result))
    {
      result, stop, pushed := ReadNext(stack, env, item, lines, i, result, hosts, svcs, base, pushed);
      i := i + 1;
    }
    assert goal == Run(result, pushed);
  }

  /** stack_run on a stack that is not empty; `top` is the item it pops. */
  method StackRun(stack: Stack.Stack<Item>, env: Env, hosts: Index, svcs: Index, ghost below: seq<Item>,
                  ghost top: Item)
    returns (result: Option<Result>, ghost pushed: seq<Item>)
    requires stack.Valid() && Ready(env, hosts, svcs)
    requires 0 <= stack.executions && stack.items == below + [top]
    modifies stack, stack.repr
    ensures stack.Valid() && fresh(stack.repr - old(stack.repr))
    ensures old(stack.executions) > env.max ==>
      result == None && stack.items == old(stack.items) && stack.executions == old(stack.executions)
    ensures old(stack.executions) <= env.max ==>
      && stack.executions == old(stack.executions) + 1 && stack.items == below + pushed
      && Run(result, pushed) == Step(env)(old(stack.executions), top)
  {
    if stack.executions > env.max {
      return None, [];
    }
    var k := stack.executions;
    var item := TakeTop(stack, below, top);
    var lines := ExecCommand(env, k, item.command);
    result, pushed := ReadAll(stack, env, item, lines, hosts, svcs);
  }

  /** The start of stack_run: one more execution, and its item. */
  method TakeTop(stack: Stack.Stack<Item>, ghost below: seq<Item>, ghost top: Item) returns (item: Item)
    requires stack.Valid() && stack.items == below + [top]
    modifies stack, stack.repr
    ensures stack.Valid() && stack.repr == old(stack.repr)
    ensures stack.executions == old(stack.executions) + 1 && stack.items == below && item == top
  {
    assert stack.items[..|below|] == below;
    stack.IncrementExecutions();
    var node := stack.Pop();
    item := node.data;
  }

  /** exec_command: what the plugin prints, nothing for an empty command or empty contents. */
  method ExecCommand(env: Env, k: nat, command: CString) returns (lines: seq<string>)
    requires PluginsPrintFields(env.plugin)
    ensures lines == Lines(env, k, command) && AllWellFormed(lines)
    ensures !IsEmpty(command) && env.contents != "" ==> lines == env.plugin(k, command.s + " " + env.contents)
    ensures IsEmpty(command) || env.contents == "" ==> lines == []
  {
    if XStrlen(command) == 0 || |env.contents| == 0 {
      return [];
    }
    var full := command.s + [' '] + env.contents;
    assert full == command.s + " " + env.contents;
    lines := env.plugin(k, full);
    assert AllWellFormed(env.plugin(k, full));
  }

  /** exec_trap up to its main loop: what is to be run first. */
  method PushInitial(stack: Stack.Stack<Item>, env: Env, hosts: Index, svcs: Index) returns (ok: bool)
    requires stack.Valid() && stack.items == [] && Tables(env, hosts, svcs) && env.command != Str("")
    modifies stack
    ensures stack.Valid() && fresh(stack.repr - old(stack.repr)) && stack.executions == old(stack.executions)
    ensures ok <==> Initial(env).Some?
    ensures ok ==> stack.items == Initial(env).value
  {
    if env.command.Null? {
      ok := PushFollowUp(stack, env, RequestFor(env, Null, Null), hosts, svcs);
    } else {
      stack.Push(Item(XStrdup(env.command), 0, null, null));
      ok := true;
    }
  }

  lemma Apart(stack: seq<Item>) returns (below: seq<Item>, top: Item)
    requires stack != []
    ensures stack == below + [top]
  {
    below, top := stack[..|stack| - 1], stack[|stack| - 1];
  }

  /** do_output in the main loop. */
  method Output(env: Env, hosts: Index, svcs: Index, written: seq<Result>, r: Result, ghost before: seq<Result>)
    returns (written': seq<Result>, crash: bool)
    requires Tables(env, hosts, svcs) && Named(env.hosts) && Named(env.svcs)
    requires written == Written(before, env.hosts, env.svcs)
    ensures crash <==> Crashes(r, env.svcs)
    ensures written' == Written(if crash then before else before + [r], env.hosts, env.svcs)
  {
    assert (before + [r])[..|before|] == before;
    var confirmed;
    confirmed, crash := DoOutput(r, hosts, svcs);
    written' := written + if confirmed then [r] else [];
  }

  /** How a trap's handling ends: with the machine's run, or with the first result that makes
      do_output compare NULL. */
  ghost predicate Ends(env: Env, goal: Outcome<Item, Result>, ok: bool, crashed: bool, written: seq<Result>,
                       executions: int) {
    var n := UntilCrash(goal.results, env.svcs);
    && (crashed <==> n < |goal.results|)
    && written == Written(goal.results[..n], env.hosts, env.svcs)
    && (if crashed then !ok && executions == n + 1 else ok == goal.ok && executions == |goal.runs|)
  }

  /** The loop was abandoned, or left with an empty stack. */
  lemma RunEnds(env: Env, goal: Outcome<Item, Result>, log: Log<Item, Result>, written: seq<Result>, executions: int)
    requires goal.results == ResultsOf(log) && AllSafe(ResultsOf(log), env.svcs)
    requires written == Written(ResultsOf(log), env.hosts, env.svcs) && executions == |goal.runs|
    ensures Ends(env, goal, goal.ok, false, written, executions)
  {
    var rs := ResultsOf(log);
    assert rs[..|rs|] == rs;
    UntilCrashIs(goal.results, env.svcs, |rs|);
  }

  lemma {:induction false} CountIsResults(log: Log<Item, Result>)
    ensures Count(log) == |ResultsOf(log)|
  {
    if log.Ran? {
      CountIsResults(log.before);
    }
  }

  /** The log's last result made do_output compare NULL. */
  lemma CrashEnds(env: Env, goal: Outcome<Item, Result>, log: Log<Item, Result>, before: seq<Result>, r: Result,
                  written: seq<Result>, executions: int)
    requires Obeys(Step(env), env.max, goal, log) && ResultsOf(log) == before + [r] && Count(log) == executions
    requires AllSafe(before, env.svcs) && Crashes(r, env.svcs) && written == Written(before, env.hosts, env.svcs)
    ensures Ends(env, goal, false, true, written, executions)
  {
    LogIsPrefix(Step(env), env.max, goal, log);
    CountIsResults(log);
    var n := |before|;
    assert goal.results[..n] == before && goal.results[n] == r by {
      assert goal.results[..n + 1] == ResultsOf(log);
      assert goal.results[..n] == goal.results[..n + 1][..n];
    }
    UntilCrashIs(goal.results, env.svcs, n);
  }

  /** What the loop has done so far. */
  ghost predicate Follows(env: Env, goal: Outcome<Item, Result>, log: Log<Item, Result>, stack: seq<Item>, k: int,
                          written: seq<Result>) {
    && Obeys(Step(env), env.max, goal, log) && StackAfter(log) == stack && Count(log) == k
    && AllSafe(ResultsOf(log), env.svcs) && written == Written(ResultsOf(log), env.hosts, env.svcs)
  }

  /** do_output on the log's last result. */
  method OutputLogged(env: Env, hosts: Index, svcs: Index, written: seq<Result>, r: Result,
                      ghost goal: Outcome<Item, Result>, ghost before: seq<Result>, ghost log: Log<Item, Result>)
    returns (written': seq<Result>, crashed: bool)
    requires Tables(env, hosts, svcs) && Named(env.hosts) && Named(env.svcs)
    requires Obeys(Step(env), env.max, goal, log) && ResultsOf(log) == before + [r]
    requires AllSafe(before, env.svcs) && written == Written(before, env.hosts, env.svcs)
    ensures crashed ==> Ends(env, goal, false, true, written', Count(log))
    ensures !crashed ==> Follows(env, goal, log, StackAfter(log), Count(log), written')
  {
    written', crashed := Output(env, hosts, svcs, written, r, before);
    if crashed {
      CrashEnds(env, goal, log, before, r, written', Count(log));
    }
  }

  /** stack_run in the main loop, which the log follows. */
  method RunLogged(stack: Stack.Stack<Item>, env: Env, hosts: Index, svcs: Index,
                   ghost goal: Outcome<Item, Result>, ghost log: Log<Item, Result>)
    returns (result: Option<Result>, ghost log': Log<Item, Result>)
    requires stack.Valid() && stack.depth > 0 && Ready(env, hosts, svcs)
    requires Obeys(Step(env), env.max, goal, log) && StackAfter(log) == stack.items && Count(log) == stack.executions
    modifies stack, stack.repr
    ensures stack.Valid() && fresh(stack.repr - old(stack.repr))
    ensures result.Some? ==>
      && Obeys(Step(env), env.max, goal, log') && ResultsOf(log') == ResultsOf(log) + [result.value]
      && StackAfter(log') == stack.items && Count(log') == stack.executions == old(stack.executions) + 1 <= env.max + 1
    ensures result.None? ==> !goal.ok && goal.results == ResultsOf(log) && |goal.runs| == stack.executions
  {
    ghost var below, top := Apart(stack.items);
    ghost var pushed;
    result, pushed := StackRun(stack, env, hosts, svcs, below, top);
    log' := log;
    if result.None? {
      LogBreaksOff(Step(env), env.max, goal, log, below, top);
    } else {
      log' := Ran(log, below, top, pushed, result.value);
    }
  }

  /** The same, and how the trap's handling ends if there is no result. */
  method RunTop(stack: Stack.Stack<Item>, env: Env, hosts: Index, svcs: Index, ghost written: seq<Result>,
                ghost goal: Outcome<Item, Result>, ghost log: Log<Item, Result>)
    returns (result: Option<Result>, ghost log': Log<Item, Result>)
    requires stack.Valid() && stack.depth > 0 && Ready(env, hosts, svcs)
    requires Follows(env, goal, log, stack.items, stack.executions, written)
    modifies stack, stack.repr
    ensures stack.Valid() && fresh(stack.repr - old(stack.repr)) && Ready(env, hosts, svcs)
    ensures result.Some? ==>
      && Obeys(Step(env), env.max, goal, log') && ResultsOf(log') == ResultsOf(log) + [result.value]
      && StackAfter(log') == stack.items && Count(log') == stack.executions == old(stack.executions) + 1 <= env.max + 1
    ensures result.None? ==> Ends(env, goal, false, false, written, stack.executions)
  {
    result, log' := RunLogged(stack, env, hosts, svcs, goal, log);
    if result.None? {
      RunEnds(env, goal, log, written, stack.executions);
    }
  }

  /** The body of the main loop: run the item on top, then write its result. */
  method OneTurn(stack: Stack.Stack<Item>, env: Env, hosts: Index, svcs: Index, written: seq<Result>,
                 ghost goal: Outcome<Item, Result>, ghost log: Log<Item, Result>)
    returns (done: bool, crashed: bool, written': seq<Result>, ghost log': Log<Item, Result>)
    requires stack.Valid() && stack.depth > 0 && Ready(env, hosts, svcs) && Named(env.hosts) && Named(env.svcs)
    requires Follows(env, goal, log, stack.items, stack.executions, written)
    modifies stack, stack.repr
    ensures stack.Valid() && fresh(stack.repr - old(stack.repr))
    ensures !done ==> Follows(env, goal, log', stack.items, stack.executions, written')
    ensures !done ==> stack.executions == old(stack.executions) + 1 <= env.max + 1
    ensures done ==> Ends(env, goal, false, crashed, written', stack.executions)
  {
    var result;
    result, log' := RunTop(stack, env, hosts, svcs, written, goal, log);
    if result.None? {
      return true, false, written, log';
    }
    written', crashed := OutputLogged(env, hosts, svcs, written, result.value, goal, ResultsOf(log), log');
    done := crashed;
  }

  /** The main loop. */
  method MainLoop(stack: Stack.Stack<Item>, env: Env, hosts: Index, svcs: Index, ghost goal: Outcome<Item, Result>)
    returns (ok: bool, crashed: bool, written: seq<Result>)
    requires stack.Valid() && stack.executions == 0 && Ready(env, hosts, svcs) && Named(env.hosts) && Named(env.svcs)
    requires goal == RunAll(Step(env), env.max, 0, stack.items)
    modifies stack, stack.repr
    ensures Ends(env, goal, ok, crashed, written, stack.executions)
  {
    written := [];
    ghost var log := Begin(stack.items);
    while stack.depth > 0
      invariant stack.Valid() && fresh(stack.repr - old(stack.repr))
      invariant Follows(env, goal, log, stack.items, stack.executions, written)
      decreases if stack.executions <= env.max then env.max + 1 - stack.executions else 0
    {
      var done;
      done, crashed, written, log := OneTurn(stack, env, hosts, svcs, written, goal, log);
      if done {
        return false, crashed, written;
      }
    }
    LogEnds(Step(env), env.max, goal, log);
    RunEnds(env, goal, log, written, stack.executions);
    ok, crashed := true, false;
  }

  /** exec_trap on a trap with contents and a sender address, once its command is known: what
      reaches the output channel, in order, how many plugins were run, and whether NULL was
      passed to strcmp, which ends the daemon. */
  method ExecTrap(env: Env, hosts: Index, svcs: Index)
    returns (ok: bool, crashed: bool, written: seq<Result>, executions: int)
    requires Ready(env, hosts, svcs) && Named(env.hosts) && Named(env.svcs)
    ensures Ends(env, Handled(env), ok, crashed, written, executions)
    ensures 0 <= executions <= if env.max >= 0 then env.max + 1 else 0
    ensures ServicesDescribed(env) ==> !crashed
  {
    var stack := new Stack.Stack<Item>();
    ok := PushInitial(stack, env, hosts, svcs);
    crashed, written, executions := false, [], 0;
    if ok {
      ok, crashed, written := MainLoop(stack, env, hosts, svcs, Handled(env));
      executions := stack.executions;
    }
    HandledIsBounded(env);
    if crashed {
      SafeMeansNoCrash(env);
    }
  }

  lemma SafeMeansNoCrash(env: Env)
    ensures ServicesDescribed(env) ==> UntilCrash(Handled(env).results, env.svcs) == |Handled(env).results|
  {
    if ServicesDescribed(env) {
      var rs := Handled(env).results;
      HandledIsSafe(env);
      assert rs[..|rs|] == rs;
      UntilCrashIs(rs, env.svcs, |rs|);
    }
  }

  lemma HandledIsBounded(env: Env)
    ensures |Handled(env).runs| <= if env.max >= 0 then env.max + 1 else 0
    ensures |Handled(env).results| <= |Handled(env).runs|
  {
    if Initial(env).Some? {
      RunsAreBounded(Step(env), env.max, 0, Initial(env).value);
      ResultsMatchRuns(Step(env), env.max, 0, Initial(env).value, 0);
    }
  }
}
