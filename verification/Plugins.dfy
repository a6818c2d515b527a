/** What running a trap's plugins leads to (src/exec.c), on values: the stack machine with the
    plugins' output as its step. Plugins may print anything that can be parsed. */
module Plugins {
  import opened Collections
  import opened CStrings
  import opened HostIndex
  import opened Execlist
  import opened Results
  import opened StackMachine

  /** What does not change while a trap is handled. A plugin's output may depend on how many
      were run before it. */
  datatype Env = Env(
    max: int, plugin: (nat, string) -> seq<string>, contents: string,
    command: CString, cmdId: int, useSender: bool, sender: CString,
    commands: map<int, Command>, hosts: seq<Record>, svcs: seq<Record>)

  // ---------- one plugin ----------

  /** What push_execlist pushes: it stops at an item without a command. */
  function Runnable(items: seq<Item>): (r: seq<Item>)
    ensures r <= items
  {
    if items == [] || items[0].command.Null? then [] else [items[0]] + Runnable(items[1..])
  }

  /** What execlist_build is asked for: by the names a result gives, or at first by none. */
  function RequestFor(env: Env, hostAddress: CString, hostName: CString): Request {
    Request(env.command, env.cmdId, env.useSender, env.sender, hostAddress, hostName)
  }

  function FollowUp(env: Env, r: Result): seq<Item> {
    Wanted(RequestFor(env, r.hostAddress, r.hostName), env.commands, env.hosts, env.svcs)
  }

  /** A complete result ends the reading; a partial one must lead to something more to run. */
  function Judge(env: Env, item: Item, line: string): Verdict<Item, Result> {
    var r := Parsed(line, item.isService, item.host, item.svc, env.useSender);
    if r.complete then Complete(r) else Partial(r, Runnable(FollowUp(env, r)), Pushes(FollowUp(env, r)))
  }

  /** Whether there is something to push, and push_execlist pushes all of it. */
  predicate Pushes(items: seq<Item>) {
    items != [] && Runnable(items) == items
  }

  function JudgeOf(env: Env, item: Item): string -> Verdict<Item, Result> {
    line => Judge(env, item, line)
  }

  /** exec_command */
  function Lines(env: Env, k: nat, command: CString): seq<string> {
    if IsEmpty(command) || env.contents == "" then [] else env.plugin(k, command.s + " " + env.contents)
  }

  function RunItem(env: Env, k: nat, item: Item): Run<Item, Result> {
    ReadLines(JudgeOf(env, item), Lines(env, k, item.command), None)
  }

  function Step(env: Env): (nat, Item) -> Run<Item, Result> {
    (k: nat, item: Item) => RunItem(env, k, item)
  }

  /** What is on the stack when the loop starts, if the loop starts. */
  function Initial(env: Env): Option<seq<Item>> {
    if env.command.Str? then Some([Item(XStrdup(env.command), 0, null, null)])
    else
      var items := Wanted(RequestFor(env, Null, Null), env.commands, env.hosts, env.svcs);
      if Pushes(items) then Some(items) else None
  }

  /** What the trap's run amounts to. */
  function Handled(env: Env): Outcome<Item, Result> {
    match Initial(env)
    case None => Outcome(false, [], [], 0, [])
    case Some(items) => RunAll(Step(env), env.max, 0, items)
  }

  lemma {:induction false} RunnablePrefix(items: seq<Item>, i: nat)
    requires i <= |items| && forall j | 0 <= j < i :: items[j].command.Str?
    ensures i == |items| ==> Runnable(items) == items
    ensures i < |items| && items[i].command.Null? ==> Runnable(items) == items[..i]
  {
    if i > 0 {
      RunnablePrefix(items[1..], i - 1);
    }
  }

  // ---------- no NULL description is compared ----------

  /** Loaded services have descriptions, and what their own plugins print describes a service.
      Only results that are looked up need this. */
  ghost predicate ServicesDescribed(env: Env) {
    !env.useSender ==>
      && (forall i | 0 <= i < |env.svcs| :: !IsEmpty(env.svcs[i].data.description))
      && (forall i, k: nat | 0 <= i < |env.svcs| :: Describes(Lines(env, k, CommandOf(env.svcs[i]))))
  }

  function CommandOf(r: Record): CString {
    XStrdup(Str(r.data.expandedText))
  }

  /** An item for a service carries a loaded service and its command. */
  predicate ItemOk(env: Env, x: Item) {
    if x.isService == 1 then x.svc != null && x.svc in env.svcs && x.command == CommandOf(x.svc)
    else x.isService == 0 || x.isService == -1
  }

  predicate Described(env: Env, r: Result) {
    r.useSender == env.useSender && (r.isService && !env.useSender ==> r.svcDesc.Str?)
  }

  /** A line of a service's plugin that is complete or names a service gives a description;
      and a plugin that decides by giving one has given one. */
  lemma LineIsDescribed(env: Env, x: Item, line: string)
    requires ItemOk(env, x)
    requires x.isService == 1 && !env.useSender ==>
             !IsEmpty(x.svc.data.description) && (LineComplete(line) || LineDescribes(line))
    ensures Described(env, Parsed(line, x.isService, x.host, x.svc, env.useSender))
  {
  }

  lemma {:induction false} ReadingIsDescribed(env: Env, x: Item, lines: seq<string>, last: Option<Result>)
    requires ItemOk(env, x) && (lines == [] && last.Some? ==> Described(env, last.value))
    requires x.isService == 1 && !env.useSender ==> !IsEmpty(x.svc.data.description) && Describes(lines)
    ensures var run := ReadLines(JudgeOf(env, x), lines, last); run.result.Some? ==> Described(env, run.result.value)
  {
    if lines != [] {
      var r := Parsed(lines[0], x.isService, x.host, x.svc, env.useSender);
      if x.isService != 1 || env.useSender || LineComplete(lines[0]) || |lines| == 1 {
        LineIsDescribed(env, x, lines[0]);
      }
      if !r.complete {
        ReadingIsDescribed(env, x, lines[1..], Some(r));
      }
    }
  }

  lemma FollowUpOk(env: Env, r: Result)
    ensures forall i | 0 <= i < |FollowUp(env, r)| :: ItemOk(env, FollowUp(env, r)[i])
  {
    WantedOk(env, r.hostAddress, r.hostName);
  }

  lemma WantedOk(env: Env, hostAddress: CString, hostName: CString)
    ensures var items := Wanted(RequestFor(env, hostAddress, hostName), env.commands, env.hosts, env.svcs);
            forall i | 0 <= i < |items| :: ItemOk(env, items[i])
  {
    var q := RequestFor(env, hostAddress, hostName);
    var items := Wanted(q, env.commands, env.hosts, env.svcs);
    forall i | 0 <= i < |items| ensures ItemOk(env, items[i]) {
      EveryEntryMatches(q, env.commands, env.hosts, env.svcs, i);
    }
  }

  predicate AllOk(env: Env, items: seq<Item>) {
    forall i | 0 <= i < |items| :: ItemOk(env, items[i])
  }

  lemma {:induction false} ReadingPushesOk(env: Env, x: Item, lines: seq<string>, last: Option<Result>)
    ensures AllOk(env, ReadLines(JudgeOf(env, x), lines, last).pushed)
  {
    if lines != [] {
      var r := Parsed(lines[0], x.isService, x.host, x.svc, env.useSender);
      FollowUpOk(env, r);
      ReadingPushesOk(env, x, lines[1..], Some(r));
    }
  }

  lemma DescribedIsSafe(env: Env, r: Result)
    requires Described(env, r)
    requires !env.useSender ==> forall i | 0 <= i < |env.svcs| :: !IsEmpty(env.svcs[i].data.description)
    ensures !Crashes(r, env.svcs)
  {
    if !env.useSender && r.isService {
      ChainIsDescribed(env, r, ByName, r.hostName);
      ChainIsDescribed(env, r, ByAddress, r.hostAddress);
    }
  }

  lemma ChainIsDescribed(env: Env, r: Result, f: Field, key: CString)
    requires r.svcDesc.Str? && forall i | 0 <= i < |env.svcs| :: !IsEmpty(env.svcs[i].data.description)
    ensures !MeetsNull(Chain(env.svcs, f, key), r.svcDesc)
  {
    if !IsEmpty(key) {
      MatchingIsExact(env.svcs, f, Text(key.s));
    }
  }

  lemma TurnIsOk(env: Env, k: nat, x: Item)
    requires ItemOk(env, x) && ServicesDescribed(env)
    ensures RunItem(env, k, x).result.Some? ==> !Crashes(RunItem(env, k, x).result.value, env.svcs)
    ensures AllOk(env, RunItem(env, k, x).pushed)
  {
    var lines := Lines(env, k, x.command);
    if x.isService == 1 && !env.useSender {
      var i :| 0 <= i < |env.svcs| && env.svcs[i] == x.svc;
      assert Describes(Lines(env, k, CommandOf(env.svcs[i])));
    }
    ReadingIsDescribed(env, x, lines, None);
    ReadingPushesOk(env, x, lines, None);
    if RunItem(env, k, x).result.Some? {
      DescribedIsSafe(env, RunItem(env, k, x).result.value);
    }
  }

  lemma InitialOk(env: Env)
    ensures Initial(env).Some? ==> AllOk(env, Initial(env).value)
  {
    WantedOk(env, Null, Null);
  }

  /** Then no result of the trap's run makes do_output compare NULL. */
  lemma HandledIsSafe(env: Env)
    requires ServicesDescribed(env)
    ensures AllSafe(Handled(env).results, env.svcs)
  {
    InitialOk(env);
    if Initial(env).Some? {
      var step, good, fine := Step(env), (x: Item) => ItemOk(env, x), (r: Result) => !Crashes(r, env.svcs);
      forall k: nat, x: Item | good(x) ensures TurnKeeps(step, k, x, good, fine) {
        TurnIsOk(env, k, x);
      }
      ResultsHave(step, env.max, 0, Initial(env).value, good, fine);
    }
  }
}
