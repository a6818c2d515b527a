/** What a trap's handling passes to plugins, and where their lines lead (src/exec.c). */
module PluginRuns {
  import opened Collections
  import opened CStrings
  import opened Hooks
  import opened HookTexts
  import opened HostIndex
  import opened Execlist
  import opened Listing
  import opened Results
  import opened StackMachine
  import opened Plugins
  import ExpanderLaws

  // ---------- the command line of a plugin ----------

  /** The item is run, and its plugin prints one line: it is given the item's command, a space and
      the trap's contents. */
  predicate PrintsLine(env: Env, k: nat, item: Item, c: string, fs: seq<string>) {
    && item.command == Str(c) && c != "" && env.contents != ""
    && Printable(fs) && env.plugin(k, c + " " + env.contents) == [JoinFields(fs)]
  }

  /** A line with a numeric return value is the item's result. */
  lemma CompleteLine(env: Env, k: nat, item: Item, c: string, fs: seq<string>)
    requires PrintsLine(env, k, item, c, fs) && AllDigits(Str(fs[3]))
    ensures var run := RunItem(env, k, item);
            && run.pushed == [] && run.result.Some?
            && Understood(fs, item.isService, item.host, item.svc, env.useSender, run.result.value)
  {
    PrintedLineIsUnderstood(fs, item.isService, item.host, item.svc, env.useSender);
  }

  /** A trap with a command of its own is handed to that command, and what it prints is the only
      result. */
  lemma GivenCommandIsRun(env: Env, c: string, fs: seq<string>)
    requires env.command == Str(c) && c != "" && env.contents != "" && env.max >= 0
    requires Printable(fs) && AllDigits(Str(fs[3])) && env.plugin(0, c + " " + env.contents) == [JoinFields(fs)]
    ensures var o := Handled(env);
            && o.ok && |o.runs| == 1 && |o.results| == 1
            && Understood(fs, 0, null, null, env.useSender, o.results[0])
  {
    var item := Item(Str(c), 0, null, null);
    CompleteLine(env, 0, item, c, fs);
    Unfold(Step(env), env.max, 0, [], item);
    assert [] + [item] == [item];
    assert RunAll(Step(env), env.max, 1, [] + RunItem(env, 0, item).pushed) == Outcome(true, [], [], 0, []);
  }

  /** Without contents, or without a command, no plugin is run and there is no result. */
  lemma NothingToRun(env: Env, k: nat, item: Item)
    requires env.contents == "" || IsEmpty(item.command)
    ensures RunItem(env, k, item) == Run(None, [])
  {
  }

  lemma NoContentsNoResult(env: Env)
    requires env.contents == ""
    ensures Handled(env).results == []
    ensures Handled(env).ok ==> Initial(env) == Some([])
  {
    if Initial(env).Some? && Initial(env).value != [] && 0 <= env.max {
      var items := Initial(env).value;
      NothingToRun(env, 0, items[|items| - 1]);
    }
  }

  lemma {:induction false} ReadLinesAgree<T, R>(judge: string -> Verdict<T, R>, judge': string -> Verdict<T, R>,
                                               lines: seq<string>, last: Option<R>)
    requires forall line :: judge(line) == judge'(line)
    ensures ReadLines(judge, lines, last) == ReadLines(judge', lines, last)
  {
    if lines != [] && judge(lines[0]).Partial? {
      ReadLinesAgree(judge, judge', lines[1..], Some(judge(lines[0]).r));
    }
  }

  lemma {:induction false} RunAllAgrees<T, R>(step: (nat, T) -> Run<T, R>, step': (nat, T) -> Run<T, R>, max: int,
                                             k: nat, stack: seq<T>)
    requires forall j: nat, x: T :: step(j, x) == step'(j, x)
    ensures RunAll(step, max, k, stack) == RunAll(step', max, k, stack)
    decreases if k <= max then max + 1 - k else 0
  {
    if stack != [] && k <= max {
      var n := |stack| - 1;
      RunAllAgrees(step, step', max, k + 1, stack[..n] + step(k, stack[n]).pushed);
    }
  }

  lemma JudgeAgrees(env: Env, plugin: (nat, string) -> seq<string>, item: Item, line: string)
    ensures Judge(env, item, line) == Judge(env.(plugin := plugin), item, line)
  {
  }

  lemma LinesAgree(env: Env, plugin: (nat, string) -> seq<string>, k: nat, command: CString)
    requires forall j: nat, c: string | c != "" ::
               env.plugin(j, c + " " + env.contents) == plugin(j, c + " " + env.contents)
    ensures Lines(env, k, command) == Lines(env.(plugin := plugin), k, command)
  {
  }

  lemma RunItemAgrees(env: Env, plugin: (nat, string) -> seq<string>, k: nat, item: Item)
    requires forall j: nat, c: string | c != "" ::
               env.plugin(j, c + " " + env.contents) == plugin(j, c + " " + env.contents)
    ensures RunItem(env, k, item) == RunItem(env.(plugin := plugin), k, item)
  {
    var env' := env.(plugin := plugin);
    forall line ensures JudgeOf(env, item)(line) == JudgeOf(env', item)(line) {
      JudgeAgrees(env, plugin, item, line);
    }
    LinesAgree(env, plugin, k, item.command);
    ReadLinesAgree(JudgeOf(env, item), JudgeOf(env', item), Lines(env, k, item.command), None);
  }

  /** Nothing else is ever passed to a plugin: plugins that agree on all commands followed by the
      trap's contents handle the trap alike. */
  lemma OnlyCommandsAndContents(env: Env, plugin: (nat, string) -> seq<string>)
    requires forall j: nat, c: string | c != "" ::
               env.plugin(j, c + " " + env.contents) == plugin(j, c + " " + env.contents)
    ensures Handled(env) == Handled(env.(plugin := plugin))
  {
    var env' := env.(plugin := plugin);
    forall k: nat, x: Item ensures Step(env)(k, x) == Step(env')(k, x) {
      RunItemAgrees(env, plugin, k, x);
    }
    if Initial(env).Some? {
      RunAllAgrees(Step(env), Step(env'), env.max, 0, Initial(env).value);
    }
  }

  // ---------- where a partial line leads ----------

  predicate AllHaveCommands(items: seq<Item>) {
    forall i | 0 <= i < |items| :: items[i].command.Str?
  }

  /** The items are pushed up to the first one without a command. */
  predicate PushesUpTo(pushed: seq<Item>, items: seq<Item>) {
    && pushed <= items && AllHaveCommands(pushed)
    && (|pushed| < |items| ==> items[|pushed|].command.Null?)
  }

  /** A partial line leads to some items: they are pushed, and the line is the result so far, or
      the trap is abandoned if there are none or one has no command. */
  predicate Leads(run: Run<Item, Result>, items: seq<Item>, env: Env, item: Item, fs: seq<string>)
    requires |fs| >= 7
  {
    && PushesUpTo(run.pushed, items)
    && (run.result.Some? <==> items != [] && AllHaveCommands(items))
    && (run.result.Some? ==> Understood(fs, item.isService, item.host, item.svc, env.useSender, run.result.value))
  }

  lemma {:induction false} RunnableIs(items: seq<Item>)
    ensures PushesUpTo(Runnable(items), items) && (Runnable(items) == items <==> AllHaveCommands(items))
  {
    if items != [] && items[0].command.Str? {
      RunnableIs(items[1..]);
    }
  }

  function AskedBy(env: Env, fs: seq<string>): Request
    requires |fs| >= 7
  {
    Request(env.command, env.cmdId, env.useSender, env.sender, Given(fs[0], Null), Given(fs[1], Null))
  }

  lemma PartialLine(env: Env, k: nat, item: Item, c: string, fs: seq<string>)
    requires PrintsLine(env, k, item, c, fs) && !AllDigits(Str(fs[3]))
    ensures Leads(RunItem(env, k, item), Wanted(AskedBy(env, fs), env.commands, env.hosts, env.svcs), env, item, fs)
  {
    var items := Wanted(AskedBy(env, fs), env.commands, env.hosts, env.svcs);
    var r := PartialResult(env, item, fs);
    OneLine(JudgeOf(env, item), JoinFields(fs), r, Runnable(items), Pushes(items));
    RunnableIs(items);
  }

  lemma PartialResult(env: Env, item: Item, fs: seq<string>) returns (r: Result)
    requires Printable(fs) && !AllDigits(Str(fs[3]))
    ensures Understood(fs, item.isService, item.host, item.svc, env.useSender, r)
    ensures var items := Wanted(AskedBy(env, fs), env.commands, env.hosts, env.svcs);
            Judge(env, item, JoinFields(fs)) == Partial(r, Runnable(items), Pushes(items))
  {
    PrintedLineIsUnderstood(fs, item.isService, item.host, item.svc, env.useSender);
    r := Parsed(JoinFields(fs), item.isService, item.host, item.svc, env.useSender);
    assert RequestFor(env, r.hostAddress, r.hostName) == AskedBy(env, fs);
  }

  lemma OneLine<T, R>(judge: string -> Verdict<T, R>, line: string, r: R, pushed: seq<T>, ok: bool)
    requires judge(line) == Partial(r, pushed, ok)
    ensures ReadLines(judge, [line], None) == Run(if ok then Some(r) else None, pushed)
  {
    assert [line][1..] == [];
    assert pushed + [] == pushed;
  }

  /** An address leads along the addresses, */
  lemma AddressLeads(env: Env, k: nat, item: Item, c: string, fs: seq<string>) returns (items: seq<Item>)
    requires PrintsLine(env, k, item, c, fs) && !AllDigits(Str(fs[3])) && env.command.Null? && fs[0] != ""
    ensures ListsBy(items, env.hosts, env.svcs, env.cmdId, ByAddress, fs[0])
    ensures Leads(RunItem(env, k, item), items, env, item, fs)
  {
    PartialLine(env, k, item, c, fs);
    ListedByAddress(AskedBy(env, fs), env.commands, env.hosts, env.svcs);
    items := Wanted(AskedBy(env, fs), env.commands, env.hosts, env.svcs);
  }

  /** a name alone along the names, */
  lemma NameLeads(env: Env, k: nat, item: Item, c: string, fs: seq<string>) returns (items: seq<Item>)
    requires PrintsLine(env, k, item, c, fs) && !AllDigits(Str(fs[3])) && env.command.Null? && fs[0] == "" != fs[1]
    ensures ListsBy(items, env.hosts, env.svcs, env.cmdId, ByName, fs[1])
    ensures Leads(RunItem(env, k, item), items, env, item, fs)
  {
    PartialLine(env, k, item, c, fs);
    ListedByName(AskedBy(env, fs), env.commands, env.hosts, env.svcs);
    items := Wanted(AskedBy(env, fs), env.commands, env.hosts, env.svcs);
  }

  /** and neither where the trap began. */
  lemma NeitherLeads(env: Env, k: nat, item: Item, c: string, fs: seq<string>) returns (items: seq<Item>)
    requires PrintsLine(env, k, item, c, fs) && !AllDigits(Str(fs[3])) && env.command.Null? && fs[0] == fs[1] == ""
    requires !IsEmpty(env.sender) && env.useSender
    ensures ListsBy(items, env.hosts, env.svcs, env.cmdId, ByAddress, env.sender.s)
    ensures Leads(RunItem(env, k, item), items, env, item, fs)
  {
    PartialLine(env, k, item, c, fs);
    ListedBySender(AskedBy(env, fs), env.commands, env.hosts, env.svcs);
    items := Wanted(AskedBy(env, fs), env.commands, env.hosts, env.svcs);
  }

  /** A trap with a command of its own is given to it again, with the line's address in place. */
  lemma CommandLeads(env: Env, k: nat, item: Item, c: string, fs: seq<string>, given: ExpanderLaws.Command)
    returns (again: Item)
    requires PrintsLine(env, k, item, c, fs) && !AllDigits(Str(fs[3]))
    requires ExpanderLaws.WellFormed(given) && env.command == Str(ExpanderLaws.Print(given)) && env.command != Str("")
    ensures IsTextItem(again, WithAddresses(OrUnknown(Given(fs[0], Null)), OrUnknown(env.sender), given), 0)
    ensures Leads(RunItem(env, k, item), [again], env, item, fs)
  {
    PartialLine(env, k, item, c, fs);
    GivenCommandListed(AskedBy(env, fs), given, env.commands, env.hosts, env.svcs);
    again := Wanted(AskedBy(env, fs), env.commands, env.hosts, env.svcs)[0];
  }

  // ---------- where a trap begins ----------

  /** The handling begins with these items, or not at all. */
  predicate BeginsWith(env: Env, items: seq<Item>) {
    Initial(env) == if items != [] && AllHaveCommands(items) then Some(items) else None
  }

  /** With the hosts and services of the sender's address, where that is looked up; */
  lemma BeginsAtSender(env: Env) returns (items: seq<Item>)
    requires env.command.Null? && !IsEmpty(env.sender) && env.useSender
    ensures ListsBy(items, env.hosts, env.svcs, env.cmdId, ByAddress, env.sender.s) && BeginsWith(env, items)
  {
    var q := Request(Null, env.cmdId, env.useSender, env.sender, Null, Null);
    items := Wanted(q, env.commands, env.hosts, env.svcs);
    ListedBySender(q, env.commands, env.hosts, env.svcs);
    RunnableIs(items);
  }

  /** else with the command of the trap's own, for no host in particular. */
  lemma BeginsWithCommand(env: Env, c: ExpanderLaws.Command) returns (item: Item)
    requires env.command.Null? && !IsEmpty(env.sender) && !env.useSender && ExpanderLaws.WellFormed(c)
    requires env.cmdId != -1 && env.cmdId in env.commands
    requires env.commands[env.cmdId].expandedText == ExpanderLaws.Print(c)
    ensures IsTextItem(item, WithAddresses("UNKNOWN", env.sender.s, c), -1) && BeginsWith(env, [item])
  {
    var q := Request(Null, env.cmdId, env.useSender, env.sender, Null, Null);
    var items := Wanted(q, env.commands, env.hosts, env.svcs);
    SenderCommandListed(q, c, env.commands, env.hosts, env.svcs);
    item := items[0];
    RunnableIs(items);
  }
}
