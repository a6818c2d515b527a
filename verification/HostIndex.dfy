/** Hosts and services in memory (src/db.c): every record sits in three singly linked chains
    at once, headed by tables for the name, the address and the command id. */
module HostIndex {
  import opened Collections
  import opened CStrings
  import opened Expander
  import opened Hooks

  // ---------- commands ----------

  datatype CommandRow = CommandRow(id: string, text: CString, useSender: string)

  datatype Command = Command(expandedText: string, useSender: bool)

  /** Every command has a text. */
  predicate HasTexts(rows: seq<CommandRow>) {
    forall i | 0 <= i < |rows| :: !IsEmpty(rows[i].text)
  }

  /** The commands table after fetching `rows`. */
  function Commands(resources: map<string, CString>, rows: seq<CommandRow>): map<int, Command>
    requires HasTexts(rows)
  {
    if rows == [] then map[]
    else
      var row := rows[|rows| - 1];
      Commands(resources, rows[..|rows| - 1])[Atoi(row.id) := CommandOfRow(resources, row)]
  }

  function CommandOfRow(resources: map<string, CString>, row: CommandRow): Command
    requires !IsEmpty(row.text)
  {
    Command(Expand(ResourceHook(resources), row.text.s), row.useSender == "1")
  }

  lemma CommandsSnoc(resources: map<string, CString>, rows: seq<CommandRow>, i: nat)
    requires i < |rows| && HasTexts(rows[..i]) && !IsEmpty(rows[i].text)
    ensures HasTexts(rows[..i + 1])
    ensures Commands(resources, rows[..i + 1]) ==
            Commands(resources, rows[..i])[Atoi(rows[i].id) := CommandOfRow(resources, rows[i])]
  {
    assert rows[..i + 1][..i] == rows[..i];
  }

  /** fetch_commands. A command without a text cannot be expanded, which is a critical error:
      the daemon exits, and there is no table. */
  method FetchCommands(resources: map<string, CString>, rows: seq<CommandRow>) returns (m: Option<map<int, Command>>)
    ensures m.Some? <==> HasTexts(rows)
    ensures m.Some? ==> m.value == Commands(resources, rows)
  {
    var table := map[];
    for i := 0 to |rows|
      invariant HasTexts(rows[..i]) && table == Commands(resources, rows[..i])
    {
      var expanded, _ := ExpandCommand(ResourceHook(resources), XStrdup(rows[i].text));
      if expanded.Null? {
        return None;
      }
      CommandsSnoc(resources, rows, i);
      table := table[Atoi(rows[i].id) := Command(expanded.s, rows[i].useSender == "1")];
    }
    assert rows[..|rows|] == rows;
    m := Some(table);
  }

  // ---------- records ----------

  /** A row of the hosts or services table; a host has no description. */
  datatype Row = Row(description: CString, name: string, address: string, cmdId: string, args: CString)

  datatype Data = Data(description: CString, name: string, address: string, cmdId: int, args: seq<string>,
                       expandedText: string)

  function FromRow(row: Row, command: Command): Data {
    var args := Arguments(row.args);
    Data(XStrdup(row.description), row.name, row.address, Atoi(row.cmdId), args,
         Expand(ArgumentHook(Str(row.address), args), command.expandedText))
  }

  /** The rows whose command is known, in order. */
  function Accepted(commands: map<int, Command>, rows: seq<Row>): seq<Data> {
    if rows == [] then []
    else
      var row := rows[|rows| - 1];
      Accepted(commands, rows[..|rows| - 1])
      + if Atoi(row.cmdId) in commands then [FromRow(row, commands[Atoi(row.cmdId)])] else []
  }

  /** The row that a command id stands for: the last one with that id. */
  predicate Defines(rows: seq<CommandRow>, i: nat, id: int) {
    i < |rows| && Atoi(rows[i].id) == id && forall j | i < j < |rows| :: Atoi(rows[j].id) != id
  }

  lemma {:induction false} CommandsDefine(resources: map<string, CString>, rows: seq<CommandRow>, id: int, i: nat)
    requires HasTexts(rows) && Defines(rows, i, id)
    ensures id in Commands(resources, rows)
    ensures Commands(resources, rows)[id] == CommandOfRow(resources, rows[i])
  {
    var n := |rows| - 1;
    if i < n {
      assert Defines(rows[..n], i, id);
      CommandsDefine(resources, rows[..n], id, i);
    }
  }

  /** That is, its text after the resource pass, and whether its last column is "1". */
  lemma DefinedCommand(resources: map<string, CString>, rows: seq<CommandRow>, id: int, i: nat)
    requires HasTexts(rows) && Defines(rows, i, id)
    ensures id in Commands(resources, rows)
    ensures Commands(resources, rows)[id].expandedText == Expand(ResourceHook(resources), rows[i].text.s)
    ensures Commands(resources, rows)[id].useSender <==> rows[i].useSender == "1"
  {
    CommandsDefine(resources, rows, id, i);
  }

  lemma {:induction false} DefiningRow(resources: map<string, CString>, rows: seq<CommandRow>, id: int) returns (i: nat)
    requires HasTexts(rows) && id in Commands(resources, rows)
    ensures Defines(rows, i, id)
  {
    var n := |rows| - 1;
    i := n;
    if Atoi(rows[n].id) != id {
      i := DefiningRow(resources, rows[..n], id);
    }
  }

  /** The command line kept with a host or service is its command's text after the resource
      pass and the argument pass. */
  lemma RecordText(resources: map<string, CString>, rows: seq<CommandRow>, row: Row, i: nat)
    requires HasTexts(rows) && Defines(rows, i, Atoi(row.cmdId))
    ensures Atoi(row.cmdId) in Commands(resources, rows)
    ensures FromRow(row, Commands(resources, rows)[Atoi(row.cmdId)]).expandedText ==
            StoredText(resources, rows[i].text.s, Str(row.address), Arguments(row.args))
  {
    CommandsDefine(resources, rows, Atoi(row.cmdId), i);
  }

  class Record {
    const data: Data
    var nextByName: Record?
    var nextByAddress: Record?
    var nextByCmdId: Record?

    constructor (d: Data)
      ensures data == d
    {
      data := d;
    }
  }

  datatype Field = ByName | ByAddress | ByCmdId

  datatype Key = Text(text: string) | Number(number: int)

  function KeyIn(f: Field, d: Data): Key {
    match f
    case ByName => Text(d.name)
    case ByAddress => Text(d.address)
    case ByCmdId => Number(d.cmdId)
  }

  function KeyOf(f: Field, r: Record): Key {
    KeyIn(f, r.data)
  }

  function NextOf(f: Field, r: Record): Record?
    reads r
  {
    match f
    case ByName => r.nextByName
    case ByAddress => r.nextByAddress
    case ByCmdId => r.nextByCmdId
  }

  function DataOf(rs: seq<Record>): seq<Data> {
    seq(|rs|, i requires 0 <= i < |rs| => rs[i].data)
  }

  // ---------- chains ----------

  /** The last record with the key. */
  function Newest(rs: seq<Record>, f: Field, key: Key): Record? {
    if rs == [] then null
    else if KeyOf(f, rs[|rs| - 1]) == key then rs[|rs| - 1]
    else Newest(rs[..|rs| - 1], f, key)
  }

  /** The records with the key, newest first. */
  function Matching(rs: seq<Record>, f: Field, key: Key): seq<Record> {
    if rs == [] then []
    else
      var older := Matching(rs[..|rs| - 1], f, key);
      if KeyOf(f, rs[|rs| - 1]) == key then [rs[|rs| - 1]] + older else older
  }

  /** Every record points to the newest earlier one with its key. */
  ghost predicate Linked(rs: seq<Record>, f: Field)
    reads rs
  {
    rs != [] ==>
      var n := |rs| - 1;
      Linked(rs[..n], f) && NextOf(f, rs[n]) == Newest(rs[..n], f, KeyOf(f, rs[n]))
  }

  /** Following the pointers from `r` visits the records from the i-th on, and ends in NULL. */
  ghost predicate ChainFrom(f: Field, r: Record?, visited: seq<Record>, i: nat)
    requires i <= |visited|
    reads visited
    decreases |visited| - i
  {
    if i == |visited| then r == null
    else r == visited[i] && ChainFrom(f, NextOf(f, visited[i]), visited, i + 1)
  }

  /** Following the pointers from `r` visits exactly `visited` and ends in NULL. */
  ghost predicate IsChain(f: Field, r: Record?, visited: seq<Record>)
    reads visited
  {
    ChainFrom(f, r, visited, 0)
  }

  lemma {:induction false} ChainShifts(f: Field, r: Record?, x: Record, visited: seq<Record>, i: nat)
    requires i <= |visited| && ChainFrom(f, r, visited, i)
    ensures ChainFrom(f, r, [x] + visited, i + 1)
    decreases |visited| - i
  {
    if i < |visited| {
      ChainShifts(f, NextOf(f, visited[i]), x, visited, i + 1);
    }
  }

  /** Every chain is the list of the records with its key, newest first. */
  lemma {:induction false} ChainVisitsMatching(rs: seq<Record>, f: Field, key: Key)
    requires Linked(rs, f)
    ensures IsChain(f, Newest(rs, f, key), Matching(rs, f, key))
  {
    if rs != [] {
      var n := |rs| - 1;
      var older := Matching(rs[..n], f, key);
      ChainVisitsMatching(rs[..n], f, key);
      ChainShifts(f, Newest(rs[..n], f, key), rs[n], older, 0);
    }
  }

  predicate AllMatch(m: seq<Record>, rs: seq<Record>, f: Field, key: Key) {
    forall i | 0 <= i < |m| :: m[i] in rs && KeyOf(f, m[i]) == key
  }

  /** The list holds the records with the key and no others. */
  lemma {:induction false} MatchingIsExact(rs: seq<Record>, f: Field, key: Key)
    ensures AllMatch(Matching(rs, f, key), rs, f, key)
    ensures forall i | 0 <= i < |rs| && KeyOf(f, rs[i]) == key :: rs[i] in Matching(rs, f, key)
  {
    if rs != [] {
      var n := |rs| - 1;
      var older := Matching(rs[..n], f, key);
      MatchingIsExact(rs[..n], f, key);
      forall i | 0 <= i < |older| ensures older[i] in rs {
        assert older[i] in rs[..n];
      }
      forall i | 0 <= i < n && KeyOf(f, rs[i]) == key ensures rs[i] in Matching(rs, f, key) {
        assert rs[..n][i] in older;
      }
    }
  }

  /** Later records come first. */
  lemma {:induction false} MatchingReverses(a: seq<Record>, b: seq<Record>, f: Field, key: Key)
    ensures Matching(a + b, f, key) == Matching(b, f, key) + Matching(a, f, key)
  {
    if b == [] {
      assert a + b == a;
    } else {
      assert (a + b)[..|a + b| - 1] == a + b[..|b| - 1];
      MatchingReverses(a, b[..|b| - 1], f, key);
    }
  }

  /** No record is visited twice. */
  lemma {:induction false} MatchingVisitsOnce(rs: seq<Record>, f: Field, key: Key)
    requires Distinct(rs)
    ensures Distinct(Matching(rs, f, key))
  {
    if rs != [] {
      var n := |rs| - 1;
      MatchingVisitsOnce(rs[..n], f, key);
      MatchingIsExact(rs[..n], f, key);
      var m := Matching(rs[..n], f, key);
      forall j | 0 <= j < |m| ensures m[j] != rs[n] {
        assert m[j] in rs[..n];
      }
    }
  }

  // ---------- the tables ----------

  /** A hash table from keys to records. */
  type Table = map<Key, Record>

  function Lookup(table: Table, key: Key): Record? {
    if key in table then table[key] else null
  }

  /** The table leads to the newest record of every key. */
  ghost predicate Heads(table: Table, rs: seq<Record>, f: Field) {
    forall key :: Lookup(table, key) == Newest(rs, f, key)
  }

  /** A record that points to the old head of its chain becomes the new head. */
  lemma ThreadedSnoc(table: Table, rs: seq<Record>, f: Field, r: Record)
    requires Heads(table, rs, f) && Linked(rs, f)
    requires NextOf(f, r) == Lookup(table, KeyOf(f, r))
    ensures Heads((table - {KeyOf(f, r)})[KeyOf(f, r) := r], rs + [r], f) && Linked(rs + [r], f)
  {
    assert (rs + [r])[..|rs|] == rs;
    forall key ensures Lookup((table - {KeyOf(f, r)})[KeyOf(f, r) := r], key) == Newest(rs + [r], f, key) {
      assert Lookup(table, key) == Newest(rs, f, key);
    }
  }

  /** One set of three tables; the daemon has one for hosts and one for services. */
  class Index {
    var byName: Table
    var byAddress: Table
    var byCmdId: Table
    ghost var loaded: seq<Record>

    /** The table that heads a field's chains. */
    function TableOf(f: Field): Table
      reads this
    {
      match f
      case ByName => byName
      case ByAddress => byAddress
      case ByCmdId => byCmdId
    }

    ghost predicate Threaded(f: Field)
      reads this, loaded
    {
      Heads(TableOf(f), loaded, f) && Linked(loaded, f)
    }

    ghost predicate Valid()
      reads this, loaded
    {
      && Distinct(loaded)
      && Threaded(ByName) && Threaded(ByAddress) && Threaded(ByCmdId)
    }

    constructor ()
      ensures Valid() && loaded == []
    {
      byName, byAddress, byCmdId, loaded := map[], map[], map[], [];
    }

    /** From the table entry of any key, one field's pointers visit exactly the loaded records
        with that key, newest first, and end in NULL. */
    lemma ChainFromTable(f: Field, key: Key)
      requires Valid()
      ensures IsChain(f, Lookup(TableOf(f), key), Matching(loaded, f, key))
    {
      assert Threaded(f);
      ChainVisitsMatching(loaded, f, key);
    }

    /** Looks up the successors of a new record and removes them from the tables. */
    method LinkRecord(r: Record)
      modifies this`byName, this`byAddress, this`byCmdId, r
      ensures forall f :: NextOf(f, r) == Lookup(old(TableOf(f)), KeyOf(f, r))
      ensures forall f :: TableOf(f) == old(TableOf(f)) - {KeyOf(f, r)}
      ensures loaded == old(loaded)
    {
      r.nextByName := Lookup(byName, KeyOf(ByName, r));
      byName := byName - {KeyOf(ByName, r)};
      r.nextByAddress := Lookup(byAddress, KeyOf(ByAddress, r));
      byAddress := byAddress - {KeyOf(ByAddress, r)};
      r.nextByCmdId := Lookup(byCmdId, KeyOf(ByCmdId, r));
      byCmdId := byCmdId - {KeyOf(ByCmdId, r)};
    }

    /** Puts a new record at the head of its three chains. */
    method Publish(r: Record)
      modifies this
      ensures forall f :: TableOf(f) == old(TableOf(f))[KeyOf(f, r) := r]
      ensures loaded == old(loaded) + [r]
    {
      byName := byName[KeyOf(ByName, r) := r];
      byAddress := byAddress[KeyOf(ByAddress, r) := r];
      byCmdId := byCmdId[KeyOf(ByCmdId, r) := r];
      loaded := loaded + [r];
    }

    method Insert(r: Record)
      requires Valid() && r !in loaded
      modifies this, r
      ensures Valid() && loaded == old(loaded) + [r]
    {
      ghost var name, address, cmdId, rs := byName, byAddress, byCmdId, loaded;
      LinkRecord(r);
      ThreadedSnoc(name, rs, ByName, r);
      ThreadedSnoc(address, rs, ByAddress, r);
      ThreadedSnoc(cmdId, rs, ByCmdId, r);
      Publish(r);
    }
  }

  /** The record that a kept row becomes. */
  method MakeRecord(row: Row, command: Command) returns (r: Record)
    ensures fresh(r) && r.data == FromRow(row, command)
  {
    var args := SplitArgs(row.args);
    var expanded, _ := ExpandCommand(ArgumentHook(Str(row.address), args), Str(command.expandedText));
    r := new Record(Data(XStrdup(row.description), row.name, row.address, Atoi(row.cmdId), args, expanded.s));
  }

  lemma AcceptedSnoc(commands: map<int, Command>, rows: seq<Row>, i: nat)
    requires i < |rows|
    ensures Accepted(commands, rows[..i + 1]) == Accepted(commands, rows[..i])
      + if Atoi(rows[i].cmdId) in commands then [FromRow(rows[i], commands[Atoi(rows[i].cmdId)])] else []
  {
    assert rows[..i + 1][..i] == rows[..i];
  }

  lemma DataOfSnoc(rs: seq<Record>, r: Record)
    ensures DataOf(rs + [r]) == DataOf(rs) + [r.data]
  {
  }

  /** One row: a record is kept if its command is known. */
  method FetchRow(ix: Index, commands: map<int, Command>, row: Row)
    requires ix.Valid()
    modifies ix
    ensures ix.Valid()
    ensures DataOf(ix.loaded) == DataOf(old(ix.loaded))
      + if Atoi(row.cmdId) in commands then [FromRow(row, commands[Atoi(row.cmdId)])] else []
  {
    var cmdId := Atoi(row.cmdId);
    if cmdId in commands {
      var r := MakeRecord(row, commands[cmdId]);
      DataOfSnoc(ix.loaded, r);
      ix.Insert(r);
    }
  }

  /** fetch_hosts and fetch_svcs */
  method Fetch(commands: map<int, Command>, rows: seq<Row>) returns (ix: Index, ghost places: seq<nat>)
    requires RowsNamed(commands, rows)
    ensures fresh(ix) && ix.Valid() && Named(ix.loaded)
    ensures DataOf(ix.loaded) == Accepted(commands, rows)
    ensures StandFor(ix.loaded, places, commands, rows)
  {
    ix := new Index();
    for i := 0 to |rows|
      invariant fresh(ix) && ix.Valid()
      invariant DataOf(ix.loaded) == Accepted(commands, rows[..i])
    {
      AcceptedSnoc(commands, rows, i);
      FetchRow(ix, commands, rows[i]);
    }
    assert rows[..|rows|] == rows;
    LoadedAreNamed(commands, rows, ix.loaded);
    places := AcceptedStandFor(commands, rows, |rows|, ix.loaded);
  }

  lemma LoadedAreNamed(commands: map<int, Command>, rows: seq<Row>, rs: seq<Record>)
    requires RowsNamed(commands, rows) && DataOf(rs) == Accepted(commands, rows)
    ensures Named(rs)
  {
    AcceptedAreNamed(commands, rows);
    assert forall i | 0 <= i < |rs| :: DataOf(rs)[i] == rs[i].data;
  }

  // ---------- rows and records ----------

  predicate Known(commands: map<int, Command>, row: Row) {
    Atoi(row.cmdId) in commands
  }

  /** What a row is to be found under. */
  function KeyFor(f: Field, row: Row): Key {
    match f
    case ByName => Text(row.name)
    case ByAddress => Text(row.address)
    case ByCmdId => Number(Atoi(row.cmdId))
  }

  ghost predicate FoundUnder(r: Record, row: Row) {
    forall f :: KeyOf(f, r) == KeyFor(f, row)
  }

  predicate CarriesRow(d: Data, row: Row, text: string) {
    && d.name == row.name && d.address == row.address && d.cmdId == Atoi(row.cmdId)
    && d.description == XStrdup(row.description) && d.args == Arguments(row.args)
    && d.expandedText == Expand(ArgumentHook(Str(row.address), Arguments(row.args)), text)
  }

  /** The record is found under the row's name, address and command, and carries the row and its
      command's text with the arguments in place. */
  ghost predicate RecordOf(r: Record, row: Row, commands: map<int, Command>) {
    && Known(commands, row) && FoundUnder(r, row)
    && CarriesRow(r.data, row, commands[Atoi(row.cmdId)].expandedText)
  }

  function KnownAt(commands: map<int, Command>, rows: seq<Row>): nat -> bool {
    (a: nat) => a < |rows| && Known(commands, rows[a])
  }

  /** The records stand for the rows at some places. */
  ghost predicate AreRecords(rs: seq<Record>, places: seq<nat>, commands: map<int, Command>, rows: seq<Row>) {
    && |places| == |rs|
    && forall i | 0 <= i < |rs| :: places[i] < |rows| && RecordOf(rs[i], rows[places[i]], commands)
  }

  /** The places are exactly those of the rows with a known command, in order. */
  ghost predicate StandFor(rs: seq<Record>, places: seq<nat>, commands: map<int, Command>, rows: seq<Row>) {
    Picks(places, |rows|, KnownAt(commands, rows)) && AreRecords(rs, places, commands, rows)
  }

  lemma {:induction false} AcceptedStandFor(commands: map<int, Command>, rows: seq<Row>, n: nat, rs: seq<Record>)
    returns (places: seq<nat>)
    requires n <= |rows| && DataOf(rs) == Accepted(commands, rows[..n])
    ensures Picks(places, n, KnownAt(commands, rows)) && AreRecords(rs, places, commands, rows)
    decreases n
  {
    places := [];
    if n > 0 {
      AcceptedSnoc(commands, rows, n - 1);
      var known := Known(commands, rows[n - 1]);
      if known {
        LastIsRecord(commands, rows, n - 1, rs);
      }
      places := AcceptedStandFor(commands, rows, n - 1, if known then rs[..|rs| - 1] else rs);
      places := OneMoreRow(commands, rows, n - 1, rs, places);
    }
  }

  lemma OneMoreRow(commands: map<int, Command>, rows: seq<Row>, n: nat, rs: seq<Record>, places: seq<nat>)
    returns (places': seq<nat>)
    requires n < |rows| && Picks(places, n, KnownAt(commands, rows))
    requires !Known(commands, rows[n]) ==> AreRecords(rs, places, commands, rows)
    requires Known(commands, rows[n]) ==>
               rs != [] && AreRecords(rs[..|rs| - 1], places, commands, rows)
               && RecordOf(rs[|rs| - 1], rows[n], commands)
    ensures Picks(places', n + 1, KnownAt(commands, rows)) && AreRecords(rs, places', commands, rows)
  {
    PicksNext(places, n, KnownAt(commands, rows));
    if Known(commands, rows[n]) {
      RecordsSnoc(rs, places, commands, rows, n);
      places' := places + [n];
    } else {
      places' := places;
    }
  }

  lemma LastIsRecord(commands: map<int, Command>, rows: seq<Row>, n: nat, rs: seq<Record>)
    requires n < |rows| && Known(commands, rows[n]) && DataOf(rs) == Accepted(commands, rows[..n + 1])
    ensures rs != [] && RecordOf(rs[|rs| - 1], rows[n], commands)
    ensures DataOf(rs[..|rs| - 1]) == Accepted(commands, rows[..n])
  {
    AcceptedSnoc(commands, rows, n);
    DataOfLast(rs, Accepted(commands, rows[..n]), FromRow(rows[n], commands[Atoi(rows[n].cmdId)]));
    RecordFromRow(rs[|rs| - 1], rows[n], commands);
  }

  lemma DataOfLast(rs: seq<Record>, ds: seq<Data>, d: Data)
    requires DataOf(rs) == ds + [d]
    ensures rs != [] && rs[|rs| - 1].data == d && DataOf(rs[..|rs| - 1]) == ds
  {
    assert DataOf(rs)[|rs| - 1] == d && DataOf(rs)[..|rs| - 1] == ds;
    assert DataOf(rs[..|rs| - 1]) == DataOf(rs)[..|rs| - 1];
  }

  lemma RecordFromRow(r: Record, row: Row, commands: map<int, Command>)
    requires Known(commands, row) && r.data == FromRow(row, commands[Atoi(row.cmdId)])
    ensures RecordOf(r, row, commands)
  {
    FromRowCarries(row, commands[Atoi(row.cmdId)]);
    KeysOfRow(r, row);
  }

  lemma FromRowCarries(row: Row, command: Command)
    ensures CarriesRow(FromRow(row, command), row, command.expandedText)
  {
  }

  lemma KeysOfRow(r: Record, row: Row)
    requires r.data.name == row.name && r.data.address == row.address && r.data.cmdId == Atoi(row.cmdId)
    ensures FoundUnder(r, row)
  {
  }

  lemma RecordsSnoc(rs: seq<Record>, places: seq<nat>, commands: map<int, Command>, rows: seq<Row>, n: nat)
    requires rs != [] && AreRecords(rs[..|rs| - 1], places, commands, rows)
    requires n < |rows| && RecordOf(rs[|rs| - 1], rows[n], commands)
    ensures AreRecords(rs, places + [n], commands, rows)
  {
    assert forall i | 0 <= i < |rs| - 1 :: rs[..|rs| - 1][i] == rs[i];
  }

  /** From the tables, the row's name leads to its record, and so do its address and command. */
  lemma RowIsReachable(ix: Index, places: seq<nat>, commands: map<int, Command>, rows: seq<Row>, a: nat, f: Field)
    returns (r: Record)
    requires ix.Valid() && StandFor(ix.loaded, places, commands, rows)
    requires a < |rows| && Known(commands, rows[a])
    ensures RecordOf(r, rows[a], commands)
    ensures r in Matching(ix.loaded, f, KeyFor(f, rows[a]))
    ensures IsChain(f, Lookup(ix.TableOf(f), KeyFor(f, rows[a])), Matching(ix.loaded, f, KeyFor(f, rows[a])))
  {
    assert KnownAt(commands, rows)(a);
    var i :| 0 <= i < |places| && places[i] == a;
    r := ix.loaded[i];
    assert RecordOf(r, rows[a], commands);
    ReachableBy(ix, r, f);
  }

  lemma ReachableBy(ix: Index, r: Record, f: Field)
    requires ix.Valid() && r in ix.loaded
    ensures r in Matching(ix.loaded, f, KeyOf(f, r))
    ensures IsChain(f, Lookup(ix.TableOf(f), KeyOf(f, r)), Matching(ix.loaded, f, KeyOf(f, r)))
  {
    ix.ChainFromTable(f, KeyOf(f, r));
    MatchingIsExact(ix.loaded, f, KeyOf(f, r));
  }

  /** No record has an empty name or address, so an empty key finds nothing. */
  predicate Named(rs: seq<Record>) {
    forall i | 0 <= i < |rs| :: rs[i].data.name != "" && rs[i].data.address != ""
  }

  /** Keys are never empty: the string hash does not take NULL. */
  predicate RowsNamed(commands: map<int, Command>, rows: seq<Row>) {
    forall row | row in rows && Atoi(row.cmdId) in commands :: row.name != "" && row.address != ""
  }

  predicate DataNamed(ds: seq<Data>) {
    forall i | 0 <= i < |ds| :: ds[i].name != "" && ds[i].address != ""
  }

  lemma {:induction false} AcceptedAreNamed(commands: map<int, Command>, rows: seq<Row>)
    requires RowsNamed(commands, rows)
    ensures DataNamed(Accepted(commands, rows))
  {
    if rows != [] {
      AcceptedAreNamed(commands, rows[..|rows| - 1]);
    }
  }
}
