/** What to run for a trap (src/execlist.c): a linked list of commands, built by walking the
    chains of hosts and services. */
module Execlist {
  import opened CStrings
  import opened Expander
  import opened Hooks
  import opened HostIndex

  /** One thing to run; `isService` is 0, 1, or -1 when the plugin decides. */
  datatype Item = Item(command: CString, isService: int, host: Record?, svc: Record?)

  // ---------- the list ----------

  class Node {
    const item: Item
    var next: Node?

    constructor (x: Item)
      ensures item == x && next == null
    {
      item := x;
      next := null;
    }
  }

  /** The list while it is built: its head and its last node. */
  class List {
    var head: Node?
    var current: Node?
    ghost var nodes: seq<Node>
    ghost var items: seq<Item>
    ghost var repr: set<Node>

    ghost predicate Valid()
      reads this, repr
    {
      && |nodes| == |items|
      && (forall i | 0 <= i < |nodes| :: nodes[i] in repr && nodes[i].item == items[i])
      && (forall i, j | 0 <= i < j < |nodes| :: nodes[i] != nodes[j])
      && head == (if nodes == [] then null else nodes[0])
      && current == (if nodes == [] then null else nodes[|nodes| - 1])
      && (forall i, j | 0 <= i < j < |nodes| && j == i + 1 :: nodes[i].next == nodes[j])
      && (nodes != [] ==> nodes[|nodes| - 1].next == null)
    }

    constructor ()
      ensures Valid() && items == [] && repr == {}
    {
      head, current, nodes, items, repr := null, null, [], [], {};
    }

    /** execlist_append */
    method Append(command: CString, isService: int, host: Record?, svc: Record?)
      requires Valid()
      modifies this, repr
      ensures Valid() && fresh(repr - old(repr))
      ensures items == old(items) + [Item(XStrdup(command), isService, host, svc)]
    {
      var node := new Node(Item(XStrdup(command), isService, host, svc));
      if current == null {
        head := node;
      } else {
        current.next := node;
      }
      current := node;
      nodes := nodes + [node];
      items := items + [node.item];
      repr := repr + {node};
    }
  }

  // ---------- which records are chosen ----------

  /** The records loaded up to and including the newest one with a command id. */
  function LoadedUpTo(rs: seq<Record>, cmdId: int): (p: seq<Record>)
    ensures p <= rs
  {
    if rs == [] || rs[|rs| - 1].data.cmdId == cmdId then rs else LoadedUpTo(rs[..|rs| - 1], cmdId)
  }

  /** The newest record with the command id. */
  function NewestWith(rs: seq<Record>, cmdId: int): Record? {
    Newest(rs, ByCmdId, Number(cmdId))
  }

  /** The walk starts from the newest record with the command id but then follows another
      chain: nothing unless that record has the key, else all records with the key that were
      loaded no later, whatever their command. */
  function Selected(rs: seq<Record>, cmdId: int, f: Field, key: Key): seq<Record> {
    var h := NewestWith(rs, cmdId);
    if h != null && KeyOf(f, h) == key then Matching(LoadedUpTo(rs, cmdId), f, key) else []
  }

  lemma {:induction false} UpToEndsInNewest(rs: seq<Record>, cmdId: int)
    ensures NewestWith(rs, cmdId) ==
            (if LoadedUpTo(rs, cmdId) == [] then null else LoadedUpTo(rs, cmdId)[|LoadedUpTo(rs, cmdId)| - 1])
    ensures LoadedUpTo(rs, cmdId) != [] ==> LoadedUpTo(rs, cmdId)[|LoadedUpTo(rs, cmdId)| - 1].data.cmdId == cmdId
    ensures forall i | |LoadedUpTo(rs, cmdId)| <= i < |rs| :: rs[i].data.cmdId != cmdId
  {
    if rs != [] && rs[|rs| - 1].data.cmdId != cmdId {
      UpToEndsInNewest(rs[..|rs| - 1], cmdId);
    }
  }

  lemma {:induction false} LinkedUpTo(rs: seq<Record>, f: Field, cmdId: int)
    requires Linked(rs, f)
    ensures Linked(LoadedUpTo(rs, cmdId), f)
  {
    if rs != [] && rs[|rs| - 1].data.cmdId != cmdId {
      LinkedUpTo(rs[..|rs| - 1], f, cmdId);
    }
  }

  /** The records that a walk from the newest record with the command id visits. */
  lemma WalkVisits(rs: seq<Record>, f: Field, cmdId: int)
    requires Linked(rs, f) && NewestWith(rs, cmdId) != null
    ensures var h := NewestWith(rs, cmdId); IsChain(f, h, Matching(LoadedUpTo(rs, cmdId), f, KeyOf(f, h)))
  {
    UpToEndsInNewest(rs, cmdId);
    LinkedUpTo(rs, f, cmdId);
    ChainVisitsMatching(LoadedUpTo(rs, cmdId), f, KeyOf(f, NewestWith(rs, cmdId)));
  }

  /** Chosen: the records with the key no later than the newest with the command id, provided
      that one has the key. */
  lemma SelectedExactly(rs: seq<Record>, cmdId: int, f: Field, key: Key, r: Record)
    ensures r in Selected(rs, cmdId, f, key) <==>
            var p := LoadedUpTo(rs, cmdId);
            p != [] && KeyOf(f, p[|p| - 1]) == key && r in p && KeyOf(f, r) == key
  {
    UpToEndsInNewest(rs, cmdId);
    MatchingIsExact(LoadedUpTo(rs, cmdId), f, key);
  }

  /** A record that matches the key and the command id. */
  predicate Asked(rs: seq<Record>, cmdId: int, f: Field, key: Key, r: Record) {
    r in rs && KeyOf(f, r) == key && r.data.cmdId == cmdId
  }

  /** The newest record with the command id has the key, and so do no older records of other
      commands; or no record at all has both. */
  predicate Agrees(rs: seq<Record>, cmdId: int, f: Field, key: Key) {
    var p := LoadedUpTo(rs, cmdId);
    if p != [] && KeyOf(f, p[|p| - 1]) == key then
      forall i | 0 <= i < |p| && KeyOf(f, p[i]) == key :: p[i].data.cmdId == cmdId
    else
      forall i | 0 <= i < |p| && KeyOf(f, p[i]) == key :: p[i].data.cmdId != cmdId
  }

  /** When the walk finds exactly the records with the key and the command id. */
  lemma SelectedIsWhatWasAsked(rs: seq<Record>, cmdId: int, f: Field, key: Key)
    ensures (forall r :: r in Selected(rs, cmdId, f, key) <==> Asked(rs, cmdId, f, key, r)) <==>
            Agrees(rs, cmdId, f, key)
  {
    var p := LoadedUpTo(rs, cmdId);
    UpToEndsInNewest(rs, cmdId);
    forall r ensures Asked(rs, cmdId, f, key, r) <==> r in p && KeyOf(f, r) == key && r.data.cmdId == cmdId {
      AskedUpTo(rs, cmdId, f, key, r);
    }
    forall r ensures r in Selected(rs, cmdId, f, key) <==>
                     p != [] && KeyOf(f, p[|p| - 1]) == key && r in p && KeyOf(f, r) == key {
      SelectedExactly(rs, cmdId, f, key, r);
    }
    if !Agrees(rs, cmdId, f, key) {
      var i :| 0 <= i < |p| && KeyOf(f, p[i]) == key &&
               ((p[i].data.cmdId == cmdId) != (KeyOf(f, p[|p| - 1]) == key));
      assert (p[i] in Selected(rs, cmdId, f, key)) != Asked(rs, cmdId, f, key, p[i]);
    }
  }

  lemma AskedUpTo(rs: seq<Record>, cmdId: int, f: Field, key: Key, r: Record)
    ensures Asked(rs, cmdId, f, key, r) <==> r in LoadedUpTo(rs, cmdId) && KeyOf(f, r) == key && r.data.cmdId == cmdId
  {
    UpToEndsInNewest(rs, cmdId);
    if r in rs && r.data.cmdId == cmdId {
      var i :| 0 <= i < |rs| && rs[i] == r;
      assert r == LoadedUpTo(rs, cmdId)[i];
    }
  }

  /** Two hosts with one command id: asking for the older one's address finds nothing, because
      the walk starts at the newer one. */
  lemma OlderAddressFindsNothing(older: Record, newer: Record)
    requires older.data.cmdId == newer.data.cmdId && older.data.address != newer.data.address
    ensures var rs, cmdId, key := [older, newer], older.data.cmdId, KeyOf(ByAddress, older);
            Asked(rs, cmdId, ByAddress, key, older) && Selected(rs, cmdId, ByAddress, key) == []
  {
    var rs := [older, newer];
    assert rs[0] == older && rs[1] == newer;
  }

  /** Two hosts with one address: the older one is found although its command is another. */
  lemma OtherCommandIsFound(older: Record, newer: Record)
    requires older.data.cmdId != newer.data.cmdId && older.data.address == newer.data.address
    ensures var rs, cmdId, key := [older, newer], newer.data.cmdId, KeyOf(ByAddress, newer);
            older in Selected(rs, cmdId, ByAddress, key) && !Asked(rs, cmdId, ByAddress, key, older)
  {
    var rs := [older, newer];
    SelectedExactly(rs, newer.data.cmdId, ByAddress, KeyOf(ByAddress, newer), older);
    assert rs[0] == older && rs[1] == newer;
  }

  // ---------- the list that is built ----------

  function Entry(r: Record, isService: bool): Item {
    var command := XStrdup(Str(r.data.expandedText));
    if isService then Item(command, 1, null, r) else Item(command, 0, r, null)
  }

  function Entries(rs: seq<Record>, isService: bool): seq<Item> {
    seq(|rs|, i requires 0 <= i < |rs| => Entry(rs[i], isService))
  }

  /** Hosts first, then services. */
  function Found(hosts: seq<Record>, svcs: seq<Record>, cmdId: int, f: Field, key: string): seq<Item> {
    Entries(Selected(hosts, cmdId, f, Text(key)), false) + Entries(Selected(svcs, cmdId, f, Text(key)), true)
  }

  /** The arguments of execlist_build. */
  datatype Request = Request(command: CString, cmdId: int, useSender: bool, sender: CString, hostAddress: CString,
                             hostName: CString)

  /** db_lookup_expanded_text_by_cmd_id */
  function ExpandedText(commands: map<int, Command>, cmdId: int): CString {
    if cmdId == -1 || cmdId !in commands then Null else Str(commands[cmdId].expandedText)
  }

  function Addressed(q: Request, text: CString, host: CString): CString {
    if text.Null? then Null else XStrdup(Str(Expand(AddressHook(host, q.sender), text.s)))
  }

  /** The list for a request: a given command, else by host address, else by host name, else
      by sender address. */
  function Wanted(q: Request, commands: map<int, Command>, hosts: seq<Record>, svcs: seq<Record>): seq<Item> {
    if !IsEmpty(q.command) then [Item(Addressed(q, q.command, q.hostAddress), 0, null, null)]
    else if !IsEmpty(q.hostAddress) then Found(hosts, svcs, q.cmdId, ByAddress, q.hostAddress.s)
    else if !IsEmpty(q.hostName) then Found(hosts, svcs, q.cmdId, ByName, q.hostName.s)
    else if IsEmpty(q.sender) then []
    else if q.useSender then Found(hosts, svcs, q.cmdId, ByAddress, q.sender.s)
    else [Item(Addressed(q, ExpandedText(commands, q.cmdId), Null), -1, null, null)]
  }

  /** The body of the loop: the visited record is tested for the key again. */
  method AppendIfKey(list: List, r: Record, f: Field, key: Key, isService: bool)
    requires list.Valid()
    modifies list, list.repr
    ensures list.Valid() && fresh(list.repr - old(list.repr))
    ensures list.items == old(list.items) + if KeyOf(f, r) == key then [Entry(r, isService)] else []
  {
    if KeyOf(f, r) == key {
      AppendEntry(list, r, isService);
    }
  }

  /** The items of a chain whose records all have the key `k0`. */
  function ChainItems(chain: seq<Record>, k0: Key, key: Key, isService: bool): seq<Item> {
    if k0 == key then Entries(chain, isService) else []
  }

  lemma ItemsSnoc(before: seq<Item>, chain: seq<Record>, i: nat, f: Field, k0: Key, key: Key, isService: bool)
    requires i < |chain| && KeyOf(f, chain[i]) == k0
    ensures before + ChainItems(chain[..i], k0, key, isService) +
            (if KeyOf(f, chain[i]) == key then [Entry(chain[i], isService)] else []) ==
            before + ChainItems(chain[..i + 1], k0, key, isService)
  {
    EntriesSnoc(chain, i, isService);
  }

  /** The loop of execlist_build. */
  method AppendChain(list: List, first: Record?, f: Field, key: Key, isService: bool, ghost chain: seq<Record>,
                     ghost k0: Key)
    requires list.Valid() && IsChain(f, first, chain) && forall i | 0 <= i < |chain| :: KeyOf(f, chain[i]) == k0
    modifies list, list.repr
    ensures list.Valid() && fresh(list.repr - old(list.repr))
    ensures list.items == old(list.items) + ChainItems(chain, k0, key, isService)
  {
    var r := first;
    ghost var i, before := 0, list.items;
    while r != null
      invariant i <= |chain| && ChainFrom(f, r, chain, i)
      invariant list.Valid() && fresh(list.repr - old(list.repr))
      invariant list.items == before + ChainItems(chain[..i], k0, key, isService)
      decreases |chain| - i
    {
      ItemsSnoc(before, chain, i, f, k0, key, isService);
      AppendIfKey(list, r, f, key, isService);
      r := NextOf(f, r);
      i := i + 1;
    }
    assert chain[..i] == chain;
  }

  lemma EntriesSnoc(rs: seq<Record>, i: nat, isService: bool)
    requires i < |rs|
    ensures Entries(rs[..i + 1], isService) == Entries(rs[..i], isService) + [Entry(rs[i], isService)]
  {
  }

  method AppendEntry(list: List, r: Record, isService: bool)
    requires list.Valid()
    modifies list, list.repr
    ensures list.Valid() && fresh(list.repr - old(list.repr))
    ensures list.items == old(list.items) + [Entry(r, isService)]
  {
    var command := Str(r.data.expandedText);
    if isService {
      list.Append(command, 1, null, r);
    } else {
      list.Append(command, 0, r, null);
    }
  }

  /** From the command id's table entry along the chain of another field. */
  method AppendMatching(list: List, ix: Index, cmdId: int, f: Field, key: Key, isService: bool)
    requires list.Valid() && ix.Valid()
    modifies list, list.repr
    ensures list.Valid() && fresh(list.repr - old(list.repr))
    ensures list.items == old(list.items) + Entries(Selected(ix.loaded, cmdId, f, key), isService)
  {
    var h := Lookup(ix.byCmdId, Number(cmdId));
    assert ix.Threaded(ByCmdId) && ix.Threaded(f);
    if h != null {
      ghost var k0 := KeyOf(f, h);
      WalkVisits(ix.loaded, f, cmdId);
      MatchingIsExact(LoadedUpTo(ix.loaded, cmdId), f, k0);
      AppendChain(list, h, f, key, isService, Matching(LoadedUpTo(ix.loaded, cmdId), f, k0), k0);
    }
  }

  method AppendFound(list: List, q: Request, hosts: Index, svcs: Index, f: Field, key: string)
    requires list.Valid() && hosts.Valid() && svcs.Valid()
    modifies list, list.repr
    ensures list.Valid() && fresh(list.repr - old(list.repr))
    ensures list.items == old(list.items) + Found(hosts.loaded, svcs.loaded, q.cmdId, f, key)
  {
    ghost var before := list.items;
    AppendMatching(list, hosts, q.cmdId, f, Text(key), false);
    AppendMatching(list, svcs, q.cmdId, f, Text(key), true);
    Associate(before, Entries(Selected(hosts.loaded, q.cmdId, f, Text(key)), false),
              Entries(Selected(svcs.loaded, q.cmdId, f, Text(key)), true));
  }

  lemma Associate(a: seq<Item>, b: seq<Item>, c: seq<Item>)
    ensures a + b + c == a + (b + c)
  {
  }

  /** execlist_build. A command that is empty but not NULL fails its assertion. */
  method Build(q: Request, commands: map<int, Command>, hosts: Index, svcs: Index) returns (list: List)
    requires q.command != Str("") && hosts.Valid() && svcs.Valid()
    ensures fresh(list) && fresh(list.repr) && list.Valid()
    ensures list.items == Wanted(q, commands, hosts.loaded, svcs.loaded)
  {
    list := new List();
    if !IsEmpty(q.command) {
      var expanded, _ := ExpandCommand(AddressHook(q.hostAddress, q.sender), q.command);
      list.Append(expanded, 0, null, null);
    } else if !IsEmpty(q.hostAddress) {
      AppendFound(list, q, hosts, svcs, ByAddress, q.hostAddress.s);
    } else if !IsEmpty(q.hostName) {
      AppendFound(list, q, hosts, svcs, ByName, q.hostName.s);
    } else if !IsEmpty(q.sender) && q.useSender {
      AppendFound(list, q, hosts, svcs, ByAddress, q.sender.s);
    } else if !IsEmpty(q.sender) {
      var expanded, _ := ExpandCommand(AddressHook(Null, q.sender), ExpandedText(commands, q.cmdId));
      list.Append(expanded, -1, null, null);
    }
  }

  // ---------- what the list promises ----------

  /** Every host and service in the list is one of the loaded ones, carries the address or
      name that was asked for, and is run with its own command line. */
  lemma EveryEntryMatches(q: Request, commands: map<int, Command>, hosts: seq<Record>, svcs: seq<Record>, i: nat)
    requires i < |Wanted(q, commands, hosts, svcs)|
    ensures Matches(q, Wanted(q, commands, hosts, svcs)[i], hosts, svcs)
  {
    if IsEmpty(q.command) {
      if !IsEmpty(q.hostAddress) {
        FoundMatches(hosts, svcs, q.cmdId, ByAddress, q.hostAddress.s, i);
      } else if !IsEmpty(q.hostName) {
        FoundMatches(hosts, svcs, q.cmdId, ByName, q.hostName.s, i);
      } else if q.useSender {
        FoundMatches(hosts, svcs, q.cmdId, ByAddress, q.sender.s, i);
      }
    }
  }

  /** The record has the key that the request goes by. */
  predicate Answers(q: Request, r: Record) {
    if !IsEmpty(q.hostAddress) then r.data.address == q.hostAddress.s
    else if !IsEmpty(q.hostName) then r.data.name == q.hostName.s
    else q.useSender && q.sender == Str(r.data.address)
  }

  predicate Matches(q: Request, x: Item, hosts: seq<Record>, svcs: seq<Record>) {
    && (x.host != null ==> x.host in hosts && Answers(q, x.host) && x == Entry(x.host, false))
    && (x.svc != null ==> x.svc in svcs && Answers(q, x.svc) && x == Entry(x.svc, true))
    && (if x.isService == 1 then x.svc != null else x.isService == 0 || x.isService == -1)
  }

  lemma FoundMatches(hosts: seq<Record>, svcs: seq<Record>, cmdId: int, f: Field, key: string, i: nat)
    requires i < |Found(hosts, svcs, cmdId, f, key)|
    ensures var x := Found(hosts, svcs, cmdId, f, key)[i];
            || (x.host != null && x.host in hosts && KeyOf(f, x.host) == Text(key) && x == Entry(x.host, false))
            || (x.svc != null && x.svc in svcs && KeyOf(f, x.svc) == Text(key) && x == Entry(x.svc, true))
  {
    var hs, ss := Selected(hosts, cmdId, f, Text(key)), Selected(svcs, cmdId, f, Text(key));
    if i < |hs| {
      SelectedExactly(hosts, cmdId, f, Text(key), hs[i]);
      assert hs[i] in hs;
    } else {
      SelectedExactly(svcs, cmdId, f, Text(key), ss[i - |hs|]);
      assert ss[i - |hs|] in ss;
    }
  }

  /** Without a command, a host and a looked-up sender, the list is the command's text after the
      resource pass and the address pass, and the plugin decides what it is about. */
  lemma SenderItem(q: Request, resources: map<string, CString>, rows: seq<CommandRow>, hosts: seq<Record>,
                   svcs: seq<Record>, i: nat)
    requires HasTexts(rows) && Defines(rows, i, q.cmdId) && q.cmdId != -1
    requires IsEmpty(q.command) && IsEmpty(q.hostAddress) && IsEmpty(q.hostName) && !IsEmpty(q.sender) && !q.useSender
    ensures Wanted(q, Commands(resources, rows), hosts, svcs) ==
            [Item(XStrdup(Str(SenderText(resources, rows[i].text.s, q.sender))), -1, null, null)]
  {
    CommandsDefine(resources, rows, q.cmdId, i);
  }
}
