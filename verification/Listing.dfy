/** What execlist_build lists for each kind of request, in what order, and what its commands say
    (src/execlist.c). */
module Listing {
  import opened Collections
  import opened CStrings
  import opened Expander
  import ExpanderLaws
  import opened Hooks
  import opened HookTexts
  import opened HostIndex
  import opened Execlist

  // ---------- order of a chain ----------

  /** The places of the records with a key. */
  function HasKeyAt(rs: seq<Record>, f: Field, key: Key): nat -> bool {
    (a: nat) => a < |rs| && KeyOf(f, rs[a]) == key
  }

  /** The records at some places, the last place first. */
  ghost predicate Backwards(found: seq<Record>, rs: seq<Record>, places: seq<nat>) {
    && |found| == |places|
    && forall i | 0 <= i < |places| :: places[i] < |rs| && found[|places| - 1 - i] == rs[places[i]]
  }

  /** Matching goes backwards through exactly the places with the key. */
  lemma {:induction false} MatchingPlaces(rs: seq<Record>, n: nat, f: Field, key: Key) returns (places: seq<nat>)
    requires n <= |rs|
    ensures Picks(places, n, HasKeyAt(rs, f, key)) && Backwards(Matching(rs[..n], f, key), rs, places)
    decreases n
  {
    places := [];
    if n > 0 {
      places := MatchingPlaces(rs, n - 1, f, key);
      places := OneMorePlace(rs, n - 1, f, key, places);
    }
  }

  lemma OneMorePlace(rs: seq<Record>, n: nat, f: Field, key: Key, places: seq<nat>) returns (places': seq<nat>)
    requires n < |rs| && Picks(places, n, HasKeyAt(rs, f, key))
    requires Backwards(Matching(rs[..n], f, key), rs, places)
    ensures Picks(places', n + 1, HasKeyAt(rs, f, key)) && Backwards(Matching(rs[..n + 1], f, key), rs, places')
  {
    PicksNext(places, n, HasKeyAt(rs, f, key));
    MatchingSnoc(rs, n, f, key);
    if KeyOf(f, rs[n]) == key {
      BackwardsNext(Matching(rs[..n], f, key), rs, places, n);
      places' := places + [n];
    } else {
      assert [] + Matching(rs[..n], f, key) == Matching(rs[..n], f, key);
      places' := places;
    }
  }

  lemma MatchingSnoc(rs: seq<Record>, n: nat, f: Field, key: Key)
    requires n < |rs|
    ensures Matching(rs[..n + 1], f, key) ==
            (if KeyOf(f, rs[n]) == key then [rs[n]] else []) + Matching(rs[..n], f, key)
  {
    assert rs[..n + 1][..n] == rs[..n];
  }

  lemma BackwardsNext(found: seq<Record>, rs: seq<Record>, places: seq<nat>, n: nat)
    requires n < |rs| && Backwards(found, rs, places)
    ensures Backwards([rs[n]] + found, rs, places + [n])
  {
  }

  // ---------- the selected records ----------

  /** The record at `n` is the last one with the command id. */
  predicate LastWith(rs: seq<Record>, cmdId: int, n: nat) {
    n < |rs| && rs[n].data.cmdId == cmdId && forall a | n < a < |rs| :: rs[a].data.cmdId != cmdId
  }

  /** The places that are selected: those with the key up to the last record with the command
      id, if that one has the key too. */
  ghost function SelectedAt(rs: seq<Record>, cmdId: int, f: Field, key: Key): nat -> bool {
    (a: nat) =>
      a < |rs| && KeyOf(f, rs[a]) == key && exists n: nat :: a <= n && LastWith(rs, cmdId, n) && KeyOf(f, rs[n]) == key
  }

  lemma PicksUpTo(places: seq<nat>, rs: seq<Record>, cmdId: int, f: Field, key: Key, n: nat)
    requires LastWith(rs, cmdId, n) && KeyOf(f, rs[n]) == key && Picks(places, n + 1, HasKeyAt(rs, f, key))
    ensures Picks(places, |rs|, SelectedAt(rs, cmdId, f, key))
  {
    var keep := SelectedAt(rs, cmdId, f, key);
    forall a: nat ensures keep(a) <==> a <= n && HasKeyAt(rs, f, key)(a) {
      if a <= n && HasKeyAt(rs, f, key)(a) {
        assert a <= n && LastWith(rs, cmdId, n) && KeyOf(f, rs[n]) == key;
      }
    }
  }

  lemma SelectedPlaces(rs: seq<Record>, cmdId: int, f: Field, key: Key) returns (places: seq<nat>)
    ensures Picks(places, |rs|, SelectedAt(rs, cmdId, f, key)) && Backwards(Selected(rs, cmdId, f, key), rs, places)
  {
    var p := LoadedUpTo(rs, cmdId);
    UpToEndsInNewest(rs, cmdId);
    places := [];
    if p != [] {
      var n: nat := |p| - 1;
      assert p == rs[..n + 1] && LastWith(rs, cmdId, n);
      if KeyOf(f, rs[n]) == key {
        places := MatchingPlaces(rs, n + 1, f, key);
        PicksUpTo(places, rs, cmdId, f, key, n);
      }
    }
  }

  // ---------- requests without a command ----------

  /** The item that runs a host's or a service's own command. */
  predicate IsItemOf(x: Item, r: Record, isService: bool) {
    && x.command == XStrdup(Str(r.data.expandedText)) && x.isService == (if isService then 1 else 0)
    && x.host == (if isService then null else r) && x.svc == (if isService then r else null)
  }

  /** Items for the records at some places, the last place first. */
  predicate ItemsOf(items: seq<Item>, rs: seq<Record>, places: seq<nat>, isService: bool) {
    && |items| == |places|
    && forall i | 0 <= i < |places| ::
         places[i] < |rs| && IsItemOf(items[|places| - 1 - i], rs[places[i]], isService)
  }

  /** The list goes by one key: first the selected hosts, then the selected services, each newest
      first. */
  ghost predicate ListsBy(items: seq<Item>, hosts: seq<Record>, svcs: seq<Record>, cmdId: int, f: Field, key: string) {
    exists hp: seq<nat>, sp: seq<nat> ::
      && Picks(hp, |hosts|, SelectedAt(hosts, cmdId, f, Text(key)))
      && Picks(sp, |svcs|, SelectedAt(svcs, cmdId, f, Text(key)))
      && |items| == |hp| + |sp|
      && ItemsOf(items[..|hp|], hosts, hp, false) && ItemsOf(items[|hp|..], svcs, sp, true)
  }

  lemma EntriesAre(found: seq<Record>, rs: seq<Record>, places: seq<nat>, isService: bool)
    requires Backwards(found, rs, places)
    ensures ItemsOf(Entries(found, isService), rs, places, isService)
  {
  }

  lemma FoundLists(hosts: seq<Record>, svcs: seq<Record>, cmdId: int, f: Field, key: string)
    ensures ListsBy(Found(hosts, svcs, cmdId, f, key), hosts, svcs, cmdId, f, key)
  {
    var hs, ss := Selected(hosts, cmdId, f, Text(key)), Selected(svcs, cmdId, f, Text(key));
    var hp := SelectedPlaces(hosts, cmdId, f, Text(key));
    var sp := SelectedPlaces(svcs, cmdId, f, Text(key));
    EntriesAre(hs, hosts, hp, false);
    EntriesAre(ss, svcs, sp, true);
    var items := Found(hosts, svcs, cmdId, f, key);
    assert items[..|hp|] == Entries(hs, false) && items[|hp|..] == Entries(ss, true);
  }

  /** A host address comes first, */
  lemma ListedByAddress(q: Request, commands: map<int, Command>, hosts: seq<Record>, svcs: seq<Record>)
    requires IsEmpty(q.command) && !IsEmpty(q.hostAddress)
    ensures ListsBy(Wanted(q, commands, hosts, svcs), hosts, svcs, q.cmdId, ByAddress, q.hostAddress.s)
  {
    FoundLists(hosts, svcs, q.cmdId, ByAddress, q.hostAddress.s);
  }

  /** then a host name, */
  lemma ListedByName(q: Request, commands: map<int, Command>, hosts: seq<Record>, svcs: seq<Record>)
    requires IsEmpty(q.command) && IsEmpty(q.hostAddress) && !IsEmpty(q.hostName)
    ensures ListsBy(Wanted(q, commands, hosts, svcs), hosts, svcs, q.cmdId, ByName, q.hostName.s)
  {
    FoundLists(hosts, svcs, q.cmdId, ByName, q.hostName.s);
  }

  /** then a sender whose address is looked up. */
  lemma ListedBySender(q: Request, commands: map<int, Command>, hosts: seq<Record>, svcs: seq<Record>)
    requires IsEmpty(q.command) && IsEmpty(q.hostAddress) && IsEmpty(q.hostName) && !IsEmpty(q.sender) && q.useSender
    ensures ListsBy(Wanted(q, commands, hosts, svcs), hosts, svcs, q.cmdId, ByAddress, q.sender.s)
  {
    FoundLists(hosts, svcs, q.cmdId, ByAddress, q.sender.s);
  }

  /** Nothing to go by, nothing listed. */
  lemma NothingListed(q: Request, commands: map<int, Command>, hosts: seq<Record>, svcs: seq<Record>)
    requires IsEmpty(q.command) && IsEmpty(q.hostAddress) && IsEmpty(q.hostName) && IsEmpty(q.sender)
    ensures Wanted(q, commands, hosts, svcs) == []
  {
  }

  // ---------- single items ----------

  /** The item runs `text` for no host or service; nothing if the text is empty. */
  predicate IsTextItem(x: Item, text: string, isService: int) {
    x.command == (if text == "" then Null else Str(text)) && x.isService == isService && x.host == null && x.svc == null
  }

  /** A given command is run with the two addresses in place, whatever is loaded. */
  lemma GivenCommandListed(q: Request, c: ExpanderLaws.Command, commands: map<int, Command>, hosts: seq<Record>,
                           svcs: seq<Record>)
    requires ExpanderLaws.WellFormed(c) && q.command == Str(ExpanderLaws.Print(c)) && ExpanderLaws.Print(c) != ""
    ensures var items := Wanted(q, commands, hosts, svcs);
            |items| == 1 && IsTextItem(items[0], WithAddresses(OrUnknown(q.hostAddress), OrUnknown(q.sender), c), 0)
  {
    AddressesReplaced(q.hostAddress, q.sender, c);
  }

  /** For a sender that is not looked up it is the command with the id, with the host's address
      unknown and the sender's in place. */
  lemma SenderCommandListed(q: Request, c: ExpanderLaws.Command, commands: map<int, Command>, hosts: seq<Record>,
                            svcs: seq<Record>)
    requires IsEmpty(q.command) && IsEmpty(q.hostAddress) && IsEmpty(q.hostName) && !IsEmpty(q.sender) && !q.useSender
    requires ExpanderLaws.WellFormed(c) && q.cmdId != -1 && q.cmdId in commands
             && commands[q.cmdId].expandedText == ExpanderLaws.Print(c)
    ensures var items := Wanted(q, commands, hosts, svcs);
            |items| == 1 && IsTextItem(items[0], WithAddresses("UNKNOWN", q.sender.s, c), -1)
  {
    AddressesReplaced(Null, q.sender, c);
  }

  /** An unknown command leaves an item that has none. */
  lemma UnknownCommandListed(q: Request, commands: map<int, Command>, hosts: seq<Record>, svcs: seq<Record>)
    requires IsEmpty(q.command) && IsEmpty(q.hostAddress) && IsEmpty(q.hostName) && !IsEmpty(q.sender) && !q.useSender
    requires q.cmdId == -1 || q.cmdId !in commands
    ensures var items := Wanted(q, commands, hosts, svcs); |items| == 1 && items[0].command.Null?
  {
  }

  // ---------- what a record's command says ----------

  /** The command line kept with a host or a service, macro by macro: its command's text with the
      resources in place, and that with the row's address and arguments in place. */
  lemma RecordCommand(r: Record, row: Row, resources: map<string, CString>, rows: seq<CommandRow>, i: nat,
                      text: ExpanderLaws.Command, resolved: ExpanderLaws.Command)
    requires HasTexts(rows) && Defines(rows, i, Atoi(row.cmdId)) && RecordOf(r, row, Commands(resources, rows))
    requires ExpanderLaws.WellFormed(text) && rows[i].text == Str(ExpanderLaws.Print(text))
    requires ExpanderLaws.WellFormed(resolved) && ExpanderLaws.Print(resolved) == WithResources(resources, text)
    ensures r.data.expandedText == WithArguments(row.address, Arguments(row.args), resolved)
  {
    DefinedCommand(resources, rows, Atoi(row.cmdId), i);
    ResourcesReplaced(resources, text);
    ArgumentsReplaced(row.address, Arguments(row.args), resolved);
  }
}
