/** What a plugin prints, line by line, and what of it may be reported (src/exec.c). */
module Results {
  import opened Collections
  import opened CStrings
  import opened Hooks
  import opened HostIndex
  import Quoting

  // ---------- fields ----------

  /** The fields of a line, empty ones included. */
  function Fields(s: string): (fs: seq<string>)
    ensures fs != []
    decreases |s|
  {
    var n := Span(s, "|");
    if n == |s| then [s] else [s[..n]] + Fields(s[n + 1..])
  }

  function JoinFields(fs: seq<string>): string
    requires fs != []
  {
    if |fs| == 1 then fs[0] else fs[0] + "|" + JoinFields(fs[1..])
  }

  lemma FieldsCut(f: string, rest: string)
    requires '|' !in f
    ensures Fields(f + ("|" + rest)) == [f] + Fields(rest)
  {
    var s := f + ("|" + rest);
    SpanStops(f, "|", "|" + rest);
    assert s[..|f|] == f;
    assert s[|f| + 1..] == rest;
  }

  lemma JoinCons(fs: seq<string>)
    requires |fs| > 1
    ensures JoinFields(fs) == fs[0] + ("|" + JoinFields(fs[1..]))
  {
  }

  /** Fields joined by bars are read back, */
  lemma {:induction false} FieldsOfJoin(fs: seq<string>)
    requires fs != [] && forall i | 0 <= i < |fs| :: '|' !in fs[i]
    ensures Fields(JoinFields(fs)) == fs
    decreases |fs|
  {
    if |fs| == 1 {
      SpanStops(fs[0], "|", "");
      assert fs[0] + "" == fs[0];
    } else {
      JoinCons(fs);
      FieldsOfJoin(fs[1..]);
      FieldsCut(fs[0], JoinFields(fs[1..]));
      assert fs == [fs[0]] + fs[1..];
    }
  }

  /** and every line is its fields joined by bars. */
  lemma {:induction false} JoinOfFields(s: string)
    ensures JoinFields(Fields(s)) == s
    decreases |s|
  {
    var n := Span(s, "|");
    if n < |s| {
      JoinOfFields(s[n + 1..]);
      assert s == s[..n] + "|" + s[n + 1..];
    }
  }

  // ---------- a result ----------

  datatype Result = Result(
    complete: bool, isService: bool, useSender: bool,
    hostAddress: CString, hostName: CString, svcDesc: CString,
    retValue: int, output: CString, perfdata: CString, validSvcId: bool, svcId: int)

  predicate AllDigits(c: CString) {
    c.Str? && forall k | 0 <= k < |c.s| :: IsDigit(c.s[k])
  }

  /** A field, NULL if the line has too few. */
  function TextAt(fs: seq<string>, i: nat): CString {
    if i < |fs| then XStrdup(Str(fs[i])) else Null
  }

  /** A field read as a number. */
  function NumberAt(fs: seq<string>, i: nat): (bool, int) {
    if i < |fs| then (AllDigits(Str(fs[i])), Atoi(fs[i])) else (false, 0)
  }

  /** The result as the fields give it; a plugin that may choose reports a service by giving
      it a description. */
  function FromFields(fs: seq<string>, isService: int, useSender: bool): Result {
    Result(NumberAt(fs, 3).0, if isService == -1 then TextAt(fs, 2).Str? else isService != 0, useSender,
           TextAt(fs, 0), TextAt(fs, 1), TextAt(fs, 2),
           NumberAt(fs, 3).1, TextAt(fs, 4), TextAt(fs, 5), NumberAt(fs, 6).0, NumberAt(fs, 6).1)
  }

  function OrElse(field: CString, other: CString): CString {
    if IsEmpty(field) && !IsEmpty(other) then other else field
  }

  /** Names that the plugin left empty are those of the host or service it was run for. */
  function Filled(r: Result, record: Record?): Result {
    if record == null then r
    else r.(hostAddress := OrElse(r.hostAddress, Str(record.data.address)),
            hostName := OrElse(r.hostName, Str(record.data.name)),
            svcDesc := if r.isService then OrElse(r.svcDesc, record.data.description) else r.svcDesc)
  }

  /** The result that a line's fields stand for. */
  function Understand(fs: seq<string>, isService: int, host: Record?, svc: Record?, useSender: bool): Result {
    var r := FromFields(fs, isService, useSender);
    if r.complete then Filled(r, if r.isService then svc else host) else r
  }

  /** The result that a line stands for. */
  function Parsed(line: string, isService: int, host: Record?, svc: Record?, useSender: bool): Result {
    Understand(FirstSeven(Fields(Quoting.RemoveChars(line, "\n\r"))), isService, host, svc, useSender)
  }

  /** A line that can be parsed without following a NULL pointer. */
  predicate WellFormed(line: string) {
    |Fields(Quoting.RemoveChars(line, "\n\r"))| >= 7
  }

  /** strsep with "|": the next token and what is behind its bar, NULL after the last one. */
  method StrSep(str: CString) returns (token: CString, rest: CString)
    ensures str.Null? <==> token.Null?
    ensures str.Null? ==> rest.Null?
    ensures str.Str? ==> Fields(str.s) == [token.s] + FieldsOf(rest)
    ensures str.Str? && rest.Str? ==> |rest.s| < |str.s|
  {
    if str.Null? {
      return Null, Null;
    }
    var s := str.s;
    assert s[0..] == s;
    var n := StrCSpn(s, 0, "|");
    token := Str(s[..n]);
    assert n == |s| ==> s[..n] == s;
    rest := if n == |s| then Null else Str(s[n + 1..]);
  }

  function FieldsOf(str: CString): seq<string> {
    if str.Null? then [] else Fields(str.s)
  }

  function FirstSeven(fs: seq<string>): seq<string> {
    if |fs| <= 7 then fs else fs[..7]
  }

  lemma SeventhStep(read: seq<string>, token: string, rest: seq<string>)
    ensures FirstSeven(read + [token]) == if |read| < 7 then FirstSeven(read) + [token] else FirstSeven(read)
    ensures read + ([token] + rest) == read + [token] + rest
  {
  }

  /** The token loop of parse_result_str; tokens after the seventh are ignored. */
  method ReadFields(s: string) returns (f: seq<string>)
    ensures f == FirstSeven(Fields(s))
  {
    f := [];
    var str := Str(s);
    ghost var read: seq<string> := [];
    while true
      invariant f == FirstSeven(read) && read + FieldsOf(str) == Fields(s)
      decreases if str.Null? then 0 else |str.s| + 1
    {
      var token, rest := StrSep(str);
      if token.Null? {
        return;
      }
      SeventhStep(read, token.s, FieldsOf(rest));
      if |f| < 7 {
        f := f + [token.s];
      }
      str := rest;
      read := read + [token.s];
    }
  }

  /** parse_result_str on a line with at least seven fields */
  method ParseResult(line: string, isService: int, host: Record?, svc: Record?, useSender: bool) returns (r: Result)
    requires WellFormed(line)
    ensures r == Parsed(line, isService, host, svc, useSender)
  {
    var stripped := Quoting.RemoveCharsFrom(Str(line), "\n\r");
    assert Fields("") == [""];
    var f := ReadFields(stripped.s);
    r := TakeFields(f, isService, useSender);
    if r.complete {
      r := FillIn(r, if r.isService then svc else host);
    }
  }

  method TakeFields(f: seq<string>, isService: int, useSender: bool) returns (r: Result)
    requires |f| == 7
    ensures r == FromFields(f, isService, useSender)
  {
    var complete := Quoting.IsInteger(Str(f[3]));
    var valid := Quoting.IsInteger(Str(f[6]));
    var service := isService != 0;
    if isService == -1 {
      service := f[2] != "";
    }
    r := Result(complete, service, useSender, XStrdup(Str(f[0])), XStrdup(Str(f[1])), XStrdup(Str(f[2])),
                Atoi(f[3]), XStrdup(Str(f[4])), XStrdup(Str(f[5])), valid, Atoi(f[6]));
  }

  /** The last part of parse_result_str. */
  method FillIn(r: Result, record: Record?) returns (r': Result)
    ensures r' == Filled(r, record)
  {
    r' := r;
    if record == null {
      return;
    }
    if IsEmpty(r.hostAddress) && record.data.address != "" {
      r' := r'.(hostAddress := Str(record.data.address));
    }
    if IsEmpty(r.hostName) && record.data.name != "" {
      r' := r'.(hostName := Str(record.data.name));
    }
    if r.isService && IsEmpty(r.svcDesc) && !IsEmpty(record.data.description) {
      r' := r'.(svcDesc := record.data.description);
    }
  }

  // ---------- what a plugin's line means ----------

  predicate Plain(f: string) {
    '|' !in f && '\n' !in f && '\r' !in f
  }

  lemma {:induction false} JoinHasNoNewline(fs: seq<string>)
    requires fs != [] && forall i | 0 <= i < |fs| :: Plain(fs[i])
    ensures forall i | 0 <= i < |JoinFields(fs)| :: JoinFields(fs)[i] !in "\n\r"
  {
    if |fs| > 1 {
      JoinHasNoNewline(fs[1..]);
    }
  }

  /** The fields of a line as a plugin prints it. */
  predicate Printable(fs: seq<string>) {
    |fs| >= 7 && forall i | 0 <= i < |fs| :: Plain(fs[i])
  }

  lemma PrintedFields(fs: seq<string>)
    requires Printable(fs)
    ensures Fields(Quoting.RemoveChars(JoinFields(fs), "\n\r")) == fs
  {
    JoinHasNoNewline(fs);
    Quoting.RemoveCharsKeeps(JoinFields(fs), "\n\r");
    assert forall i | 0 <= i < |fs| :: Plain(fs[i]);
    FieldsOfJoin(fs);
  }

  /** A plugin's line of seven fields or more is understood: each of seven reaches its place. If the return
      value is numeric the result is complete, and empty names are those of the host or service. */
  lemma PrintedLineIsUnderstood(fs: seq<string>, isService: int, host: Record?, svc: Record?, useSender: bool)
    requires Printable(fs)
    ensures WellFormed(JoinFields(fs))
    ensures Understood(fs, isService, host, svc, useSender, Parsed(JoinFields(fs), isService, host, svc, useSender))
  {
    PrintedFields(fs);
    FieldsAreUnderstood(fs, isService, host, svc, useSender);
  }

  lemma FirstSevenAt(fs: seq<string>, i: nat)
    requires i < 7 <= |fs|
    ensures TextAt(FirstSeven(fs), i) == Given(fs[i], Null)
    ensures NumberAt(FirstSeven(fs), i) == (AllDigits(Str(fs[i])), Atoi(fs[i]))
  {
  }

  lemma FieldsAreUnderstood(fs: seq<string>, isService: int, host: Record?, svc: Record?, useSender: bool)
    requires |fs| >= 7
    ensures Understood(fs, isService, host, svc, useSender, Understand(FirstSeven(fs), isService, host, svc, useSender))
  {
    forall i: nat | i < 7
      ensures TextAt(FirstSeven(fs), i) == Given(fs[i], Null)
      ensures NumberAt(FirstSeven(fs), i) == (AllDigits(Str(fs[i])), Atoi(fs[i]))
    {
      FirstSevenAt(fs, i);
    }
  }

  /** The host or service whose names stand in for empty fields. */
  function Source(r: Result, host: Record?, svc: Record?): Record? {
    if !r.complete then null else if r.isService then svc else host
  }

  predicate Understood(fs: seq<string>, isService: int, host: Record?, svc: Record?, useSender: bool, r: Result)
    requires |fs| >= 7
  {
    && (r.complete <==> AllDigits(Str(fs[3]))) && r.useSender == useSender && r.retValue == Atoi(fs[3])
    && r.output == XStrdup(Str(fs[4])) && r.perfdata == XStrdup(Str(fs[5]))
    && r.validSvcId == AllDigits(Str(fs[6])) && r.svcId == Atoi(fs[6])
    && r.isService == (if isService == -1 then fs[2] != "" else isService != 0)
    && r.hostAddress == Given(fs[0], NameOf(Source(r, host, svc), ByAddress))
    && r.hostName == Given(fs[1], NameOf(Source(r, host, svc), ByName))
    && r.svcDesc == Given(fs[2], if r.isService then DescriptionOf(Source(r, host, svc)) else Null)
  }

  function Given(field: string, other: CString): CString {
    if field != "" then Str(field) else other
  }

  function NameOf(r: Record?, f: Field): CString {
    if r == null then Null else if f.ByAddress? then XStrdup(Str(r.data.address)) else XStrdup(Str(r.data.name))
  }

  function DescriptionOf(r: Record?): CString {
    if r == null then Null else XStrdup(r.data.description)
  }

  /** The line has a numeric return value; it names a service. */
  predicate LineComplete(line: string) {
    NumberAt(FirstSeven(Fields(Quoting.RemoveChars(line, "\n\r"))), 3).0
  }

  predicate LineDescribes(line: string) {
    TextAt(FirstSeven(Fields(Quoting.RemoveChars(line, "\n\r"))), 2).Str?
  }

  /** Output without a complete line ends in a line that names a service. */
  predicate Describes(lines: seq<string>) {
    || lines == [] || LineComplete(lines[0])
    || (if |lines| == 1 then LineDescribes(lines[0]) else Describes(lines[1..]))
  }

  // ---------- the output gate ----------

  /** A loaded host has the name or the address of the result. */
  predicate HostKnown(r: Result, hosts: seq<Record>) {
    exists i :: 0 <= i < |hosts| &&
      (Str(hosts[i].data.name) == r.hostName || Str(hosts[i].data.address) == r.hostAddress)
  }

  /** A loaded service has its description and its host's name or address. */
  predicate ServiceKnown(r: Result, svcs: seq<Record>) {
    exists i :: 0 <= i < |svcs| && svcs[i].data.description == r.svcDesc &&
                (Str(svcs[i].data.name) == r.hostName || Str(svcs[i].data.address) == r.hostAddress)
  }

  /** Which results are written to the channel: a scan of all loaded rows. */
  predicate Confirmed(r: Result, hosts: seq<Record>, svcs: seq<Record>) {
    && !IsEmpty(r.hostName)
    && (r.isService ==> !IsEmpty(r.svcDesc))
    && (r.useSender || if r.isService then ServiceKnown(r, svcs) else HostKnown(r, hosts))
  }

  /** The results that are written, in order. */
  function Written(rs: seq<Result>, hosts: seq<Record>, svcs: seq<Record>): seq<Result> {
    if rs == [] then []
    else
      var r := rs[|rs| - 1];
      Written(rs[..|rs| - 1], hosts, svcs) + if Confirmed(r, hosts, svcs) then [r] else []
  }

  /** db_lookup_*: NULL for an empty key. */
  function Head(ix: Index, f: Field, key: CString): Record?
    reads ix
  {
    if IsEmpty(key) then null else Lookup(ix.TableOf(f), Text(key.s))
  }

  predicate HasKey(r: Record, f: Field, key: CString) {
    key.Str? && KeyOf(f, r) == Text(key.s)
  }

  // ---------- walking a chain with strcmp ----------

  /** The records that the walk for a key visits if it goes to the end. */
  function Chain(svcs: seq<Record>, f: Field, key: CString): seq<Record> {
    if IsEmpty(key) then [] else Matching(svcs, f, Text(key.s))
  }

  /** strcmp cannot compare the two descriptions. */
  predicate NullBetween(desc: CString, r: Record) {
    desc.Null? || r.data.description.Null?
  }

  predicate Matched(desc: CString, r: Record) {
    desc.Str? && r.data.description == desc
  }

  /** The walk comes to a record that cannot be compared before it comes to a match. */
  predicate MeetsNull(chain: seq<Record>, desc: CString) {
    exists i :: 0 <= i < |chain| && NullBetween(desc, chain[i]) && forall j | 0 <= j < i :: !Matched(desc, chain[j])
  }

  /** It comes to a match, and there is nothing before it that cannot be compared. */
  predicate MeetsMatch(chain: seq<Record>, desc: CString) {
    exists i :: 0 <= i < |chain| && Matched(desc, chain[i]) && forall j | 0 <= j < i :: !NullBetween(desc, chain[j])
  }

  /** A walk of do_output over one chain of services: whether a match is found, and whether NULL
      is passed to strcmp, which ends the daemon. */
  method FindService(svcs: Index, f: Field, key: CString, desc: CString) returns (found: bool, crash: bool)
    requires svcs.Valid() && f != ByCmdId
    ensures found <==> MeetsMatch(Chain(svcs.loaded, f, key), desc)
    ensures crash <==> MeetsNull(Chain(svcs.loaded, f, key), desc)
  {
    found, crash := false, false;
    if IsEmpty(key) {
      return;
    }
    var svc := Head(svcs, f, key);
    svcs.ChainFromTable(f, Text(key.s));
    ghost var chain, i := Chain(svcs.loaded, f, key), 0;
    while svc != null
      invariant i <= |chain| && ChainFrom(f, svc, chain, i)
      invariant forall j | 0 <= j < i :: !NullBetween(desc, chain[j]) && !Matched(desc, chain[j])
      decreases |chain| - i
    {
      if desc.Null? || svc.data.description.Null? {
        crash := true;
        return;
      }
      if desc.s == svc.data.description.s {
        found := true;
        return;
      }
      svc := NextOf(f, svc);
      i := i + 1;
    }
  }

  /** A walk that meets no NULL finds what a scan of all rows finds. */
  lemma WalkIsScan(svcs: seq<Record>, f: Field, key: CString, desc: CString)
    requires Named(svcs) && f != ByCmdId && !MeetsNull(Chain(svcs, f, key), desc)
    ensures MeetsMatch(Chain(svcs, f, key), desc) <==>
            exists i :: 0 <= i < |svcs| && HasKey(svcs[i], f, key) && svcs[i].data.description == desc
  {
    var chain := Chain(svcs, f, key);
    if !IsEmpty(key) {
      MatchingIsExact(svcs, f, Text(key.s));
    }
    if i :| 0 <= i < |svcs| && HasKey(svcs[i], f, key) && svcs[i].data.description == desc {
      assert svcs[i] in chain;
      var k :| 0 <= k < |chain| && chain[k] == svcs[i];
      FirstOf(chain, desc, k);
    }
  }

  /** A record that matches or cannot be compared makes the walk stop somewhere. */
  lemma {:induction false} FirstOf(chain: seq<Record>, desc: CString, k: nat)
    requires k < |chain| && (Matched(desc, chain[k]) || NullBetween(desc, chain[k]))
    ensures MeetsMatch(chain, desc) || MeetsNull(chain, desc)
    decreases k
  {
    if j :| 0 <= j < k && (Matched(desc, chain[j]) || NullBetween(desc, chain[j])) {
      FirstOf(chain, desc, j);
    } else if Matched(desc, chain[k]) {
      assert MeetsMatch(chain, desc);
    } else {
      assert MeetsNull(chain, desc);
    }
  }

  /** The lookup of do_output for a host. */
  method FindHost(hosts: Index, f: Field, key: CString) returns (found: bool)
    requires hosts.Valid() && f != ByCmdId && Named(hosts.loaded)
    ensures found <==> exists i :: 0 <= i < |hosts.loaded| && HasKey(hosts.loaded[i], f, key)
  {
    var h := Head(hosts, f, key);
    found := h != null;
    if !IsEmpty(key) {
      assert hosts.Threaded(f);
      NewestExists(hosts.loaded, f, Text(key.s));
    }
  }

  lemma {:induction false} NewestExists(rs: seq<Record>, f: Field, key: Key)
    ensures Newest(rs, f, key) != null <==> exists i :: 0 <= i < |rs| && KeyOf(f, rs[i]) == key
  {
    if rs != [] {
      var n := |rs| - 1;
      NewestExists(rs[..n], f, key);
      if i :| 0 <= i < |rs| && KeyOf(f, rs[i]) == key {
        assert i < n ==> KeyOf(f, rs[..n][i]) == key;
      }
    }
  }

  /** NULL reaches strcmp: on the chain of the host name, or on that of the address if the first
      walk finds nothing. */
  predicate Crashes(r: Result, svcs: seq<Record>) {
    !r.useSender && r.isService &&
    var byName := Chain(svcs, ByName, r.hostName);
    MeetsNull(byName, r.svcDesc)
    || (!MeetsMatch(byName, r.svcDesc) && MeetsNull(Chain(svcs, ByAddress, r.hostAddress), r.svcDesc))
  }

  /** No result of a run makes do_output compare NULL. */
  predicate AllSafe(rs: seq<Result>, svcs: seq<Record>) {
    forall i | 0 <= i < |rs| :: !Crashes(rs[i], svcs)
  }

  /** The results that are looked up before the first one that does. */
  function UntilCrash(rs: seq<Result>, svcs: seq<Record>): (n: nat)
    ensures n <= |rs| && AllSafe(rs[..n], svcs) && (n < |rs| ==> Crashes(rs[n], svcs))
  {
    if rs == [] || Crashes(rs[0], svcs) then 0
    else
      var n := UntilCrash(rs[1..], svcs);
      assert rs[..n + 1] == [rs[0]] + rs[1..][..n];
      n + 1
  }

  /** These properties determine it. */
  lemma UntilCrashIs(rs: seq<Result>, svcs: seq<Record>, n: nat)
    requires n <= |rs| && AllSafe(rs[..n], svcs) && (n < |rs| ==> Crashes(rs[n], svcs))
    ensures UntilCrash(rs, svcs) == n
  {
    var m := UntilCrash(rs, svcs);
    assert forall i | 0 <= i < n :: rs[i] == rs[..n][i];
    assert forall i | 0 <= i < m :: rs[i] == rs[..m][i];
  }

  /** What a result that can be looked up without comparing NULL confirms is a scan of all rows. */
  lemma ServiceIsKnown(r: Result, svcs: seq<Record>)
    requires Named(svcs) && !Crashes(r, svcs) && !r.useSender && r.isService
    ensures ServiceKnown(r, svcs) <==>
            || MeetsMatch(Chain(svcs, ByName, r.hostName), r.svcDesc)
            || MeetsMatch(Chain(svcs, ByAddress, r.hostAddress), r.svcDesc)
  {
    WalkIsScan(svcs, ByName, r.hostName, r.svcDesc);
    if !MeetsMatch(Chain(svcs, ByName, r.hostName), r.svcDesc) {
      WalkIsScan(svcs, ByAddress, r.hostAddress, r.svcDesc);
    } else {
      MatchIsKnown(r, svcs, ByName, r.hostName);
    }
    if MeetsMatch(Chain(svcs, ByAddress, r.hostAddress), r.svcDesc) {
      MatchIsKnown(r, svcs, ByAddress, r.hostAddress);
    }
  }

  lemma MatchIsKnown(r: Result, svcs: seq<Record>, f: Field, key: CString)
    requires MeetsMatch(Chain(svcs, f, key), r.svcDesc)
    requires (f == ByName && key == r.hostName) || (f == ByAddress && key == r.hostAddress)
    ensures ServiceKnown(r, svcs)
  {
    var chain := Chain(svcs, f, key);
    var i :| 0 <= i < |chain| && Matched(r.svcDesc, chain[i]);
    MatchingIsExact(svcs, f, Text(key.s));
    var k :| 0 <= k < |svcs| && svcs[k] == chain[i];
  }

  /** do_output: whether channel_write is reached, and whether NULL is passed to strcmp. */
  method DoOutput(r: Result, hosts: Index, svcs: Index) returns (written: bool, crash: bool)
    requires hosts.Valid() && svcs.Valid() && Named(hosts.loaded) && Named(svcs.loaded)
    ensures crash <==> Crashes(r, svcs.loaded)
    ensures written <==> !crash && Confirmed(r, hosts.loaded, svcs.loaded)
  {
    written, crash := true, false;
    if !r.useSender {
      if !r.isService {
        written := FindHost(hosts, ByName, r.hostName);
        if !written {
          written := FindHost(hosts, ByAddress, r.hostAddress);
        }
        assert written <==> HostKnown(r, hosts.loaded);
      } else {
        written, crash := FindService(svcs, ByName, r.hostName, r.svcDesc);
        if !written && !crash {
          written, crash := FindService(svcs, ByAddress, r.hostAddress, r.svcDesc);
        }
        if crash {
          return false, true;
        }
        ServiceIsKnown(r, svcs.loaded);
      }
    }
    if IsEmpty(r.hostName) {
      written := false;
    }
    if r.isService && IsEmpty(r.svcDesc) {
      written := false;
    }
  }

  // ---------- what is reported ----------

  predicate IsReported(rs: seq<Result>, hosts: seq<Record>, svcs: seq<Record>, a: nat) {
    a < |rs| && Confirmed(rs[a], hosts, svcs)
  }

  function ReportedAt(rs: seq<Result>, hosts: seq<Record>, svcs: seq<Record>): nat -> bool {
    (a: nat) => IsReported(rs, hosts, svcs, a)
  }

  ghost predicate TakenFrom<T>(taken: seq<T>, all: seq<T>, places: seq<nat>) {
    |taken| == |places| && forall i | 0 <= i < |places| :: places[i] < |all| && taken[i] == all[places[i]]
  }

  /** Exactly the confirmed results are written, each once and in order. */
  lemma {:induction false} WrittenPlaces(rs: seq<Result>, n: nat, hosts: seq<Record>, svcs: seq<Record>)
    returns (places: seq<nat>)
    requires n <= |rs|
    ensures Picks(places, n, ReportedAt(rs, hosts, svcs)) && TakenFrom(Written(rs[..n], hosts, svcs), rs, places)
    decreases n
  {
    places := [];
    if n > 0 {
      places := WrittenPlaces(rs, n - 1, hosts, svcs);
      places := OneMoreResult(rs, n - 1, hosts, svcs, places);
    }
  }

  lemma OneMoreResult(rs: seq<Result>, n: nat, hosts: seq<Record>, svcs: seq<Record>, places: seq<nat>)
    returns (places': seq<nat>)
    requires n < |rs| && Picks(places, n, ReportedAt(rs, hosts, svcs))
    requires TakenFrom(Written(rs[..n], hosts, svcs), rs, places)
    ensures Picks(places', n + 1, ReportedAt(rs, hosts, svcs))
    ensures TakenFrom(Written(rs[..n + 1], hosts, svcs), rs, places')
  {
    PicksNext(places, n, ReportedAt(rs, hosts, svcs));
    WrittenSnoc(rs, n, hosts, svcs);
    if Confirmed(rs[n], hosts, svcs) {
      TakenNext(Written(rs[..n], hosts, svcs), rs, places, n);
      places' := places + [n];
    } else {
      places' := places;
    }
  }

  lemma TakenNext<T>(taken: seq<T>, all: seq<T>, places: seq<nat>, n: nat)
    requires n < |all| && TakenFrom(taken, all, places)
    ensures TakenFrom(taken + [all[n]], all, places + [n])
  {
  }

  lemma WrittenSnoc(rs: seq<Result>, n: nat, hosts: seq<Record>, svcs: seq<Record>)
    requires n < |rs|
    ensures Written(rs[..n + 1], hosts, svcs) ==
            if Confirmed(rs[n], hosts, svcs) then Written(rs[..n], hosts, svcs) + [rs[n]]
            else Written(rs[..n], hosts, svcs)
  {
    assert rs[..n + 1][..n] == rs[..n];
  }

  /** What is reported names a host, and a service if it is about one; and unless the sender's
      address is used, a loaded row has these names. */
  lemma ReportedIsLoaded(r: Result, hosts: seq<Record>, svcs: seq<Record>) returns (j: nat)
    requires Confirmed(r, hosts, svcs)
    ensures r.hostName.Str? && r.hostName.s != "" && (r.isService ==> r.svcDesc.Str? && r.svcDesc.s != "")
    ensures !r.useSender && !r.isService ==>
      j < |hosts| && (r.hostName == Str(hosts[j].data.name) || r.hostAddress == Str(hosts[j].data.address))
    ensures !r.useSender && r.isService ==>
      && j < |svcs| && svcs[j].data.description == r.svcDesc
      && (r.hostName == Str(svcs[j].data.name) || r.hostAddress == Str(svcs[j].data.address))
  {
    j := 0;
    if !r.useSender && r.isService {
      j :| 0 <= j < |svcs| && svcs[j].data.description == r.svcDesc &&
           (Str(svcs[j].data.name) == r.hostName || Str(svcs[j].data.address) == r.hostAddress);
    } else if !r.useSender {
      j :| 0 <= j < |hosts| && (Str(hosts[j].data.name) == r.hostName || Str(hosts[j].data.address) == r.hostAddress);
    }
  }

  /** And whatever is so is reported. */
  lemma LoadedIsReported(r: Result, hosts: seq<Record>, svcs: seq<Record>, j: nat)
    requires r.hostName.Str? && r.hostName.s != "" && (r.isService ==> r.svcDesc.Str? && r.svcDesc.s != "")
    requires !r.useSender && !r.isService ==>
      j < |hosts| && (r.hostName == Str(hosts[j].data.name) || r.hostAddress == Str(hosts[j].data.address))
    requires !r.useSender && r.isService ==>
      && j < |svcs| && svcs[j].data.description == r.svcDesc
      && (r.hostName == Str(svcs[j].data.name) || r.hostAddress == Str(svcs[j].data.address))
    ensures Confirmed(r, hosts, svcs)
  {
  }

  // ---------- inputs that compare NULL ----------

  lemma NullIsCompared(r: Result, svc: Record)
    requires !r.useSender && r.isService && r.hostName == Str(svc.data.name) && svc.data.name != ""
    requires NullBetween(r.svcDesc, svc)
    ensures Crashes(r, [svc])
  {
    var chain := Chain([svc], ByName, r.hostName);
    assert [svc][..0] == [] && Matching([svc][..0], ByName, Text(svc.data.name)) == [];
    assert Matching([svc], ByName, Text(svc.data.name)) == [svc];
    assert NullBetween(r.svcDesc, chain[0]);
  }

  /** A service's plugin prints a line that names the host but no service, and whose return value
      is not a number: NULL is compared with the service's description. */
  lemma LineComparesNull(fs: seq<string>, svc: Record)
    requires Printable(fs)
    requires fs[1] == svc.data.name != "" && fs[2] == "" && !AllDigits(Str(fs[3]))
    ensures WellFormed(JoinFields(fs)) && Crashes(Parsed(JoinFields(fs), 1, null, svc, false), [svc])
  {
    PrintedFields(fs);
    NullIsCompared(Parsed(JoinFields(fs), 1, null, svc, false), svc);
  }

  /** There are such lines. */
  lemma SilentLine(fs: seq<string>)
    requires fs == ["", "h", "", "x", "", "", ""]
    ensures Printable(fs) && fs[2] == "" && !AllDigits(Str(fs[3]))
  {
    assert !IsDigit(fs[3][0]);
  }
}
