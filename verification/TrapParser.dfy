/** The protocol parser (src/trap.c): an eight-state automaton over space-separated tokens. */
module TrapParser {
  import opened CStrings
  import opened Quoting
  import Tokens

  datatype ProtoCmd = CmdNone | CmdTrap | CmdAlive | CmdDiagnostics | CmdInvalid

  datatype Status =
    | Started | CommandRead | HostnameRead | ReadingIpAddress
    | IpAddressRead | OidRead | ReadingValue | ValueRead

  datatype MibObject = MibObject(oid: string, value: CString, quoted: CString)

  /** A trap that passed all checks. */
  datatype Trap = Trap(hostname: CString, ipaddress: CString, oid: CString, objects: seq<MibObject>)

  /** NULL, a PDU without a trap, or a TRAP with its trap. */
  datatype Outcome = NoPdu | Pdu(command: ProtoCmd) | TrapPdu(trap: Trap)

  // ---------- the automaton ----------

  datatype State = State(
    cmd: ProtoCmd,
    status: Status,
    hostname: CString,
    ipbuf: string,
    ipaddress: CString,
    objects: seq<MibObject>)

  const Initial := State(CmdNone, Started, Null, "", Null, [])

  /** extract_ipaddress: what follows the first '[', up to the first ']' after it or, as the
      code has it, up to the end. */
  function ExtractIp(s: string): CString {
    if s == "" then Null
    else if s[0] == '[' then Str(s[1..][..Span(s[1..], "]")])
    else ExtractIp(s[1..])
  }

  function Command(token: string, isPrivate: bool): ProtoCmd {
    if token == "TRAP" then CmdTrap
    else if token == "ALIVE?" then CmdAlive
    else if token == "DIAGNOSTICS" && isPrivate then CmdDiagnostics
    else CmdInvalid
  }

  /** The value of the last object, one word longer. */
  function AppendValue(objects: seq<MibObject>, word: string): seq<MibObject>
    requires objects != []
  {
    var last := objects[|objects| - 1];
    var value := if last.value.Null? then word else last.value.s + " " + word;
    objects[|objects| - 1 := last.(value := Str(value))]
  }

  /** Fields are consistent: an object is being read only when there is one. */
  predicate Consistent(st: State) {
    (st.status.OidRead? || st.status.ReadingValue?) ==> st.objects != []
  }

  /** One token. `tk` is the tokenizer. */
  function Step(st: State, token: string, tk: string, isPrivate: bool): (r: State)
    requires Consistent(st)
    ensures Consistent(r)
  {
    if st.cmd != CmdNone && st.cmd != CmdTrap then st
    else
      match st.status
      case Started =>
        if token == tk then st else st.(cmd := Command(token, isPrivate), status := CommandRead)
      case CommandRead =>
        if token == tk then st else st.(hostname := XStrdup(Str(token)), status := HostnameRead)
      case HostnameRead => st.(ipbuf := token, status := ReadingIpAddress)
      case ReadingIpAddress =>
        if token == tk then st.(ipaddress := ExtractIp(st.ipbuf), status := IpAddressRead)
        else st.(ipbuf := st.ipbuf + " " + token)
      case IpAddressRead => st.(objects := st.objects + [MibObject(token, Null, Null)], status := OidRead)
      case ValueRead => st.(objects := st.objects + [MibObject(token, Null, Null)], status := OidRead)
      case OidRead => st.(objects := AppendValue(st.objects, token), status := ReadingValue)
      case ReadingValue =>
        if token == tk then st.(status := ValueRead)
        else st.(objects := AppendValue(st.objects, token))
  }

  function Run(st: State, tokens: seq<string>, tk: string, isPrivate: bool): (r: State)
    requires Consistent(st)
    ensures Consistent(r)
    decreases |tokens|
  {
    if tokens == [] then st else Run(Step(st, tokens[0], tk, isPrivate), tokens[1..], tk, isPrivate)
  }

  // ---------- post-processing ----------

  predicate IsSnmpTrapOid(oid: string) {
    oid == "SNMPv2-MIB::snmpTrapOID.0" || oid == ".1.3.6.1.6.3.1.1.4.1.0"
  }

  /** The value of the first snmpTrapOID object; Null when there is none. */
  function TrapOid(objects: seq<MibObject>): CString {
    if objects == [] then Null
    else if IsSnmpTrapOid(objects[0].oid) then objects[0].value
    else TrapOid(objects[1..])
  }

  predicate HasTrapOid(objects: seq<MibObject>) {
    exists k :: 0 <= k < |objects| && IsSnmpTrapOid(objects[k].oid)
  }

  function QuoteObject(o: MibObject): MibObject {
    if o.value.Null? then o.(quoted := Null) else o.(quoted := Str(QuoteTwice(RemoveQuotes(o.value.s))))
  }

  function QuoteObjects(objects: seq<MibObject>): seq<MibObject> {
    seq(|objects|, i requires 0 <= i < |objects| => QuoteObject(objects[i]))
  }

  /** The end of the input. */
  function Verdict(st: State): Outcome {
    if st.cmd == CmdNone then NoPdu
    else if st.cmd != CmdTrap then Pdu(st.cmd)
    else if !(st.status.IpAddressRead? || st.status.ValueRead? || st.status.ReadingValue?) then Pdu(CmdInvalid)
    else if !HasTrapOid(st.objects) then Pdu(CmdInvalid)
    else TrapPdu(Trap(st.hostname, st.ipaddress, TrapOid(st.objects), QuoteObjects(st.objects)))
  }

  /** The whole of parse: line ends are removed, and an empty request is invalid. */
  function Parsed(buffer: CString, isPrivate: bool, tk: string): Outcome {
    if buffer.Null? || RemoveChars(buffer.s, "\n\r") == "" then Pdu(CmdInvalid)
    else Verdict(Run(Initial, Tokens.Split(RemoveChars(buffer.s, "\n\r"), ' '), tk, isPrivate))
  }

  // ---------- the code ----------

  /** extract_ipaddress: what is between the first '[' and the next ']', or the end. */
  method ExtractIpAddress(s: CString) returns (r: CString)
    ensures r == if s.Null? then Null else ExtractIp(s.s)
  {
    if IsEmpty(s) {
      return Null;
    }
    var i := 0;
    assert s.s[0..] == s.s;
    while i < |s.s| && s.s[i] != '['
      invariant i <= |s.s| && ExtractIp(s.s) == ExtractIp(s.s[i..])
    {
      assert s.s[i..][1..] == s.s[i + 1..];
      i := i + 1;
    }
    if i == |s.s| {
      return Null;
    }
    assert s.s[i..][1..] == s.s[i + 1..];
    var end := StrCSpn(s.s, i + 1, "]");
    r := Str(s.s[i + 1..end]);
  }

  /** The object with its value quoted, less the outer double quotes it may have. */
  predicate IsQuoted(o: MibObject, quoted: MibObject) {
    && quoted.oid == o.oid && quoted.value == o.value
    && if o.value.Null? then quoted.quoted.Null? else QuotesValue(quoted.quoted, RemoveQuotes(o.value.s))
  }

  lemma QuoteObjectQuotes(o: MibObject)
    ensures IsQuoted(o, QuoteObject(o))
  {
    if o.value.Str? {
      QuoteTwiceQuotes(RemoveQuotes(o.value.s));
    }
  }

  lemma QuoteObjectsQuotes(objects: seq<MibObject>)
    ensures forall k | 0 <= k < |objects| :: IsQuoted(objects[k], QuoteObjects(objects)[k])
  {
    forall k | 0 <= k < |objects| ensures IsQuoted(objects[k], QuoteObjects(objects)[k]) {
      QuoteObjectQuotes(objects[k]);
    }
  }

  /** post_parse, without the time stamp. */
  method PostParse(objects: seq<MibObject>) returns (ok: bool, oid: CString, quoted: seq<MibObject>)
    ensures ok == HasTrapOid(objects)
    ensures ok ==> oid == TrapOid(objects) && quoted == QuoteObjects(objects)
    ensures ok ==> |quoted| == |objects| && forall k | 0 <= k < |objects| :: IsQuoted(objects[k], quoted[k])
  {
    var k := 0;
    ok, oid, quoted := false, Null, objects;
    while k < |objects| && !ok
      invariant k <= |objects|
      invariant !ok ==> TrapOid(objects) == TrapOid(objects[k..])
      invariant !ok ==> forall j | 0 <= j < k :: !IsSnmpTrapOid(objects[j].oid)
      invariant ok ==> HasTrapOid(objects) && oid == TrapOid(objects)
    {
      assert objects[k..][1..] == objects[k + 1..];
      if IsSnmpTrapOid(objects[k].oid) {
        ok, oid := true, objects[k].value;
      }
      k := k + 1;
    }
    if !ok {
      return;
    }
    k := 0;
    while k < |objects|
      invariant k <= |objects| == |quoted|
      invariant forall j | 0 <= j < |objects| :: quoted[j] == if j < k then QuoteObject(objects[j]) else objects[j]
    {
      var value1 := RemoveQuotesFrom(objects[k].value);
      if value1.Str? {
        var value2 := BackslashString(value1);
        var value3 := QuoteString(value2);
        quoted := quoted[k := objects[k].(quoted := Str(value3))];
      } else {
        quoted := quoted[k := objects[k].(quoted := Null)];
      }
      k := k + 1;
    }
    QuoteObjectsQuotes(objects);
  }

  /** The variables of the token loop. */
  class Parser {
    var cmd: ProtoCmd
    var status: Status
    var hostname: CString
    var ipbuf: string
    var ipaddress: CString
    var objects: seq<MibObject>

    ghost function Current(): State
      reads this
    {
      State(cmd, status, hostname, ipbuf, ipaddress, objects)
    }

    constructor ()
      ensures Current() == Initial
    {
      cmd, status, hostname, ipbuf, ipaddress, objects := CmdNone, Started, Null, "", Null, [];
    }

    /** A token of the value that is being read. */
    method AddToValue(token: string)
      requires objects != []
      modifies this`objects
      ensures objects == AppendValue(old(objects), token)
    {
      var last := objects[|objects| - 1];
      if last.value.Null? {
        last := last.(value := Str(token));
      } else {
        last := last.(value := Str(last.value.s + " " + token));
      }
      objects := objects[|objects| - 1 := last];
    }

    /** One round of the loop, for a TRAP or before the command is known. */
    method Feed(token: string, tk: string, isPrivate: bool)
      requires Consistent(Current()) && (cmd == CmdNone || cmd == CmdTrap)
      modifies this
      ensures Current() == Step(old(Current()), token, tk, isPrivate)
    {
      var tokenizerFound := token == tk;
      if tokenizerFound && (status == Started || status == CommandRead) {
        return;
      }
      match status
      case Started =>
        cmd := Command(token, isPrivate);
        status := CommandRead;
      case CommandRead =>
        hostname := XStrdup(Str(token));
        status := HostnameRead;
      case HostnameRead =>
        ipbuf := token;
        status := ReadingIpAddress;
      case ReadingIpAddress =>
        if !tokenizerFound {
          ipbuf := ipbuf + " " + token;
        } else {
          var address := ExtractIpAddress(Str(ipbuf));
          ipaddress := address;
          status := IpAddressRead;
        }
      case IpAddressRead =>
        objects := objects + [MibObject(token, Null, Null)];
        status := OidRead;
      case ValueRead =>
        objects := objects + [MibObject(token, Null, Null)];
        status := OidRead;
      case OidRead =>
        AddToValue(token);
        status := ReadingValue;
      case ReadingValue =>
        if !tokenizerFound {
          AddToValue(token);
        } else {
          status := ValueRead;
        }
    }

    /** What follows the loop. */
    method Finish() returns (r: Outcome)
      ensures r == Verdict(Current())
    {
      if cmd == CmdNone {
        return NoPdu;
      }
      if cmd != CmdTrap {
        return Pdu(cmd);
      }
      if status != IpAddressRead && status != ValueRead && status != ReadingValue {
        return Pdu(CmdInvalid);
      }
      var ok, oid, quoted := PostParse(objects);
      r := if ok then TrapPdu(Trap(hostname, ipaddress, oid, quoted)) else Pdu(CmdInvalid);
    }
  }

  lemma {:induction false} SimpleCommandEnds(st: State, tokens: seq<string>, tk: string, isPrivate: bool)
    requires Consistent(st) && st.cmd != CmdNone && st.cmd != CmdTrap
    ensures Run(st, tokens, tk, isPrivate) == st
    decreases |tokens|
  {
    if tokens != [] {
      SimpleCommandEnds(st, tokens[1..], tk, isPrivate);
    }
  }

  /** parse */
  method Parse(buffer: CString, isPrivate: bool, tk: string) returns (r: Outcome)
    ensures r == Parsed(buffer, isPrivate, tk)
  {
    var text := RemoveCharsFrom(buffer, "\n\r");
    if IsEmpty(text) {
      return Pdu(CmdInvalid);
    }
    var parser := new Parser();
    var at := 0;
    assert text.s[0..] == text.s;
    while true
      invariant at <= |text.s| && fresh(parser) && Consistent(parser.Current())
      invariant Run(Initial, Tokens.Split(text.s, ' '), tk, isPrivate) ==
                Run(parser.Current(), Tokens.Split(text.s[at..], ' '), tk, isPrivate)
      decreases |text.s| - at
    {
      var token, next := Tokens.StrTok(text.s, ' ', at);
      if token.Null? {
        break;
      }
      if parser.cmd != CmdNone && parser.cmd != CmdTrap {
        SimpleCommandEnds(parser.Current(), Tokens.Split(text.s[at..], ' '), tk, isPrivate);
        break;
      }
      assert Tokens.Split(text.s[at..], ' ')[1..] == Tokens.Split(text.s[next..], ' ');
      parser.Feed(token.s, tk, isPrivate);
      at := next;
    }
    r := parser.Finish();
  }

  // ---------- what a TRAP guarantees ----------

  predicate Complete(o: MibObject) {
    o.oid != "" && !IsEmpty(o.value)
  }

  /** Every object but the one being read has its value, and a trap has its host name. */
  predicate Sound(st: State) {
    && Consistent(st)
    && (forall k | 0 <= k < |st.objects| ::
          st.objects[k].oid != "" && (Complete(st.objects[k]) || (k == |st.objects| - 1 && st.status == OidRead)))
    && (st.cmd == CmdTrap && st.status != Started && st.status != CommandRead ==> !IsEmpty(st.hostname))
  }

  lemma StepKeepsSound(st: State, token: string, tk: string, isPrivate: bool)
    requires Sound(st) && token != ""
    ensures Sound(Step(st, token, tk, isPrivate))
  {
  }

  lemma {:induction false} RunKeepsSound(st: State, tokens: seq<string>, tk: string, isPrivate: bool)
    requires Sound(st) && forall t | t in tokens :: t != ""
    ensures Sound(Run(st, tokens, tk, isPrivate))
    decreases |tokens|
  {
    if tokens != [] {
      assert tokens[0] in tokens && forall t | t in tokens[1..] :: t in tokens;
      StepKeepsSound(st, tokens[0], tk, isPrivate);
      RunKeepsSound(Step(st, tokens[0], tk, isPrivate), tokens[1..], tk, isPrivate);
    }
  }

  lemma {:induction false} FirstTrapOid(objects: seq<MibObject>) returns (k: nat)
    requires HasTrapOid(objects)
    ensures k < |objects| && IsSnmpTrapOid(objects[k].oid) && TrapOid(objects) == objects[k].value
    ensures forall j | 0 <= j < k :: !IsSnmpTrapOid(objects[j].oid)
  {
    if IsSnmpTrapOid(objects[0].oid) {
      k := 0;
    } else {
      var j :| 0 <= j < |objects| && IsSnmpTrapOid(objects[j].oid);
      assert objects[1..][j - 1] == objects[j];
      k := FirstTrapOid(objects[1..]);
      k := k + 1;
    }
  }

  /** A PDU that is left as TRAP has a non-empty host name and at least one object; every
      object has a name, a value and a quoted value, none of them empty; and the trap's OID is the value of the first
      object that is called snmpTrapOID. */
  lemma TrapIsComplete(buffer: CString, isPrivate: bool, tk: string)
    requires Parsed(buffer, isPrivate, tk).TrapPdu?
    ensures var trap := Parsed(buffer, isPrivate, tk).trap;
            && !IsEmpty(trap.hostname)
            && |trap.objects| > 0
            && (forall k | 0 <= k < |trap.objects| :: Complete(trap.objects[k]) && !IsEmpty(trap.objects[k].quoted))
            && exists k :: 0 <= k < |trap.objects| && IsSnmpTrapOid(trap.objects[k].oid)
                 && trap.oid == trap.objects[k].value && !IsEmpty(trap.oid)
                 && forall j | 0 <= j < k :: !IsSnmpTrapOid(trap.objects[j].oid)
  {
    var tokens := Tokens.Split(RemoveChars(buffer.s, "\n\r"), ' ');
    Tokens.SplitYieldsWords(RemoveChars(buffer.s, "\n\r"), ' ');
    RunKeepsSound(Initial, tokens, tk, isPrivate);
    SoundVerdict(Run(Initial, tokens, tk, isPrivate));
  }

  lemma SoundVerdict(st: State)
    requires Sound(st) && Verdict(st).TrapPdu?
    ensures var trap := Verdict(st).trap;
            && !IsEmpty(trap.hostname)
            && |trap.objects| > 0
            && (forall k | 0 <= k < |trap.objects| :: Complete(trap.objects[k]) && !IsEmpty(trap.objects[k].quoted))
            && exists k :: 0 <= k < |trap.objects| && IsSnmpTrapOid(trap.objects[k].oid)
                 && trap.oid == trap.objects[k].value && !IsEmpty(trap.oid)
                 && forall j | 0 <= j < k :: !IsSnmpTrapOid(trap.objects[j].oid)
  {
    var k := FirstTrapOid(st.objects);
    var trap := Verdict(st).trap;
    assert IsSnmpTrapOid(trap.objects[k].oid) && Complete(st.objects[k]);
    assert forall j | 0 <= j < k :: trap.objects[j].oid == st.objects[j].oid;
  }
}
