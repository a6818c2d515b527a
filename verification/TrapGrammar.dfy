/** The grammar the trap parser accepts, and its agreement with the sender,
    traphandlers/nagiostraphandler. */
module TrapGrammar {
  import opened CStrings
  import opened Quoting
  import opened TrapParser
  import Tokens

  // ---------- frames ----------

  /** An object identifier and the words of its value. */
  datatype VarBind = VarBind(oid: string, words: seq<string>)

  /** A frame up to its address: leading tokenizers, TRAP, more tokenizers, the host name and
      the words of the address. */
  datatype Head = Head(lead: nat, gap: nat, hostname: string, address: seq<string>)

  /** A token sequence, structured; one form for each place it may break off. */
  datatype Frame =
    | Empty(lead: nat)
    | Simple(lead: nat, word: string, rest: seq<string>)
    | AfterCommand(lead: nat, gap: nat)
    | AfterHostname(lead: nat, gap: nat, hostname: string)
    | InAddress(head: Head)
    | AfterVarBinds(head: Head, varbinds: seq<VarBind>)
    | AfterOid(head: Head, varbinds: seq<VarBind>, oid: string)
    | InValue(head: Head, varbinds: seq<VarBind>, last: VarBind)

  /** The first word of an address or a value may be anything, tokenizer included; the
      tokenizer ends it anywhere else. */
  predicate Closed(words: seq<string>, tk: string) {
    words != [] && forall k | 1 <= k < |words| :: words[k] != tk
  }

  predicate WfHead(h: Head, tk: string) {
    "TRAP" != tk && h.hostname != tk && Closed(h.address, tk)
  }

  predicate WfVarBinds(vs: seq<VarBind>, tk: string) {
    forall k | 0 <= k < |vs| :: Closed(vs[k].words, tk)
  }

  predicate Wf(f: Frame, tk: string) {
    match f
    case Empty(_) => true
    case Simple(_, w, _) => w != "TRAP" && w != tk
    case AfterCommand(_, _) => "TRAP" != tk
    case AfterHostname(_, _, host) => "TRAP" != tk && host != tk
    case InAddress(h) => WfHead(h, tk)
    case AfterVarBinds(h, vs) => WfHead(h, tk) && WfVarBinds(vs, tk)
    case AfterOid(h, vs, _) => WfHead(h, tk) && WfVarBinds(vs, tk)
    case InValue(h, vs, v) => WfHead(h, tk) && WfVarBinds(vs, tk) && Closed(v.words, tk)
  }

  function Repeat(tk: string, n: nat): seq<string> {
    if n == 0 then [] else Repeat(tk, n - 1) + [tk]
  }

  function PrintStart(lead: nat, gap: nat, tk: string): seq<string> {
    Repeat(tk, lead) + ["TRAP"] + Repeat(tk, gap)
  }

  function PrintHead(h: Head, tk: string): seq<string> {
    PrintStart(h.lead, h.gap, tk) + [h.hostname] + h.address
  }

  /** Each variable binding is closed by the tokenizer. */
  function PrintVarBinds(vs: seq<VarBind>, tk: string): seq<string> {
    if vs == [] then []
    else
      var v := vs[|vs| - 1];
      PrintVarBinds(vs[..|vs| - 1], tk) + [v.oid] + v.words + [tk]
  }

  function Print(f: Frame, tk: string): seq<string> {
    match f
    case Empty(n) => Repeat(tk, n)
    case Simple(n, w, rest) => Repeat(tk, n) + [w] + rest
    case AfterCommand(n, m) => PrintStart(n, m, tk)
    case AfterHostname(n, m, host) => PrintStart(n, m, tk) + [host]
    case InAddress(h) => PrintHead(h, tk)
    case AfterVarBinds(h, vs) => PrintHead(h, tk) + [tk] + PrintVarBinds(vs, tk)
    case AfterOid(h, vs, oid) => PrintHead(h, tk) + [tk] + PrintVarBinds(vs, tk) + [oid]
    case InValue(h, vs, v) => PrintHead(h, tk) + [tk] + PrintVarBinds(vs, tk) + [v.oid] + v.words
  }

  // ---------- the fields a frame stands for ----------

  function ObjectOf(v: VarBind): MibObject {
    MibObject(v.oid, Str(Tokens.Join(v.words, ' ')), Null)
  }

  function ObjectsOf(vs: seq<VarBind>): seq<MibObject> {
    seq(|vs|, i requires 0 <= i < |vs| => ObjectOf(vs[i]))
  }

  function AddressOf(h: Head): CString {
    ExtractIp(Tokens.Join(h.address, ' '))
  }

  /** The automaton's variables after the frame. */
  function StateOf(f: Frame, isPrivate: bool): State {
    match f
    case Empty(_) => Initial
    case Simple(_, w, _) => Initial.(cmd := Command(w, isPrivate), status := CommandRead)
    case AfterCommand(_, _) => Initial.(cmd := CmdTrap, status := CommandRead)
    case AfterHostname(_, _, host) => Initial.(cmd := CmdTrap, status := HostnameRead, hostname := XStrdup(Str(host)))
    case InAddress(h) =>
      State(CmdTrap, ReadingIpAddress, XStrdup(Str(h.hostname)), Tokens.Join(h.address, ' '), Null, [])
    case AfterVarBinds(h, vs) =>
      State(CmdTrap, if vs == [] then IpAddressRead else ValueRead,
            XStrdup(Str(h.hostname)), Tokens.Join(h.address, ' '), AddressOf(h), ObjectsOf(vs))
    case AfterOid(h, vs, oid) =>
      State(CmdTrap, OidRead, XStrdup(Str(h.hostname)), Tokens.Join(h.address, ' '), AddressOf(h),
            ObjectsOf(vs) + [MibObject(oid, Null, Null)])
    case InValue(h, vs, v) =>
      State(CmdTrap, ReadingValue, XStrdup(Str(h.hostname)), Tokens.Join(h.address, ' '), AddressOf(h),
            ObjectsOf(vs) + [ObjectOf(v)])
  }

  // ---------- one token more ----------

  function Extend(f: Frame, t: string, tk: string): Frame {
    match f
    case Empty(n) => if t == tk then Empty(n + 1) else if t == "TRAP" then AfterCommand(n, 0) else Simple(n, t, [])
    case Simple(n, w, rest) => Simple(n, w, rest + [t])
    case AfterCommand(n, m) => if t == tk then AfterCommand(n, m + 1) else AfterHostname(n, m, t)
    case AfterHostname(n, m, host) => InAddress(Head(n, m, host, [t]))
    case InAddress(h) => if t == tk then AfterVarBinds(h, []) else InAddress(h.(address := h.address + [t]))
    case AfterVarBinds(h, vs) => AfterOid(h, vs, t)
    case AfterOid(h, vs, oid) => InValue(h, vs, VarBind(oid, [t]))
    case InValue(h, vs, v) =>
      if t == tk then AfterVarBinds(h, vs + [v]) else InValue(h, vs, v.(words := v.words + [t]))
  }

  lemma ExtendWf(f: Frame, t: string, tk: string)
    requires Wf(f, tk)
    ensures Wf(Extend(f, t, tk), tk)
  {
  }

  lemma ExtendPrint(f: Frame, t: string, tk: string)
    ensures Print(Extend(f, t, tk), tk) == Print(f, tk) + [t]
  {
    if f.InValue? {
      if t == tk {
        PrintClosed(f.head, f.varbinds, f.last, tk);
      }
    } else if f.InAddress? {
      assert PrintVarBinds([], tk) == [];
    }
  }

  lemma PrintClosed(h: Head, vs: seq<VarBind>, v: VarBind, tk: string)
    ensures Print(AfterVarBinds(h, vs + [v]), tk) == Print(InValue(h, vs, v), tk) + [tk]
  {
    assert (vs + [v])[..|vs|] == vs;
    Regroup(PrintHead(h, tk) + [tk], PrintVarBinds(vs, tk), [v.oid], v.words, [tk]);
  }

  lemma Regroup(p: seq<string>, a: seq<string>, b: seq<string>, c: seq<string>, d: seq<string>)
    ensures p + (a + b + c + d) == p + a + b + c + d
  {
  }

  lemma ExtendState(f: Frame, t: string, tk: string, isPrivate: bool)
    requires Wf(f, tk)
    ensures Consistent(StateOf(f, isPrivate))
    ensures StateOf(Extend(f, t, tk), isPrivate) == Step(StateOf(f, isPrivate), t, tk, isPrivate)
  {
    match f
    case InValue(h, vs, v) => ValueState(h, vs, v, t, tk, isPrivate);
    case AfterOid(h, vs, oid) => OidState(h, vs, oid, t, tk, isPrivate);
    case AfterVarBinds(h, vs) => VarBindsState(h, vs, t, tk, isPrivate);
    case InAddress(h) => AddressState(h, t, tk, isPrivate);
    case _ => StartState(f, t, tk, isPrivate);
  }

  lemma StartState(f: Frame, t: string, tk: string, isPrivate: bool)
    requires Wf(f, tk) && (f.Empty? || f.Simple? || f.AfterCommand? || f.AfterHostname?)
    ensures StateOf(Extend(f, t, tk), isPrivate) == Step(StateOf(f, isPrivate), t, tk, isPrivate)
  {
  }

  lemma AddressState(h: Head, t: string, tk: string, isPrivate: bool)
    requires h.address != []
    ensures StateOf(Extend(InAddress(h), t, tk), isPrivate) == Step(StateOf(InAddress(h), isPrivate), t, tk, isPrivate)
  {
    assert (h.address + [t])[..|h.address|] == h.address;
  }

  lemma VarBindsState(h: Head, vs: seq<VarBind>, t: string, tk: string, isPrivate: bool)
    ensures StateOf(Extend(AfterVarBinds(h, vs), t, tk), isPrivate) ==
            Step(StateOf(AfterVarBinds(h, vs), isPrivate), t, tk, isPrivate)
  {
  }

  lemma OidState(h: Head, vs: seq<VarBind>, oid: string, t: string, tk: string, isPrivate: bool)
    ensures StateOf(Extend(AfterOid(h, vs, oid), t, tk), isPrivate) ==
            Step(StateOf(AfterOid(h, vs, oid), isPrivate), t, tk, isPrivate)
  {
  }

  lemma ValueState(h: Head, vs: seq<VarBind>, v: VarBind, t: string, tk: string, isPrivate: bool)
    requires v.words != []
    ensures var f := InValue(h, vs, v);
      StateOf(Extend(f, t, tk), isPrivate) == Step(StateOf(f, isPrivate), t, tk, isPrivate)
  {
    assert ObjectsOf(vs + [v]) == ObjectsOf(vs) + [ObjectOf(v)];
    assert (v.words + [t])[..|v.words|] == v.words;
  }

  // ---------- parser and grammar agree ----------

  lemma {:induction false} RunSnoc(st: State, ts: seq<string>, t: string, tk: string, isPrivate: bool)
    requires Consistent(st)
    ensures Run(st, ts + [t], tk, isPrivate) == Step(Run(st, ts, tk, isPrivate), t, tk, isPrivate)
    decreases |ts|
  {
    if ts == [] {
      assert ([] + [t])[1..] == [];
    } else {
      assert (ts + [t])[1..] == ts[1..] + [t];
      RunSnoc(Step(st, ts[0], tk, isPrivate), ts[1..], t, tk, isPrivate);
    }
  }

  function FrameOf(ts: seq<string>, tk: string): Frame {
    if ts == [] then Empty(0) else Extend(FrameOf(ts[..|ts| - 1], tk), ts[|ts| - 1], tk)
  }

  /** Every token sequence is a well-formed frame, and the automaton's variables are the
      fields of that frame. */
  lemma {:induction false} EveryInputIsAFrame(ts: seq<string>, tk: string, isPrivate: bool)
    ensures var f := FrameOf(ts, tk);
            Wf(f, tk) && Print(f, tk) == ts && Run(Initial, ts, tk, isPrivate) == StateOf(f, isPrivate)
  {
    if ts != [] {
      var front, t := ts[..|ts| - 1], ts[|ts| - 1];
      assert ts == front + [t];
      EveryInputIsAFrame(front, tk, isPrivate);
      ExtendWf(FrameOf(front, tk), t, tk);
      ExtendPrint(FrameOf(front, tk), t, tk);
      ExtendState(FrameOf(front, tk), t, tk, isPrivate);
      RunSnoc(Initial, front, t, tk, isPrivate);
    }
  }

  /** The frame before its last token, and that token. */
  function Shrink(f: Frame, tk: string): (Frame, string)
    requires Wf(f, tk) && f != Empty(0)
  {
    match f
    case Empty(n) => (Empty(n - 1), tk)
    case Simple(n, w, rest) =>
      if rest == [] then (Empty(n), w) else (Simple(n, w, rest[..|rest| - 1]), rest[|rest| - 1])
    case AfterCommand(n, m) => if m == 0 then (Empty(n), "TRAP") else (AfterCommand(n, m - 1), tk)
    case AfterHostname(n, m, host) => (AfterCommand(n, m), host)
    case InAddress(h) =>
      var k := |h.address| - 1;
      if k == 0 then (AfterHostname(h.lead, h.gap, h.hostname), h.address[0])
      else (InAddress(h.(address := h.address[..k])), h.address[k])
    case AfterVarBinds(h, vs) =>
      if vs == [] then (InAddress(h), tk) else (InValue(h, vs[..|vs| - 1], vs[|vs| - 1]), tk)
    case AfterOid(h, vs, oid) => (AfterVarBinds(h, vs), oid)
    case InValue(h, vs, v) =>
      var k := |v.words| - 1;
      if k == 0 then (AfterOid(h, vs, v.oid), v.words[0])
      else (InValue(h, vs, v.(words := v.words[..k])), v.words[k])
  }

  lemma ShrinkUndoesExtend(f: Frame, tk: string)
    requires Wf(f, tk) && f != Empty(0)
    ensures var (f', t) := Shrink(f, tk); Wf(f', tk) && Extend(f', t, tk) == f
  {
  }

  /** No token sequence has two readings. */
  lemma {:induction false} FrameIsUnique(f: Frame, tk: string)
    requires Wf(f, tk)
    ensures FrameOf(Print(f, tk), tk) == f
    decreases |Print(f, tk)|
  {
    if f == Empty(0) {
    } else {
      var (f', t) := Shrink(f, tk);
      ShrinkUndoesExtend(f, tk);
      ExtendPrint(f', t, tk);
      FrameIsUnique(f', tk);
      assert Print(f, tk)[..|Print(f, tk)| - 1] == Print(f', tk);
    }
  }

  /** Reading the tokens of a well-formed frame yields the frame's fields. */
  lemma ParserReadsFrame(f: Frame, tk: string, isPrivate: bool)
    requires Wf(f, tk)
    ensures Run(Initial, Print(f, tk), tk, isPrivate) == StateOf(f, isPrivate)
  {
    FrameIsUnique(f, tk);
    EveryInputIsAFrame(Print(f, tk), tk, isPrivate);
  }

  /** The variable bindings of a frame that breaks off after one of them. */
  function VarBinds(f: Frame): seq<VarBind> {
    match f
    case AfterVarBinds(_, vs) => vs
    case InValue(_, vs, v) => vs + [v]
    case _ => []
  }

  predicate HasTrapOidBinding(vs: seq<VarBind>) {
    exists k :: 0 <= k < |vs| && IsSnmpTrapOid(vs[k].oid)
  }

  /** A complete TRAP frame. */
  predicate IsTrapFrame(f: Frame, tk: string) {
    Wf(f, tk) && HasTrapOidBinding(VarBinds(f))
  }

  lemma TrapOidOfBindings(vs: seq<VarBind>)
    ensures HasTrapOid(ObjectsOf(vs)) <==> HasTrapOidBinding(vs)
  {
    if k :| 0 <= k < |vs| && IsSnmpTrapOid(vs[k].oid) {
      assert IsSnmpTrapOid(ObjectsOf(vs)[k].oid);
    }
  }

  lemma ObjectsOfFrame(f: Frame, isPrivate: bool)
    requires f.AfterVarBinds? || f.InValue?
    ensures StateOf(f, isPrivate).objects == ObjectsOf(VarBinds(f))
  {
  }

  /** A request is accepted as a TRAP exactly when its tokens are a complete TRAP frame; the
      trap then has that frame's host name, address and variable bindings. */
  lemma AcceptedExactly(ts: seq<string>, tk: string, isPrivate: bool)
    ensures Verdict(Run(Initial, ts, tk, isPrivate)).TrapPdu? <==>
            exists f: Frame :: IsTrapFrame(f, tk) && Print(f, tk) == ts
    ensures forall f: Frame | IsTrapFrame(f, tk) && Print(f, tk) == ts ::
              Verdict(Run(Initial, ts, tk, isPrivate)) == TrapPdu(TrapOf(f))
  {
    var f := FrameOf(ts, tk);
    EveryInputIsAFrame(ts, tk, isPrivate);
    FrameVerdict(f, tk, isPrivate);
    forall g: Frame | IsTrapFrame(g, tk) && Print(g, tk) == ts
      ensures g == f
    {
      FrameIsUnique(g, tk);
    }
  }

  /** The trap in a complete frame. */
  function TrapOf(f: Frame): Trap
    requires VarBinds(f) != []
  {
    Trap(XStrdup(Str(f.head.hostname)), AddressOf(f.head), TrapOid(ObjectsOf(VarBinds(f))),
         QuoteObjects(ObjectsOf(VarBinds(f))))
  }

  lemma FrameVerdict(f: Frame, tk: string, isPrivate: bool)
    requires Wf(f, tk)
    ensures Verdict(StateOf(f, isPrivate)).TrapPdu? <==> IsTrapFrame(f, tk)
    ensures IsTrapFrame(f, tk) ==> Verdict(StateOf(f, isPrivate)) == TrapPdu(TrapOf(f))
  {
    TrapOidOfBindings(VarBinds(f));
    if f.AfterVarBinds? || f.InValue? {
      ObjectsOfFrame(f, isPrivate);
    }
  }

  // ---------- the sender ----------

  /** What the trap handler prints for its input lines. */
  function HandlerText(tk: string, lines: seq<string>): string {
    if lines == [] then "TRAP " + tk + " "
    else HandlerText(tk, lines[..|lines| - 1]) + " " + tk + " " + lines[|lines| - 1]
  }

  method EncodeFrame(tk: string, lines: seq<string>) returns (buffer: string)
    ensures buffer == HandlerText(tk, lines)
  {
    var tokenizer := " " + tk + " ";
    buffer := "TRAP" + tokenizer;
    var k := 0;
    while k < |lines|
      invariant k <= |lines| && buffer == HandlerText(tk, lines[..k])
    {
      assert lines[..k + 1][..k] == lines[..k];
      buffer := buffer + tokenizer + lines[k];
      k := k + 1;
    }
    assert lines[..k] == lines;
  }

  /** The tokens of the handler's text. */
  function HandlerTokens(tk: string, lines: seq<string>): seq<string> {
    if lines == [] then ["TRAP", tk]
    else HandlerTokens(tk, lines[..|lines| - 1]) + [tk] + Tokens.Split(lines[|lines| - 1], ' ')
  }

  lemma SplitHeader(tk: string)
    requires Tokens.IsWord(tk, ' ')
    ensures Tokens.Split("TRAP " + tk + " ", ' ') == ["TRAP", tk]
  {
    var rest := tk + " ";
    assert "TRAP " + tk + " " == "TRAP" + [' '] + rest;
    Tokens.SplitAppend("TRAP", ' ', rest);
    Tokens.SplitSingle("TRAP", ' ');
    Tokens.SplitAppend(tk, ' ', "");
    assert tk + [' '] + "" == rest;
    Tokens.SplitSingle(tk, ' ');
  }

  lemma {:induction false} SplitHandlerText(tk: string, lines: seq<string>)
    requires Tokens.IsWord(tk, ' ')
    ensures Tokens.Split(HandlerText(tk, lines), ' ') == HandlerTokens(tk, lines)
  {
    if lines == [] {
      SplitHeader(tk);
    } else {
      var front, line := lines[..|lines| - 1], lines[|lines| - 1];
      SplitHandlerText(tk, front);
      var rest := tk + [' '] + line;
      assert HandlerText(tk, lines) == HandlerText(tk, front) + [' '] + rest;
      Tokens.SplitAppend(HandlerText(tk, front), ' ', rest);
      Tokens.SplitAppend(tk, ' ', line);
      Tokens.SplitSingle(tk, ' ');
    }
  }

  ghost predicate OneLine(s: string) {
    '\n' !in s && '\r' !in s
  }

  lemma OneLineAround(a: string, tk: string, b: string)
    requires OneLine(a) && OneLine(tk) && OneLine(b)
    ensures OneLine(a + " " + tk + " " + b)
  {
    forall c | c in a + " " + tk + " " + b ensures c != '\n' && c != '\r' {
      assert c in a || c == ' ' || c in tk || c in b;
    }
  }

  lemma {:induction false} HandlerTextOneLine(tk: string, lines: seq<string>)
    requires OneLine(tk) && forall l | l in lines :: OneLine(l)
    ensures OneLine(HandlerText(tk, lines))
  {
    if lines == [] {
      OneLineAround("TRAP", tk, "");
      assert "TRAP" + " " + tk + " " + "" == HandlerText(tk, lines);
    } else {
      HandlerTextOneLine(tk, lines[..|lines| - 1]);
      OneLineAround(HandlerText(tk, lines[..|lines| - 1]), tk, lines[|lines| - 1]);
    }
  }

  /** Lines that carry the given variable bindings. */
  ghost predicate Carry(lines: seq<string>, vs: seq<VarBind>) {
    && |lines| == |vs|
    && forall k | 0 <= k < |vs| :: Tokens.Split(lines[k], ' ') == [vs[k].oid] + vs[k].words
  }

  /** The handler separates with two tokenizers before the host name, and its tokenizer after
      the host name becomes the first word of the address. */
  function HandlerHead(tk: string, host: string, address: string): Head {
    Head(0, 2, host, [tk] + Tokens.Split(address, ' '))
  }

  lemma TwoTokenizers(tk: string)
    ensures Repeat(tk, 0) == [] && Repeat(tk, 2) == [tk, tk]
  {
    assert Repeat(tk, 1) == [tk];
  }

  lemma HandlerTokensOfHead(tk: string, host: string, address: string)
    requires Tokens.IsWord(host, ' ')
    ensures HandlerTokens(tk, [host, address]) == Print(InAddress(HandlerHead(tk, host, address)), tk)
  {
    TwoTokenizers(tk);
    HandlerTokensOfHost(tk, host);
    assert [host, address][..1] == [host];
  }

  lemma HandlerTokensOfHost(tk: string, host: string)
    requires Tokens.IsWord(host, ' ')
    ensures HandlerTokens(tk, [host]) == ["TRAP", tk, tk, host]
  {
    assert [host][..0] == [];
    Tokens.SplitSingle(host, ' ');
  }

  lemma {:induction false} HandlerTokensOfBindings(tk: string, host: string, address: string, lines: seq<string>,
                                                   vs: seq<VarBind>)
    requires Tokens.IsWord(host, ' ') && Carry(lines, vs)
    ensures HandlerTokens(tk, [host, address] + lines) + [tk] ==
            Print(AfterVarBinds(HandlerHead(tk, host, address), vs), tk)
    decreases |lines|
  {
    var all := [host, address] + lines;
    var head := HandlerHead(tk, host, address);
    if lines == [] {
      assert all == [host, address];
      HandlerTokensOfHead(tk, host, address);
    } else {
      var n := |lines| - 1;
      HandlerTokensOfBindings(tk, host, address, lines[..n], vs[..n]);
      assert all == ([host, address] + lines[..n]) + [lines[n]];
      HandlerTokensSnoc(tk, [host, address] + lines[..n], lines[n], all);
      ExtendBindings(head, vs, tk);
    }
  }

  lemma HandlerTokensSnoc(tk: string, init: seq<string>, last: string, all: seq<string>)
    requires all == init + [last]
    ensures HandlerTokens(tk, all) == HandlerTokens(tk, init) + [tk] + Tokens.Split(last, ' ')
  {
    assert all[..|all| - 1] == init;
  }

  lemma ExtendBindings(head: Head, vs: seq<VarBind>, tk: string)
    requires vs != []
    ensures var v := vs[|vs| - 1];
            Print(AfterVarBinds(head, vs), tk) ==
            Print(AfterVarBinds(head, vs[..|vs| - 1]), tk) + ([v.oid] + v.words) + [tk]
  {
  }

  function HandlerFrame(tk: string, host: string, address: string, vs: seq<VarBind>): Frame
    requires vs != []
  {
    InValue(HandlerHead(tk, host, address), vs[..|vs| - 1], vs[|vs| - 1])
  }

  lemma HandlerTextTokens(tk: string, host: string, address: string, lines: seq<string>, vs: seq<VarBind>)
    requires Tokens.IsWord(tk, ' ') && Tokens.IsWord(host, ' ') && Carry(lines, vs) && vs != []
    ensures Tokens.Split(HandlerText(tk, [host, address] + lines), ' ') ==
            Print(HandlerFrame(tk, host, address, vs), tk)
  {
    SplitHandlerText(tk, [host, address] + lines);
    HandlerTokensOfBindings(tk, host, address, lines, vs);
    FrameIsClosed(tk, host, address, vs);
    SnocInjective(HandlerTokens(tk, [host, address] + lines), Print(HandlerFrame(tk, host, address, vs), tk), tk);
  }

  lemma FrameIsClosed(tk: string, host: string, address: string, vs: seq<VarBind>)
    requires vs != []
    ensures Print(AfterVarBinds(HandlerHead(tk, host, address), vs), tk) ==
            Print(HandlerFrame(tk, host, address, vs), tk) + [tk]
  {
    PrintClosed(HandlerHead(tk, host, address), vs[..|vs| - 1], vs[|vs| - 1], tk);
    assert vs[..|vs| - 1] + [vs[|vs| - 1]] == vs;
  }

  lemma SnocInjective(a: seq<string>, b: seq<string>, x: string)
    requires a + [x] == b + [x]
    ensures a == b
  {
    assert a == (a + [x])[..|a|] && b == (b + [x])[..|b|];
  }

  lemma HandlerTextIsClean(tk: string, host: string, address: string, lines: seq<string>)
    requires OneLine(tk) && OneLine(host) && OneLine(address) && forall l | l in lines :: OneLine(l)
    ensures var text := HandlerText(tk, [host, address] + lines); RemoveChars(text, "\n\r") == text
  {
    HandlerTextOneLine(tk, [host, address] + lines);
    RemoveCharsKeeps(HandlerText(tk, [host, address] + lines), "\n\r");
  }

  lemma HandlerFrameRead(tk: string, host: string, address: string, vs: seq<VarBind>, isPrivate: bool)
    requires vs != [] && IsTrapFrame(HandlerFrame(tk, host, address, vs), tk) && '[' !in tk && host != ""
    ensures Verdict(Run(Initial, Print(HandlerFrame(tk, host, address, vs), tk), tk, isPrivate)) ==
            TrapPdu(Trap(Str(host), ExtractIp(Tokens.Join(Tokens.Split(address, ' '), ' ')),
                         TrapOid(ObjectsOf(vs)), QuoteObjects(ObjectsOf(vs))))
  {
    var f := HandlerFrame(tk, host, address, vs);
    assert VarBinds(f) == vs;
    ParserReadsFrame(f, tk, isPrivate);
    FrameVerdict(f, tk, isPrivate);
    AddressAfterTokenizer(tk, Tokens.Split(address, ' '));
  }

  /** A message the handler can send and the parser is to accept: the tokenizer is a word
      without '[', neither the host name nor a word that could end a field early equals it, and
      an snmpTrapOID binding is among the lines. */
  ghost predicate Sendable(tk: string, host: string, address: string, lines: seq<string>, vs: seq<VarBind>) {
    && Tokens.IsWord(tk, ' ') && '[' !in tk && tk != "TRAP"
    && Tokens.IsWord(host, ' ') && host != tk && tk !in Tokens.Split(address, ' ')
    && Carry(lines, vs) && WfVarBinds(vs, tk) && HasTrapOidBinding(vs)
    && OneLine(tk) && OneLine(host) && OneLine(address) && forall l | l in lines :: OneLine(l)
  }

  /** What the parser makes of it, up to the address. */
  lemma HandlerIsParsed(tk: string, host: string, address: string, lines: seq<string>, vs: seq<VarBind>,
                        isPrivate: bool)
    requires Sendable(tk, host, address, lines, vs)
    ensures Parsed(Str(HandlerText(tk, [host, address] + lines)), isPrivate, tk) ==
            TrapPdu(Trap(Str(host), ExtractIp(Tokens.Join(Tokens.Split(address, ' '), ' ')),
                         TrapOid(ObjectsOf(vs)), QuoteObjects(ObjectsOf(vs))))
  {
    HandlerTextIsClean(tk, host, address, lines);
    HandlerTextTokens(tk, host, address, lines, vs);
    HandlerFrameIsTrap(tk, host, address, vs);
    HandlerFrameRead(tk, host, address, vs, isPrivate);
  }

  /** Parsing what the handler sends gives back the host name, the bracketed address and the
      variable bindings, in order and with single spaces. */
  lemma RoundTrip(tk: string, host: string, pre: string, a: string, post: string, lines: seq<string>,
                  vs: seq<VarBind>, isPrivate: bool)
    requires Sendable(tk, host, pre + ("[" + a + "]") + post, lines, vs)
    requires '[' !in pre && ']' !in a && ' ' !in a
    ensures Parsed(Str(HandlerText(tk, [host, pre + ("[" + a + "]") + post] + lines)), isPrivate, tk) ==
            TrapPdu(Trap(Str(host), Str(a), TrapOid(ObjectsOf(vs)), QuoteObjects(ObjectsOf(vs))))
  {
    HandlerIsParsed(tk, host, pre + ("[" + a + "]") + post, lines, vs, isPrivate);
    AddressOfLine(pre, a, post);
  }

  /** A message whose address line has no bracket is accepted too, and exactly then the trap
      has no address. */
  lemma AddressIsNullExactly(tk: string, host: string, address: string, lines: seq<string>, vs: seq<VarBind>,
                             isPrivate: bool)
    requires Sendable(tk, host, address, lines, vs)
    ensures var r := Parsed(Str(HandlerText(tk, [host, address] + lines)), isPrivate, tk);
            r.TrapPdu? && (r.trap.ipaddress.Null? <==> '[' !in address)
  {
    HandlerIsParsed(tk, host, address, lines, vs, isPrivate);
    HasBracket(Tokens.Join(Tokens.Split(address, ' '), ' '));
    Tokens.SqueezedHasSame(address, ' ', '[');
  }

  lemma ExampleLine(oid: string)
    requires Tokens.IsWord(oid, ' ') && OneLine(oid)
    ensures Carry([oid + [' '] + "x"], [VarBind(oid, ["x"])]) && OneLine(oid + [' '] + "x")
  {
    Tokens.SplitAppend(oid, ' ', "x");
    Tokens.SplitSingle(oid, ' ');
    Tokens.SplitSingle("x", ' ');
  }

  lemma ExampleSends(oid: string)
    requires IsSnmpTrapOid(oid) && Tokens.IsWord(oid, ' ') && OneLine(oid)
    ensures Sendable("@", "host", "ip", [oid + [' '] + "x"], [VarBind(oid, ["x"])])
  {
    ExampleLine(oid);
    Tokens.SplitSingle("ip", ' ');
    var vs := [VarBind(oid, ["x"])];
    assert IsSnmpTrapOid(vs[0].oid);
  }

  lemma TrapOidIsWord()
    ensures var oid := ".1.3.6.1.6.3.1.1.4.1.0"; Tokens.IsWord(oid, ' ') && OneLine(oid)
  {
  }

  /** For example, a host name, an address line without brackets, and a trap OID. */
  lemma AddressWithoutBracket(isPrivate: bool)
    ensures var line := ".1.3.6.1.6.3.1.1.4.1.0" + [' '] + "x";
            var r := Parsed(Str(HandlerText("@", ["host", "ip"] + [line])), isPrivate, "@");
            r.TrapPdu? && r.trap.ipaddress.Null?
  {
    var oid := ".1.3.6.1.6.3.1.1.4.1.0";
    TrapOidIsWord();
    ExampleSends(oid);
    AddressIsNullExactly("@", "host", "ip", [oid + [' '] + "x"], [VarBind(oid, ["x"])], isPrivate);
  }

  lemma HandlerFrameIsTrap(tk: string, host: string, address: string, vs: seq<VarBind>)
    requires tk != "TRAP" && host != tk && tk !in Tokens.Split(address, ' ')
    requires WfVarBinds(vs, tk) && HasTrapOidBinding(vs)
    ensures IsTrapFrame(HandlerFrame(tk, host, address, vs), tk)
  {
    var f := HandlerFrame(tk, host, address, vs);
    assert VarBinds(f) == vs;
    var ws := Tokens.Split(address, ' ');
    assert forall k | 1 <= k < |[tk] + ws| :: ([tk] + ws)[k] == ws[k - 1];
  }

  lemma {:induction false} SkipTo(pre: string, rest: string)
    requires '[' !in pre
    ensures ExtractIp(pre + rest) == ExtractIp(rest)
  {
    if pre == "" {
      assert pre + rest == rest;
    } else {
      assert (pre + rest)[1..] == pre[1..] + rest;
      SkipTo(pre[1..], rest);
    }
  }

  /** The absorbed tokenizer does not disturb the address. */
  lemma AddressAfterTokenizer(tk: string, ws: seq<string>)
    requires '[' !in tk
    ensures ExtractIp(Tokens.Join([tk] + ws, ' ')) == ExtractIp(Tokens.Join(ws, ' '))
  {
    if ws == [] {
      SkipTo(tk, "");
      assert tk + "" == tk && [tk] + ws == [tk];
    } else {
      Tokens.JoinCons(tk, ws, ' ');
      SkipTo(tk + " ", Tokens.Join(ws, ' '));
    }
  }

  lemma OpenedAddress(pre: string, rest: string)
    requires '[' !in pre
    ensures ExtractIp(pre + ("[" + rest)) == Str(rest[..Span(rest, "]")])
  {
    SkipTo(pre, "[" + rest);
    assert ("[" + rest)[1..] == rest;
  }

  /** "UDP: [address]:port->..." yields the address. */
  lemma BracketedAddress(pre: string, a: string, post: string)
    requires '[' !in pre && ']' !in a
    ensures ExtractIp(pre + "[" + a + "]" + post) == Str(a)
  {
    var rest := a + ("]" + post);
    OpenedAddress(pre, rest);
    SpanStops(a, "]", "]" + post);
    assert pre + "[" + a + "]" + post == pre + ("[" + rest);
    assert rest[..|a|] == a;
  }

  /** Without a closing bracket the rest of the text is the address. */
  lemma UnclosedAddress(pre: string, a: string)
    requires '[' !in pre && ']' !in a
    ensures ExtractIp(pre + "[" + a) == Str(a)
  {
    assert pre + "[" + a == pre + ("[" + a);
    OpenedAddress(pre, a);
    SpanStops(a, "]", "");
    assert a + "" == a && a[..|a|] == a;
  }

  lemma {:induction false} HasBracket(s: string)
    ensures ExtractIp(s).Str? <==> '[' in s
  {
    if s != "" {
      HasBracket(s[1..]);
    }
  }

  /** The address in an address line, whatever the spacing outside the brackets. */
  lemma AddressOfLine(pre: string, a: string, post: string)
    requires '[' !in pre && ']' !in a && ' ' !in a
    ensures ExtractIp(Tokens.Join(Tokens.Split(pre + ("[" + a + "]") + post, ' '), ' ')) == Str(a)
  {
    var w := "[" + a + "]";
    var pre', post' := Tokens.SplitAround(pre, w, post, ' ', '[');
    BracketedAddress(pre', a, post');
    assert pre' + w + post' == pre' + "[" + a + "]" + post';
  }

  /** An accepted trap has an address exactly when its address words contain a bracket. */
  lemma AcceptedAddress(f: Frame, tk: string)
    requires IsTrapFrame(f, tk)
    ensures TrapOf(f).ipaddress.Str? <==> exists i :: 0 <= i < |f.head.address| && '[' in f.head.address[i]
  {
    HasBracket(Tokens.Join(f.head.address, ' '));
    Tokens.JoinHasSame(f.head.address, ' ', '[');
  }
}
