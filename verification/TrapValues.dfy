/** What the plugins and the clients see of a request (src/trap.c): how the values of an accepted
    trap are quoted, which names make a trap, and what the other commands are answered with. */
module TrapValues {
  import opened CStrings
  import opened Quoting
  import opened TrapParser
  import opened TrapGrammar
  import Tokens

  // ---------- quoted values ----------

  /** The objects of an accepted trap carry their values quoted: a text in double quotes without
      them, and any other text less the one double quote it may have at an end. */
  lemma AcceptedValues(buffer: CString, isPrivate: bool, tk: string, k: nat, v: string)
    requires Parsed(buffer, isPrivate, tk).TrapPdu?
    requires k < |Parsed(buffer, isPrivate, tk).trap.objects|
    requires var value := Parsed(buffer, isPrivate, tk).trap.objects[k].value;
             || value == Str("\"" + v + "\"")
             || (NoOuterQuotes(v) && (value == Str(v) || value == Str("\"" + v) || value == Str(v + "\"")))
    ensures QuotesValue(Parsed(buffer, isPrivate, tk).trap.objects[k].quoted, v)
  {
    QuoteTwiceQuotes(v);
    RemoveQuotesTakes(v);
  }

  /** An object is a variable binding: its name, its words joined by spaces, and the quoted value. */
  predicate CarriesBinding(o: MibObject, v: VarBind) {
    var value := Tokens.Join(v.words, ' ');
    o.oid == v.oid && o.value == Str(value) && QuotesValue(o.quoted, RemoveQuotes(value))
  }

  predicate Carries(objects: seq<MibObject>, vs: seq<VarBind>) {
    |objects| == |vs| && forall k | 0 <= k < |vs| :: CarriesBinding(objects[k], vs[k])
  }

  lemma BindingIsCarried(v: VarBind)
    ensures CarriesBinding(QuoteObject(ObjectOf(v)), v)
  {
    QuoteTwiceQuotes(RemoveQuotes(Tokens.Join(v.words, ' ')));
  }

  lemma BindingsAreCarried(vs: seq<VarBind>)
    ensures Carries(QuoteObjects(ObjectsOf(vs)), vs)
  {
    forall k | 0 <= k < |vs| ensures CarriesBinding(QuoteObjects(ObjectsOf(vs))[k], vs[k]) {
      BindingIsCarried(vs[k]);
    }
  }

  /** A trap in a complete frame has the frame's bindings, in order, their values also quoted. */
  lemma AcceptedBindings(ts: seq<string>, f: Frame, tk: string, isPrivate: bool)
    requires IsTrapFrame(f, tk) && Print(f, tk) == ts
    ensures Verdict(Run(Initial, ts, tk, isPrivate)).TrapPdu?
    ensures Carries(Verdict(Run(Initial, ts, tk, isPrivate)).trap.objects, VarBinds(f))
  {
    AcceptedExactly(ts, tk, isPrivate);
    BindingsAreCarried(VarBinds(f));
  }

  /** What the handler sends arrives so. */
  lemma SentValuesArrive(tk: string, host: string, address: string, lines: seq<string>, vs: seq<VarBind>,
                         isPrivate: bool)
    requires Sendable(tk, host, address, lines, vs)
    ensures var r := Parsed(Str(HandlerText(tk, [host, address] + lines)), isPrivate, tk);
            r.TrapPdu? && r.trap.hostname == Str(host) && Carries(r.trap.objects, vs)
  {
    HandlerIsParsed(tk, host, address, lines, vs, isPrivate);
    BindingsAreCarried(vs);
  }

  // ---------- which bindings make a trap ----------

  predicate NamesTrap(oid: string) {
    oid == "SNMPv2-MIB::snmpTrapOID.0" || oid == ".1.3.6.1.6.3.1.1.4.1.0"
  }

  predicate Framed(f: Frame, tk: string) {
    Wf(f, tk) && (f.AfterVarBinds? || f.InValue?)
  }

  /** A TRAP frame that ends behind a value is accepted if and only if one of its bindings has
      one of the two names of the trap's own OID; otherwise it is invalid. */
  lemma TrapIsNamedExactly(f: Frame, tk: string, isPrivate: bool)
    requires Framed(f, tk)
    ensures var r := Verdict(Run(Initial, Print(f, tk), tk, isPrivate));
            if exists k :: 0 <= k < |VarBinds(f)| && NamesTrap(VarBinds(f)[k].oid) then r.TrapPdu?
            else r == Pdu(CmdInvalid)
  {
    ParserReadsFrame(f, tk, isPrivate);
    FrameVerdict(f, tk, isPrivate);
    assert forall k | 0 <= k < |VarBinds(f)| ::
        NamesTrap(VarBinds(f)[k].oid) <==> IsSnmpTrapOid(VarBinds(f)[k].oid);
  }

  // ---------- other commands ----------

  /** The first word that is not the tokenizer decides: what follows it does not matter unless
      it is TRAP. */
  lemma FirstWordDecides(lead: nat, word: string, rest: seq<string>, tk: string, isPrivate: bool)
    requires word != tk && word != "TRAP"
    ensures Verdict(Run(Initial, Repeat(tk, lead) + [word] + rest, tk, isPrivate)) ==
            Pdu(if word == "ALIVE?" then CmdAlive
                else if word == "DIAGNOSTICS" && isPrivate then CmdDiagnostics
                else CmdInvalid)
  {
    ParserReadsFrame(Simple(lead, word, rest), tk, isPrivate);
  }

  /** A request of tokenizers only is no PDU at all. */
  lemma NothingButTokenizers(lead: nat, tk: string, isPrivate: bool)
    ensures Verdict(Run(Initial, Repeat(tk, lead), tk, isPrivate)) == NoPdu
  {
    ParserReadsFrame(Empty(lead), tk, isPrivate);
  }

  /** A TRAP that breaks off before its address ends, or between an object's name and its value,
      is invalid. */
  lemma BrokenOffIsInvalid(f: Frame, tk: string, isPrivate: bool)
    requires Wf(f, tk) && (f.AfterCommand? || f.AfterHostname? || f.InAddress? || f.AfterOid?)
    ensures Verdict(Run(Initial, Print(f, tk), tk, isPrivate)) == Pdu(CmdInvalid)
  {
    ParserReadsFrame(f, tk, isPrivate);
  }

  /** A request is an ALIVE? exactly if its first word other than tokenizers is. */
  lemma RequestIsAnswered(buffer: string, isPrivate: bool, tk: string, lead: nat, word: string, rest: seq<string>)
    requires Tokens.Split(RemoveChars(buffer, "\n\r"), ' ') == Repeat(tk, lead) + [word] + rest
    requires word != tk && word != "TRAP"
    ensures Parsed(Str(buffer), isPrivate, tk) ==
            Pdu(if word == "ALIVE?" then CmdAlive
                else if word == "DIAGNOSTICS" && isPrivate then CmdDiagnostics
                else CmdInvalid)
  {
    FirstWordDecides(lead, word, rest, tk, isPrivate);
  }
}
