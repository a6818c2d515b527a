/** The exact-size string builders of src/trap.c: trap_get_contents and trap_serialize. */
module TrapPrinter {
  import opened CStrings
  import opened Quoting
  import opened TrapParser
  import opened TrapGrammar
  import Tokens

  // ---------- contents ----------

  /** The objects can be printed: each has a quoted value. */
  ghost predicate Printable(os: seq<MibObject>) {
    forall k | 0 <= k < |os| :: os[k].quoted.Str?
  }

  function Item(o: MibObject): string
    requires o.quoted.Str?
  {
    o.oid + "=" + o.quoted.s
  }

  /** "oid=value" for every object, separated by single spaces. */
  ghost function Contents(os: seq<MibObject>): string
    requires Printable(os)
  {
    if os == [] then ""
    else if |os| == 1 then Item(os[0])
    else Contents(os[..|os| - 1]) + " " + Item(os[|os| - 1])
  }

  /** The buffer for one object more: the terminator's place gets the separating space and the
      new part is appended. */
  method AppendItem(buffer: array<char>, o: MibObject) returns (b: array<char>)
    requires o.quoted.Str? && 0 < buffer.Length
    modifies buffer
    ensures fresh(b) && b.Length == buffer.Length + |Item(o)| + 1
    ensures b[..b.Length - 1] == old(buffer[..buffer.Length - 1]) + " " + Item(o)
  {
    var oldlen, oidLen, len := buffer.Length, |o.oid|, |o.oid| + |o.quoted.s| + 1;
    buffer[oldlen - 1] := ' ';
    b := Realloc(buffer, oldlen + len + 1);
    ghost var front := b[..oldlen];
    FillItem(b, oldlen, o);
    assert b[..b.Length - 1] == front + Item(o);
  }

  /** The three copies of the loop body. */
  method FillItem(b: array<char>, at: nat, o: MibObject)
    requires o.quoted.Str? && at + |Item(o)| <= b.Length
    modifies b
    ensures b[..at] == old(b[..at]) && b[at..at + |Item(o)|] == Item(o)
  {
    Memcpy(b, at, o.oid);
    ghost var front := b[..at + |o.oid|];
    b[at + |o.oid|] := '=';
    assert b[..at + |o.oid|] == front;
    Memcpy(b, at + |o.oid| + 1, o.quoted.s);
    assert b[..at + |o.oid| + 1] == front + "=";
  }

  lemma ContentsSnoc(os: seq<MibObject>, k: nat)
    requires Printable(os) && 0 < k < |os|
    ensures Contents(os[..k + 1]) == Contents(os[..k]) + " " + Item(os[k])
  {
    assert os[..k + 1][..k] == os[..k];
  }

  /** trap_get_contents: every byte of the buffer is written, the last one with the
      terminator; NULL without objects. */
  method GetContents(objects: seq<MibObject>) returns (buffer: array?<char>)
    requires Printable(objects)
    ensures buffer == null <==> objects == []
    ensures buffer != null ==> fresh(buffer) && buffer[..] == Contents(objects) + [NUL]
  {
    if objects == [] {
      return null;
    }
    var b := new char[|Item(objects[0])| + 1];
    FillItem(b, 0, objects[0]);
    assert b[..b.Length - 1] == Item(objects[0]);
    var k := 1;
    while k < |objects|
      invariant 1 <= k <= |objects| && fresh(b)
      invariant 0 < b.Length && b[..b.Length - 1] == Contents(objects[..k])
    {
      ContentsSnoc(objects, k);
      b := AppendItem(b, objects[k]);
      k := k + 1;
    }
    assert objects[..k] == objects;
    b[b.Length - 1] := NUL;
    assert b[..] == b[..b.Length - 1] + [NUL];
    buffer := b;
  }

  // ---------- serialisation ----------

  datatype Mode = Old | New

  /** printf's "%0<width>u" for a number of at most `width` digits. */
  function ZeroPadded(n: nat, width: nat): (r: string)
    ensures |r| == width
  {
    if width == 0 then "" else ZeroPadded(n / 10, width - 1) + [DigitOf(n % 10)]
  }

  /** What "%s" prints: for NULL whatever the C library makes of it (glibc: "(null)"; section
      7.21.6.1 of ISO/IEC 9899:2011 leaves it undefined). */
  function Shown(c: CString, nullText: string): string {
    if c.Null? then nullText else c.s
  }

  /** The time stamp is cast to a 32-bit unsigned int. */
  function Header(seconds: nat, executed: bool, t: Trap, delimiter: string, nullText: string): string
    requires t.hostname.Str? && t.oid.Str?
  {
    ZeroPadded(seconds % 0x1_0000_0000, 12) + delimiter + (if executed then "OK" else "NO") + delimiter
    + t.hostname.s + delimiter + Shown(t.ipaddress, nullText) + delimiter + t.oid.s
  }

  /** Old mode: "oid;value" for the objects that have both; the first follows the delimiter,
      the others a semicolon. */
  function OldItem(o: MibObject, delimiter: string, first: bool): string {
    if o.oid == "" || IsEmpty(o.quoted) then ""
    else (if first then delimiter else ";") + o.oid + ";" + o.quoted.s
  }

  function OldBody(os: seq<MibObject>, delimiter: string): string {
    if os == [] then ""
    else
      var body := OldBody(os[..|os| - 1], delimiter);
      body + OldItem(os[|os| - 1], delimiter, body == "")
  }

  ghost function Body(mode: Mode, os: seq<MibObject>, delimiter: string): string
    requires Printable(os)
  {
    if mode.Old? then OldBody(os, delimiter) else delimiter + Contents(os)
  }

  ghost function Serialized(mode: Mode, seconds: nat, executed: bool, t: Trap, delimiter: string,
                            nullText: string): string
    requires t.hostname.Str? && t.oid.Str? && Printable(t.objects)
  {
    Header(seconds, executed, t, delimiter, nullText) + Body(mode, t.objects, delimiter)
  }

  function Max(a: nat, b: nat): nat {
    if a >= b then a else b
  }

  /** The room the source reserves for the objects: twice the delimiter for each, or twice one
      byte when the delimiter is empty. */
  function ObjectsRoom(os: seq<MibObject>, delimiter: string): nat {
    if os == [] then 0
    else
      ObjectsRoom(os[..|os| - 1], delimiter)
      + |os[|os| - 1].oid| + XStrlen(os[|os| - 1].quoted) + 2 * Max(|delimiter|, 1)
  }

  function BufLen(t: Trap, delimiter: string): nat {
    12 + 2 + XStrlen(t.ipaddress) + XStrlen(t.hostname) + XStrlen(t.oid) + 4 * |delimiter|
    + ObjectsRoom(t.objects, delimiter) + 1
  }

  lemma {:induction false} OldBodyFits(os: seq<MibObject>, delimiter: string)
    ensures |OldBody(os, delimiter)| <= ObjectsRoom(os, delimiter)
  {
    if os != [] {
      OldBodyFits(os[..|os| - 1], delimiter);
    }
  }

  lemma {:induction false} ContentsFit(os: seq<MibObject>, delimiter: string)
    requires Printable(os) && os != []
    ensures |delimiter| + |Contents(os)| <= ObjectsRoom(os, delimiter)
  {
    if |os| > 1 {
      ContentsFit(os[..|os| - 1], delimiter);
    } else {
      assert os[..0] == [];
    }
  }

  /** What is written, terminator included, fits the buffer: for every trap with an address,
      in both modes, for every delimiter. The new mode needs an object, because its contents
      would be NULL. */
  lemma SerializedFits(mode: Mode, seconds: nat, executed: bool, t: Trap, delimiter: string, nullText: string)
    requires t.hostname.Str? && t.oid.Str? && Printable(t.objects)
    requires mode.New? ==> t.objects != []
    ensures t.ipaddress.Str? ==>
              |Serialized(mode, seconds, executed, t, delimiter, nullText)| + 1 <= BufLen(t, delimiter)
  {
    HeaderLength(seconds, executed, t, delimiter, nullText);
    if mode.Old? {
      OldBodyFits(t.objects, delimiter);
    } else {
      ContentsFit(t.objects, delimiter);
    }
  }

  lemma HeaderLength(seconds: nat, executed: bool, t: Trap, delimiter: string, nullText: string)
    requires t.hostname.Str? && t.oid.Str?
    ensures |Header(seconds, executed, t, delimiter, nullText)| + ObjectsRoom(t.objects, delimiter) + 1 ==
            BufLen(t, delimiter) + if t.ipaddress.Null? then |nullText| else 0
  {
  }

  // ---------- how much room is left ----------

  /** Every object has a name and a quoted value, as those of an accepted trap have. */
  predicate AllNamed(os: seq<MibObject>) {
    forall k | 0 <= k < |os| :: os[k].oid != "" && !IsEmpty(os[k].quoted)
  }

  /** The bytes that n objects leave unused when the delimiter has length d. */
  function Slack(n: nat, d: nat): int {
    if d == 0 then 1 else (2 * n - 1) * (d - 1)
  }

  lemma SlackGrows(n: nat, d: nat)
    requires n > 0
    ensures Slack(n + 1, d) == Slack(n, d) + 2 * Max(d, 1) - 2
  {
  }

  lemma {:induction false} ContentsLength(os: seq<MibObject>, delimiter: string)
    requires AllNamed(os) && os != []
    ensures |Contents(os)| + |delimiter| + Slack(|os|, |delimiter|) == ObjectsRoom(os, delimiter)
  {
    var n := |os| - 1;
    if n > 0 {
      ContentsLength(os[..n], delimiter);
      SlackGrows(n, |delimiter|);
    } else {
      assert os[..0] == [];
    }
  }

  lemma {:induction false} OldBodyLength(os: seq<MibObject>, delimiter: string)
    requires AllNamed(os) && os != []
    ensures |OldBody(os, delimiter)| + Slack(|os|, |delimiter|) == ObjectsRoom(os, delimiter)
    ensures OldBody(os, delimiter) != ""
  {
    var n := |os| - 1;
    if n > 0 {
      OldBodyLength(os[..n], delimiter);
      SlackGrows(n, |delimiter|);
    } else {
      assert os[..0] == [];
    }
  }

  /** The exact room that is left in the buffer, in either mode. */
  lemma SerializedLeaves(mode: Mode, seconds: nat, executed: bool, t: Trap, delimiter: string, nullText: string)
    requires t.hostname.Str? && t.oid.Str? && AllNamed(t.objects) && t.objects != []
    ensures BufLen(t, delimiter) - |Serialized(mode, seconds, executed, t, delimiter, nullText)| - 1 ==
            Slack(|t.objects|, |delimiter|) - if t.ipaddress.Null? then |nullText| else 0
  {
    HeaderLength(seconds, executed, t, delimiter, nullText);
    if mode.Old? {
      OldBodyLength(t.objects, delimiter);
    } else {
      ContentsLength(t.objects, delimiter);
    }
  }

  /** Whether an accepted trap fits: exactly when it has an address, or what is printed for
      NULL is no longer than the delimiter leaves room for. */
  predicate HasRoom(t: Trap, delimiter: string, nullText: string) {
    t.ipaddress.Str? || |nullText| <= Slack(|t.objects|, |delimiter|)
  }

  lemma SerializedFitsExactly(mode: Mode, seconds: nat, executed: bool, t: Trap, delimiter: string, nullText: string)
    requires t.hostname.Str? && t.oid.Str? && AllNamed(t.objects) && t.objects != []
    ensures |Serialized(mode, seconds, executed, t, delimiter, nullText)| + 1 <= BufLen(t, delimiter) <==>
            HasRoom(t, delimiter, nullText)
  {
    SerializedFits(mode, seconds, executed, t, delimiter, nullText);
    SerializedLeaves(mode, seconds, executed, t, delimiter, nullText);
  }

  /** With a one-byte delimiter, as the standalone mode has it, no byte is left over, so a NULL
      address is covered only if nothing at all is printed for it. */
  lemma CommaLeavesNothing(mode: Mode, seconds: nat, executed: bool, t: Trap, nullText: string)
    requires t.hostname.Str? && t.oid.Str? && AllNamed(t.objects) && t.objects != [] && t.ipaddress.Null?
    ensures |Serialized(mode, seconds, executed, t, ",", nullText)| + 1 <= BufLen(t, ",") <==> nullText == ""
  {
    SerializedFitsExactly(mode, seconds, executed, t, ",", nullText);
  }

  // ---------- the code ----------

  /** sprintf of a text to position `at`: the text and a terminator. */
  method Sprintf(buffer: array<char>, at: nat, text: string)
    requires at + |text| + 1 <= buffer.Length
    modifies buffer
    ensures buffer[..at + |text|] == old(buffer[..at]) + text
  {
    Memcpy(buffer, at, text + [NUL]);
    assert buffer[at..at + |text| + 1][..|text|] == buffer[at..at + |text|];
  }

  method ComputeBufLen(t: Trap, delimiter: string) returns (buflen: nat)
    ensures buflen == BufLen(t, delimiter)
  {
    buflen := 12;
    buflen := buflen + 2;
    buflen := buflen + XStrlen(t.ipaddress);
    buflen := buflen + XStrlen(t.hostname);
    buflen := buflen + XStrlen(t.oid);
    buflen := buflen + 4 * |delimiter|;
    ghost var start := buflen;
    var k := 0;
    while k < |t.objects|
      invariant k <= |t.objects| && buflen == start + ObjectsRoom(t.objects[..k], delimiter)
    {
      assert t.objects[..k + 1][..k] == t.objects[..k];
      buflen := buflen + |t.objects[k].oid|;
      buflen := buflen + XStrlen(t.objects[k].quoted);
      buflen := buflen + 2 * Max(|delimiter|, 1);
      k := k + 1;
    }
    assert t.objects[..k] == t.objects;
    buflen := buflen + 1;
  }

  lemma {:induction false} OldBodyGrows(os: seq<MibObject>, delimiter: string, k: nat)
    requires k <= |os|
    ensures |OldBody(os[..k], delimiter)| <= |OldBody(os, delimiter)|
    decreases |os|
  {
    if k == |os| {
      assert os[..k] == os;
    } else {
      assert os[..|os| - 1][..k] == os[..k];
      OldBodyGrows(os[..|os| - 1], delimiter, k);
    }
  }

  lemma OldBodySnoc(os: seq<MibObject>, delimiter: string, k: nat, before: string)
    requires k < |os|
    ensures before + OldBody(os[..k + 1], delimiter) ==
            before + OldBody(os[..k], delimiter) + OldItem(os[k], delimiter, OldBody(os[..k], delimiter) == "")
    ensures |OldBody(os[..k + 1], delimiter)| <= |OldBody(os, delimiter)|
  {
    assert os[..k + 1][..k] == os[..k];
    OldBodyGrows(os, delimiter, k + 1);
  }

  /** One object in the old mode; `first` stays set until something has been written. */
  method WriteOldItem(buffer: array<char>, at: nat, o: MibObject, delimiter: string, first: bool)
    returns (auxlen: nat, stillFirst: bool)
    requires at + |OldItem(o, delimiter, first)| + 1 <= buffer.Length
    modifies buffer
    ensures auxlen == at + |OldItem(o, delimiter, first)|
    ensures buffer[..auxlen] == old(buffer[..at]) + OldItem(o, delimiter, first)
    ensures stillFirst <==> first && OldItem(o, delimiter, first) == ""
  {
    auxlen, stillFirst := at, first;
    if o.oid != "" && !IsEmpty(o.quoted) {
      if first {
        Sprintf(buffer, at, delimiter + o.oid + ";" + o.quoted.s);
        auxlen := auxlen + 1 + |delimiter| + |o.oid| + |o.quoted.s|;
        stillFirst := false;
      } else {
        Sprintf(buffer, at, ";" + o.oid + ";" + o.quoted.s);
        auxlen := auxlen + 2 + |o.oid| + |o.quoted.s|;
      }
    }
  }

  /** The loop of the old mode. */
  method WriteOldBody(buffer: array<char>, at: nat, objects: seq<MibObject>, delimiter: string) returns (auxlen: nat)
    requires at + |OldBody(objects, delimiter)| + 1 <= buffer.Length
    modifies buffer
    ensures auxlen < buffer.Length
    ensures buffer[..auxlen] == old(buffer[..at]) + OldBody(objects, delimiter)
  {
    auxlen := at;
    var firstOid, k := true, 0;
    ghost var before := buffer[..at];
    while k < |objects|
      invariant k <= |objects| && auxlen == at + |OldBody(objects[..k], delimiter)|
      invariant auxlen < buffer.Length
      invariant buffer[..auxlen] == before + OldBody(objects[..k], delimiter)
      invariant firstOid <==> OldBody(objects[..k], delimiter) == ""
    {
      OldBodySnoc(objects, delimiter, k, before);
      auxlen, firstOid := WriteOldItem(buffer, auxlen, objects[k], delimiter, firstOid);
      k := k + 1;
    }
    assert objects[..k] == objects;
  }

  method WriteBody(buffer: array<char>, at: nat, mode: Mode, objects: seq<MibObject>, delimiter: string)
    returns (auxlen: nat)
    requires Printable(objects) && (mode.New? ==> objects != [])
    requires at + |Body(mode, objects, delimiter)| + 1 <= buffer.Length
    modifies buffer
    ensures auxlen < buffer.Length
    ensures buffer[..auxlen] == old(buffer[..at]) + Body(mode, objects, delimiter)
  {
    if mode.Old? {
      auxlen := WriteOldBody(buffer, at, objects, delimiter);
    } else {
      var contents := GetContents(objects);
      var text := delimiter + contents[..contents.Length - 1];
      assert contents[..contents.Length - 1] == Contents(objects);
      Sprintf(buffer, at, text);
      auxlen := at + |text|;
    }
  }

  /** trap_serialize. A buffer that is large enough is promised for every trap with an address
      and, without one, exactly where the text printed for NULL fits. */
  method Serialize(mode: Mode, seconds: nat, executed: bool, t: Trap, delimiter: string, nullText: string)
    returns (buffer: array<char>, auxlen: nat)
    requires t.hostname.Str? && t.oid.Str? && Printable(t.objects)
    requires mode.New? ==> t.objects != []
    requires t.ipaddress.Null? ==> AllNamed(t.objects) && t.objects != [] && HasRoom(t, delimiter, nullText)
    ensures buffer.Length == BufLen(t, delimiter) && auxlen < buffer.Length && buffer[auxlen] == NUL
    ensures buffer[..auxlen] == Serialized(mode, seconds, executed, t, delimiter, nullText)
  {
    var buflen := ComputeBufLen(t, delimiter);
    buffer := new char[buflen];
    var header := Header(seconds, executed, t, delimiter, nullText);
    SerializedFits(mode, seconds, executed, t, delimiter, nullText);
    if t.ipaddress.Null? {
      SerializedFitsExactly(mode, seconds, executed, t, delimiter, nullText);
    }
    Sprintf(buffer, 0, header);
    assert buffer[..|header|] == header;
    auxlen := WriteBody(buffer, |header|, mode, t.objects, delimiter);
    ghost var written := buffer[..auxlen];
    buffer[auxlen] := NUL;
    assert buffer[..auxlen] == written;
  }

  /** An accepted trap meets what the printers need, its address apart; it has one exactly when
      a word of the address line contains a bracket. */
  lemma AcceptedTrapPrints(buffer: CString, isPrivate: bool, tk: string)
    requires Parsed(buffer, isPrivate, tk).TrapPdu?
    ensures var t := Parsed(buffer, isPrivate, tk).trap;
            Printable(t.objects) && AllNamed(t.objects) && t.objects != [] && t.hostname.Str? && t.oid.Str?
    ensures var f := FrameOf(Tokens.Split(RemoveChars(buffer.s, "\n\r"), ' '), tk);
            && IsTrapFrame(f, tk)
            && (Parsed(buffer, isPrivate, tk).trap.ipaddress.Str? <==>
                exists i :: 0 <= i < |f.head.address| && '[' in f.head.address[i])
  {
    TrapIsComplete(buffer, isPrivate, tk);
    var ts := Tokens.Split(RemoveChars(buffer.s, "\n\r"), ' ');
    var f := FrameOf(ts, tk);
    EveryInputIsAFrame(ts, tk, isPrivate);
    FrameVerdict(f, tk, isPrivate);
    AcceptedAddress(f, tk);
  }
}
