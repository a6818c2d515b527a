/** The ini file reader and writer (src/iniparser.c). */
module IniParser {
  import opened CStrings
  import Dictionary

  const ASCIILINESZ := 1024

  // ---------- strlwc and strstrip ----------

  function Lower(c: char): char {
    if 'A' <= c <= 'Z' then c + 32 as char else c
  }

  function Lowered(s: string): string {
    seq(|s|, i requires 0 <= i < |s| => Lower(s[i]))
  }

  function StripLeft(s: string): string {
    if s != "" && IsSpace(s[0]) then StripLeft(s[1..]) else s
  }

  function StripRight(s: string): (r: string)
    ensures |r| <= |s|
  {
    if s != "" && IsSpace(s[|s| - 1]) then StripRight(s[..|s| - 1]) else s
  }

  function Strip(s: string): string {
    StripRight(StripLeft(s))
  }

  /** strlwc, into a buffer of ASCIILINESZ + 1 bytes; longer strings are cut off. */
  method StrLwc(s: string) returns (r: string)
    ensures r == Lowered(if |s| <= ASCIILINESZ then s else s[..ASCIILINESZ])
  {
    var l := new char[ASCIILINESZ + 1](_ => NUL);
    var i := 0;
    while i < |s| && i < ASCIILINESZ
      invariant i <= |s| && i <= ASCIILINESZ && l[..i] == Lowered(s[..i])
    {
      l[i] := Lower(s[i]);
      i := i + 1;
    }
    l[ASCIILINESZ] := NUL;
    assert i == |s| ==> s[..i] == s;
    r := l[..i];
  }

  /** Cuts off the spaces at the end. */
  method TrimEnd(s: string) returns (r: string)
    ensures r == StripRight(s)
  {
    var last := |s|;
    assert s[..last] == s;
    while last > 0 && IsSpace(s[last - 1])
      invariant last <= |s| && StripRight(s[..last]) == StripRight(s)
    {
      assert s[..last][..last - 1] == s[..last - 1];
      last := last - 1;
    }
    r := s[..last];
  }

  /** strstrip, into a buffer of ASCIILINESZ + 1 bytes */
  method StrStrip(s: string) returns (r: string)
    requires |s| <= ASCIILINESZ
    ensures r == Strip(s)
  {
    var from := 0;
    while from < |s| && IsSpace(s[from])
      invariant from <= |s| && StripLeft(s[from..]) == StripLeft(s)
    {
      assert s[from..][1..] == s[from + 1..];
      from := from + 1;
    }
    r := TrimEnd(s[from..]);
  }

  // ---------- scansets ----------

  /** Length of the longest prefix with only characters of `set`. */
  function Only(s: string, chars: string): (n: nat)
    ensures n <= |s|
  {
    if s == "" || s[0] !in chars then 0 else 1 + Only(s[1..], chars)
  }

  datatype Match = NoMatch | Match(key: string, value: string)

  /** "%[^=] = ": the key, and where the value begins; the key must not be empty. */
  function KeyAndEquals(line: string): Match {
    var n := Span(line, "=");
    if n == 0 || n == |line| then NoMatch else Match(line[..n], StripLeft(line[n + 1..]))
  }

  /** sscanf with "%[^=] = Q%[^Q]" for a quote Q; the closing quote is optional. */
  function ScanQuoted(line: string, quote: char): Match {
    var m := KeyAndEquals(line);
    if m.NoMatch? || m.value == "" || m.value[0] != quote then NoMatch
    else
      var n := Span(m.value[1..], [quote]);
      if n == 0 then NoMatch else Match(m.key, m.value[1..][..n])
  }

  /** "%[^=] = %[^;#]" */
  function ScanPlain(line: string): Match {
    var m := KeyAndEquals(line);
    if m.NoMatch? then NoMatch
    else
      var n := Span(m.value, ";#");
      if n == 0 then NoMatch else Match(m.key, m.value[..n])
  }

  /** "%[^=] = %[;#]", or "%[^=] %[=]": a key without a value. */
  function ScanEmpty(line: string): Match {
    var m := KeyAndEquals(line);
    if m.Match? && Only(m.value, ";#") > 0 then Match(m.key, "")
    else
      var n := Span(line, "=");
      if n > 0 && Only(StripLeft(line[n..]), "=") > 0 then Match(line[..n], "") else NoMatch
  }

  // ---------- one line ----------

  /** A section line whose name is empty leaves the name buffer as it was. */
  datatype Line = Empty | Comment | Section(name: CString) | Value(key: string, value: string) | Error

  function ValueLine(m: Match): Line
    requires m.Match?
  {
    var v := Strip(m.value);
    Value(Lowered(Strip(m.key)), if v == "\"\"" || v == "''" then "" else v)
  }

  /** iniparser_line on the stripped line */
  function ClassifyStripped(line: string): Line {
    if line == "" then Empty
    else if line[0] == '#' || line[0] == ';' then Comment
    else if line[0] == '[' && line[|line| - 1] == ']' then
      var n := Span(line[1..], "]");
      Section(if n == 0 then Null else Str(line[1..][..n]))
    else if ScanQuoted(line, '"').Match? then ValueLine(ScanQuoted(line, '"'))
    else if ScanQuoted(line, '\'').Match? then ValueLine(ScanQuoted(line, '\''))
    else if ScanPlain(line).Match? then ValueLine(ScanPlain(line))
    else if ScanEmpty(line).Match? then Value(Lowered(Strip(ScanEmpty(line).key)), "")
    else Error
  }

  function Classify(line: string): Line {
    ClassifyStripped(Strip(line))
  }

  // ---------- the file ----------

  /** The variables of iniparser_load: the entries so far, the section name, the error count
      and the part of a multi-line value that is waiting in the line buffer. */
  datatype Loader = Loader(entries: map<string, CString>, section: string, errs: int, pending: string)

  const Fresh := Loader(map[], "", 0, "")

  /** dictionary_set as the loader uses it; the empty key is never found again. */
  function SetEntry(m: map<string, CString>, key: string, value: CString): map<string, CString> {
    if key == "" then m else m[key := XStrdup(value)]
  }

  /** The switch on the line's kind. */
  function Process(st: Loader, line: Line): Loader {
    match line
    case Empty => st.(pending := "")
    case Comment => st.(pending := "")
    case Section(name) =>
      var s := Lowered(Strip(if name.Str? then name.s else st.section));
      st.(entries := SetEntry(st.entries, s, Null), section := s, errs := 0, pending := "")
    case Value(key, value) =>
      st.(entries := SetEntry(st.entries, st.section + ":" + key, Str(value)), errs := 0, pending := "")
    case Error => st.(errs := st.errs + 1, pending := "")
  }

  /** fgets: how many characters it takes, at most size - 1 and no further than a newline. */
  function Fgets(input: string, size: nat): (n: nat)
    requires input != "" && 2 <= size
    ensures 1 <= n <= |input| && n < size
  {
    if input[0] == '\n' || size == 2 || |input| == 1 then 1 else 1 + Fgets(input[1..], size - 1)
  }

  /** A pending line leaves room for more. */
  predicate HasRoom(st: Loader) {
    |st.pending| <= ASCIILINESZ - 3
  }

  /** What happens with the line buffer after a successful fgets. */
  datatype Effect = TooLong | Continue(next: Loader)

  function Digest(st: Loader, line: string): Effect
    requires line != "" && |line| < ASCIILINESZ && HasRoom(st)
  {
    if |line| == 1 then Continue(st)
    else if line[|line| - 1] != '\n' then TooLong
    else
      var trimmed := StripRight(line);
      if trimmed != "" && trimmed[|trimmed| - 1] == '\\' then Continue(st.(pending := trimmed[..|trimmed| - 1]))
      else Continue(Process(st, Classify(trimmed)))
  }

  lemma EffectHasRoom(st: Loader, line: string)
    requires line != "" && |line| < ASCIILINESZ && HasRoom(st)
    ensures Digest(st, line).Continue? ==> HasRoom(Digest(st, line).next)
  {
  }

  datatype Loaded = Failed | Loaded(entries: map<string, CString>)

  /** iniparser_load on the rest of a file. */
  function LoadFrom(st: Loader, input: string): Loaded
    requires HasRoom(st)
    decreases |input|
  {
    if input == "" then (if st.errs != 0 then Failed else Loaded(st.entries))
    else
      var n := Fgets(input, ASCIILINESZ - |st.pending|);
      var e := Digest(st, st.pending + input[..n]);
      if e.TooLong? then Failed
      else
        EffectHasRoom(st, st.pending + input[..n]);
        LoadFrom(e.next, input[n..])
  }

  function Load(input: string): Loaded {
    LoadFrom(Fresh, input)
  }

  // ---------- the reading code ----------

  lemma StripShorter(s: string)
    ensures |Strip(s)| <= |s| && |StripLeft(s)| <= |s|
  {
    StripLeftShorter(s);
  }

  lemma {:induction false} StripLeftShorter(s: string)
    ensures |StripLeft(s)| <= |s|
  {
    if s != "" {
      StripLeftShorter(s[1..]);
    }
  }

  lemma ScansAreShort(line: string, quote: char)
    ensures forall m | m == ScanQuoted(line, quote) || m == ScanPlain(line) || m == ScanEmpty(line) ::
              m.Match? ==> |m.key| <= |line| && |m.value| <= |line|
  {
    StripLeftShorter(line[Span(line, "=")..]);
    if Span(line, "=") < |line| {
      StripLeftShorter(line[Span(line, "=") + 1..]);
    }
  }

  /** The name of a key: stripped and in lower case. */
  method KeyName(raw: string) returns (key: string)
    requires |raw| <= ASCIILINESZ
    ensures key == Lowered(Strip(raw)) && |key| <= ASCIILINESZ
  {
    StripShorter(raw);
    key := StrStrip(raw);
    key := StrLwc(key);
  }

  /** The sscanf cascade of iniparser_line for a line that is not empty, a comment or a section. */
  method ScanEntry(line: string) returns (r: Line)
    requires |line| <= ASCIILINESZ
    ensures r == if ScanQuoted(line, '"').Match? then ValueLine(ScanQuoted(line, '"'))
                 else if ScanQuoted(line, '\'').Match? then ValueLine(ScanQuoted(line, '\''))
                 else if ScanPlain(line).Match? then ValueLine(ScanPlain(line))
                 else if ScanEmpty(line).Match? then Value(Lowered(Strip(ScanEmpty(line).key)), "")
                 else Error
  {
    ScansAreShort(line, '"');
    ScansAreShort(line, '\'');
    var m := ScanQuoted(line, '"');
    if m.NoMatch? {
      m := ScanQuoted(line, '\'');
    }
    if m.NoMatch? {
      m := ScanPlain(line);
    }
    if m.Match? {
      var key := KeyName(m.key);
      var value := StrStrip(m.value);
      if value == "\"\"" || value == "''" {
        value := "";
      }
      return Value(key, value);
    }
    m := ScanEmpty(line);
    if m.NoMatch? {
      return Error;
    }
    var key := KeyName(m.key);
    r := Value(key, "");
  }

  /** iniparser_line: the line's kind, and the section name from here on. */
  method IniparserLine(inputLine: string, section: string) returns (r: Line, section': string)
    requires |inputLine| <= ASCIILINESZ && |section| <= ASCIILINESZ
    ensures r == Classify(inputLine)
    ensures section' == if r.Section? then Lowered(Strip(if r.name.Str? then r.name.s else section)) else section
    ensures |section'| <= ASCIILINESZ
  {
    StripShorter(inputLine);
    var line := StrStrip(inputLine);
    section' := section;
    if |line| < 1 {
      r := Empty;
    } else if line[0] == '#' || line[0] == ';' {
      r := Comment;
    } else if line[0] == '[' && line[|line| - 1] == ']' {
      var end := StrCSpn(line, 1, "]");
      r := Section(if end == 1 then Null else Str(line[1..end]));
      section' := KeyName(if end == 1 then section else line[1..end]);
    } else {
      r := ScanEntry(line);
    }
  }

  lemma LoadStepFrom(st: Loader, input: string)
    requires HasRoom(st) && input != ""
    ensures var n := Fgets(input, ASCIILINESZ - |st.pending|);
            var e := Digest(st, st.pending + input[..n]);
            LoadFrom(st, input) ==
            if !e.TooLong? && HasRoom(e.next) then LoadFrom(e.next, input[n..]) else Failed
  {
    EffectHasRoom(st, st.pending + input[..Fgets(input, ASCIILINESZ - |st.pending|)]);
  }

  /** What iniparser_load does with its line buffer after a successful fgets. */
  method DigestLine(d: Dictionary.Dict, section: string, errs: int, full: string, ghost st: Loader)
    returns (tooLong: bool, section': string, errs': int, line: string)
    requires full != "" && |full| < ASCIILINESZ && |section| <= ASCIILINESZ && HasRoom(st)
    requires d.Valid() && st.entries == d.Map && st.section == section && st.errs == errs
    requires |full| == 1 ==> st.pending == ""
    modifies d, d.key, d.val, d.hash
    ensures d.Valid() && |section'| <= ASCIILINESZ
    ensures Digest(st, full) == if tooLong then TooLong else Continue(Loader(d.Map, section', errs', line))
    ensures d.key == old(d.key) || fresh(d.key)
    ensures d.val == old(d.val) || fresh(d.val)
    ensures d.hash == old(d.hash) || fresh(d.hash)
  {
    tooLong, section', errs', line := false, section, errs, "";
    if |full| == 1 {
      return;
    }
    if full[|full| - 1] != '\n' {
      tooLong := true;
      return;
    }
    var trimmed := TrimEnd(full);
    if trimmed != "" && trimmed[|trimmed| - 1] == '\\' {
      line := trimmed[..|trimmed| - 1];
      return;
    }
    section', errs' := HandleLine(d, section, errs, trimmed, st);
  }

  /** The lines read so far, each with the loader's variables and the rest of the file. */
  datatype Log = Begin(input: string) | Turn(before: Log, state: Loader, tail: string)

  function Now(log: Log): Loader {
    if log.Begin? then Fresh else log.state
  }

  function Rest(log: Log): string {
    if log.Begin? then log.input else log.tail
  }

  /** Each entry of the log was one turn of the loop; `goal` is what loading gives. */
  ghost predicate Obeys(goal: Loaded, log: Log) {
    match log
    case Begin(input) => goal == Load(input)
    case Turn(before, state, tail) => Obeys(goal, before) && IsTurn(Now(before), Rest(before), state, tail)
  }

  ghost predicate IsTurn(st: Loader, input: string, st': Loader, tail: string) {
    && HasRoom(st) && input != "" && HasRoom(st')
    && LoadFrom(st, input) == LoadFrom(st', tail)
  }

  lemma {:induction false} LogIsOnTheWay(goal: Loaded, log: Log)
    requires Obeys(goal, log)
    ensures HasRoom(Now(log)) && goal == LoadFrom(Now(log), Rest(log))
  {
    if log.Turn? {
      LogIsOnTheWay(goal, log.before);
    }
  }

  lemma LogGrows(goal: Loaded, log: Log, n: nat, e: Effect)
    requires Obeys(goal, log) && Rest(log) != "" && HasRoom(Now(log))
    requires n == Fgets(Rest(log), ASCIILINESZ - |Now(log).pending|)
    requires e == Digest(Now(log), Now(log).pending + Rest(log)[..n])
    ensures if e.TooLong? then goal == Failed else Obeys(goal, Turn(log, e.next, Rest(log)[n..])) && HasRoom(e.next)
  {
    LogIsOnTheWay(goal, log);
    EffectHasRoom(Now(log), Now(log).pending + Rest(log)[..n]);
    LoadStepFrom(Now(log), Rest(log));
  }

  /** One turn of the loop. */
  method LoadLine(d: Dictionary.Dict, section: string, errs: int, line: string, rest: string, ghost goal: Loaded,
                  ghost log: Log)
    returns (tooLong: bool, section': string, errs': int, line': string, rest': string, ghost log': Log)
    requires rest != "" && |section| <= ASCIILINESZ && |line| <= ASCIILINESZ - 3
    requires d.Valid() && Obeys(goal, log) && Now(log) == Loader(d.Map, section, errs, line) && Rest(log) == rest
    modifies d, d.key, d.val, d.hash
    ensures d.Valid() && |section'| <= ASCIILINESZ
    ensures tooLong ==> goal == Failed
    ensures !tooLong ==>
      && |line'| <= ASCIILINESZ - 3 && |rest'| < |rest|
      && Obeys(goal, log') && Now(log') == Loader(d.Map, section', errs', line') && Rest(log') == rest'
    ensures d.key == old(d.key) || fresh(d.key)
    ensures d.val == old(d.val) || fresh(d.val)
    ensures d.hash == old(d.hash) || fresh(d.hash)
  {
    var n := Fgets(rest, ASCIILINESZ - |line|);
    tooLong, section', errs', line' := DigestLine(d, section, errs, line + rest[..n], Now(log));
    rest' := rest[n..];
    LogGrows(goal, log, n, if tooLong then TooLong else Continue(Loader(d.Map, section', errs', line')));
    log' := Turn(log, Loader(d.Map, section', errs', line'), rest');
  }

  /** iniparser_load, from the file's contents; NULL when it fails. */
  method IniparserLoad(input: string, hashOf: string -> bv32) returns (dict: Dictionary.Dict?)
    ensures dict == null <==> Load(input).Failed?
    ensures dict != null ==> fresh(dict) && dict.Valid() && Load(input) == Loaded(dict.Map)
  {
    var d := new Dictionary.Dict(0, hashOf);
    var section, errs, line, rest := "", 0, "", input;
    ghost var log := Begin(input);
    while rest != ""
      invariant |line| <= ASCIILINESZ - 3 && |section| <= ASCIILINESZ
      invariant d.Valid() && fresh(d) && fresh(d.key) && fresh(d.val) && fresh(d.hash)
      invariant Obeys(Load(input), log) && Now(log) == Loader(d.Map, section, errs, line) && Rest(log) == rest
      decreases |rest|
    {
      var tooLong;
      tooLong, section, errs, line, rest, log := LoadLine(d, section, errs, line, rest, Load(input), log);
      if tooLong {
        return null;
      }
    }
    LogIsOnTheWay(Load(input), log);
    dict := if errs != 0 then null else d;
  }

  /** The switch of the loop body. */
  method HandleLine(d: Dictionary.Dict, section: string, errs: int, trimmed: string, ghost st: Loader)
    returns (section': string, errs': int)
    requires |trimmed| <= ASCIILINESZ && |section| <= ASCIILINESZ
    requires d.Valid() && st.entries == d.Map && st.section == section && st.errs == errs
    modifies d, d.key, d.val, d.hash
    ensures d.Valid() && Process(st, Classify(trimmed)) == Loader(d.Map, section', errs', "")
    ensures |section'| <= ASCIILINESZ
    ensures d.key == old(d.key) || fresh(d.key)
    ensures d.val == old(d.val) || fresh(d.val)
    ensures d.hash == old(d.hash) || fresh(d.hash)
  {
    var line;
    line, section' := IniparserLine(trimmed, section);
    errs' := errs;
    match line
    case Empty =>
    case Comment =>
    case Section(_) =>
      errs' := d.Set(Str(section'), Null);
    case Value(key, value) =>
      errs' := d.Set(Str(section' + ":" + key), Str(value));
    case Error =>
      errs' := errs + 1;
  }

  // ---------- writing ----------

  /** A section is stored as a key without a colon. */
  predicate IsSection(key: CString) {
    key.Str? && ':' !in key.s
  }

  function Sections(keys: seq<CString>): seq<string> {
    if keys == [] then []
    else
      var k := keys[|keys| - 1];
      Sections(keys[..|keys| - 1]) + if IsSection(k) then [k.s] else []
  }

  predicate Belongs(key: CString, section: string) {
    key.Str? && section + ":" <= key.s
  }

  /** "%-30s" */
  function Pad(s: string): (r: string)
    ensures |r| == if |s| < 30 then 30 else |s|
  {
    if |s| >= 30 then s else s + seq(30 - |s|, _ => ' ')
  }

  function Text(v: CString, null_: string): string {
    if v.Null? then null_ else v.s
  }

  function EntryLine(name: string, value: CString): string {
    Pad(name) + " = " + Text(value, "") + "\n"
  }

  function DumpEntries(section: string, keys: seq<CString>, vals: seq<CString>): string
    requires |keys| == |vals|
  {
    if keys == [] then ""
    else
      var n := |keys| - 1;
      DumpEntries(section, keys[..n], vals[..n])
      + if Belongs(keys[n], section) then EntryLine(keys[n].s[|section| + 1..], vals[n]) else ""
  }

  function SectionText(section: string, keys: seq<CString>, vals: seq<CString>): string
    requires |keys| == |vals|
  {
    "\n[" + section + "]\n" + DumpEntries(section, keys, vals)
  }

  function DumpSections(sections: seq<string>, keys: seq<CString>, vals: seq<CString>): string
    requires |keys| == |vals|
  {
    if sections == [] then ""
    else
      var n := |sections| - 1;
      DumpSections(sections[..n], keys, vals) + SectionText(sections[n], keys, vals)
  }

  /** Without sections the keys are printed as they are; printf shows NULL as "(null)". */
  function DumpPlain(keys: seq<CString>, vals: seq<CString>): string
    requires |keys| == |vals|
  {
    if keys == [] then ""
    else
      var n := |keys| - 1;
      DumpPlain(keys[..n], vals[..n])
      + if keys[n].Str? then keys[n].s + " = " + Text(vals[n], "(null)") + "\n" else ""
  }

  /** The text of a dictionary with the given slots. */
  function Dump(keys: seq<CString>, vals: seq<CString>): string
    requires |keys| == |vals|
  {
    if Sections(keys) == [] then DumpPlain(keys, vals) else DumpSections(Sections(keys), keys, vals) + "\n"
  }

  lemma SectionsSnoc(keys: seq<CString>, i: nat)
    requires i < |keys|
    ensures Sections(keys[..i + 1]) == Sections(keys[..i]) + if IsSection(keys[i]) then [keys[i].s] else []
  {
    assert keys[..i + 1][..i] == keys[..i];
  }

  lemma {:induction false} SectionsPrefix(keys: seq<CString>, i: nat)
    requires i <= |keys|
    ensures Sections(keys[..i]) <= Sections(keys)
    decreases |keys|
  {
    if i == |keys| {
      assert keys[..i] == keys;
    } else {
      assert keys[..|keys| - 1][..i] == keys[..i];
      SectionsPrefix(keys[..|keys| - 1], i);
    }
  }

  /** iniparser_getnsec */
  method GetNSec(d: Dictionary.Dict) returns (nsec: nat)
    requires d.Valid()
    ensures nsec == |Sections(d.key[..])|
  {
    nsec := 0;
    var i := 0;
    while i < d.size
      invariant i <= d.size && nsec == |Sections(d.key[..i])|
    {
      assert d.key[..i + 1][..i] == d.key[..i];
      if d.key[i].Str? && ':' !in d.key[i].s {
        nsec := nsec + 1;
      }
      i := i + 1;
    }
    assert d.key[..i] == d.key[..];
  }

  /** iniparser_getsecname */
  method GetSecName(d: Dictionary.Dict, n: int) returns (name: CString)
    requires d.Valid()
    ensures name == if 0 <= n < |Sections(d.key[..])| then Str(Sections(d.key[..])[n]) else Null
  {
    if n < 0 {
      return Null;
    }
    var foundsec, i := 0, 0;
    while i < d.size
      invariant i <= d.size && foundsec == |Sections(d.key[..i])| <= n
    {
      SectionsSnoc(d.key[..], i);
      SectionsPrefix(d.key[..], i + 1);
      assert d.key[..][..i + 1] == d.key[..i + 1] && d.key[..][..i] == d.key[..i];
      if d.key[i].Str? && ':' !in d.key[i].s {
        foundsec := foundsec + 1;
        if foundsec > n {
          return d.key[i];
        }
      }
      i := i + 1;
    }
    assert d.key[..i] == d.key[..];
    name := Null;
  }

  /** The inner loop of iniparser_dump_ini. */
  method DumpSectionEntries(d: Dictionary.Dict, section: string) returns (out: string)
    requires d.Valid()
    ensures out == DumpEntries(section, d.key[..], d.val[..])
  {
    out := "";
    var keym := section + ":";
    var j := 0;
    while j < d.size
      invariant j <= d.size && out == DumpEntries(section, d.key[..j], d.val[..j])
    {
      assert d.key[..j + 1][..j] == d.key[..j] && d.val[..j + 1][..j] == d.val[..j];
      if d.key[j].Str? && keym <= d.key[j].s {
        out := out + EntryLine(d.key[j].s[|section| + 1..], d.val[j]);
      }
      j := j + 1;
    }
    assert d.key[..j] == d.key[..] && d.val[..j] == d.val[..];
  }

  /** The dump of a dictionary that has no section. */
  method DumpAsTheyAre(d: Dictionary.Dict) returns (out: string)
    requires d.Valid()
    ensures out == DumpPlain(d.key[..], d.val[..])
  {
    out := "";
    var i := 0;
    while i < d.size
      invariant i <= d.size && out == DumpPlain(d.key[..i], d.val[..i])
    {
      assert d.key[..i + 1][..i] == d.key[..i] && d.val[..i + 1][..i] == d.val[..i];
      if d.key[i].Str? {
        out := out + (d.key[i].s + " = " + Text(d.val[i], "(null)") + "\n");
      }
      i := i + 1;
    }
    assert d.key[..i] == d.key[..] && d.val[..i] == d.val[..];
  }

  /** iniparser_dump_ini */
  method IniparserDumpIni(d: Dictionary.Dict) returns (out: string)
    requires d.Valid()
    ensures out == Dump(d.key[..], d.val[..])
  {
    var nsec := GetNSec(d);
    if nsec < 1 {
      out := DumpAsTheyAre(d);
      return;
    }
    out := "";
    ghost var sections := Sections(d.key[..]);
    var i := 0;
    while i < nsec
      invariant i <= nsec == |sections|
      invariant out == DumpSections(sections[..i], d.key[..], d.val[..])
    {
      var secname := GetSecName(d, i);
      assert sections[..i + 1][..i] == sections[..i];
      var entries := DumpSectionEntries(d, secname.s);
      out := out + ("\n[" + secname.s + "]\n" + entries);
      i := i + 1;
    }
    assert sections[..i] == sections;
    out := out + "\n";
  }
}
