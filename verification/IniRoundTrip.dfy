/** What iniparser_dump_ini prints, iniparser_load reads back. */
module IniRoundTrip {
  import opened CStrings
  import opened IniParser
  import Dictionary

  // ---------- printable dictionaries ----------

  predicate Lowercase(s: string) {
    forall i | 0 <= i < |s| :: !('A' <= s[i] <= 'Z')
  }

  /** Not empty, and no space at either end. */
  predicate Tight(s: string) {
    s != "" && !IsSpace(s[0]) && !IsSpace(s[|s| - 1])
  }

  predicate SectionOk(s: string) {
    Tight(s) && Lowercase(s) && ']' !in s && '\n' !in s && |s| + 3 < ASCIILINESZ
  }

  /** Names are not mistaken for a comment and hold no equals sign. */
  predicate NameOk(name: string) {
    Tight(name) && Lowercase(name) && '=' !in name && '\n' !in name && name[0] !in "#;"
  }

  /** NULL, or text without a comment sign, a leading quote or a trailing backslash. */
  predicate ValueOk(v: CString) {
    v.Str? ==>
      && Tight(v.s) && ';' !in v.s && '#' !in v.s && '\n' !in v.s
      && v.s[0] !in "\"'" && v.s[|v.s| - 1] != '\\'
  }

  /** The line fits, and it does not look like "[section]". */
  predicate EntryOk(name: string, v: CString) {
    && NameOk(name) && ValueOk(v) && |EntryLine(name, v)| < ASCIILINESZ
    && !(name[0] == '[' && v.Str? && v.s[|v.s| - 1] == ']')
  }

  /** The part of a key before its first colon. */
  function SectionOf(key: string): string {
    key[..Span(key, ":")]
  }

  /** A dictionary that the ini format can express: sections have no value, and every other
      key belongs to a stored section. */
  predicate Printable(m: map<string, CString>) {
    forall key | key in m ::
      if ':' !in key then SectionOk(key) && m[key].Null?
      else
        && SectionOf(key) in m
        && |SectionOf(key)| < |key|
        && EntryOk(key[|SectionOf(key)| + 1..], m[key])
  }

  // ---------- spaces and scansets ----------

  predicate Blank(s: string) {
    forall i | 0 <= i < |s| :: IsSpace(s[i])
  }

  lemma {:induction false} StripRightBlank(s: string, blank: string)
    requires s != "" && !IsSpace(s[|s| - 1]) && Blank(blank)
    ensures StripRight(s + blank) == s
  {
    if blank == "" {
      assert s + blank == s;
    } else {
      var n := |blank| - 1;
      assert (s + blank)[..|s + blank| - 1] == s + blank[..n];
      StripRightBlank(s, blank[..n]);
    }
  }

  lemma StripBlank(s: string, blank: string)
    requires Tight(s) && Blank(blank)
    ensures Strip(s + blank) == s && Strip(s) == s
  {
    StripRightBlank(s, blank);
    StripRightBlank(s, "");
    assert (s + blank)[0] == s[0];
    assert s + "" == s;
  }

  lemma LowercaseStays(s: string)
    requires Lowercase(s)
    ensures Lowered(s) == s
  {
  }

  lemma {:induction false} SpanSplits(s: string, c: char)
    ensures c in s <==> Span(s, [c]) < |s|
    ensures c in s ==> s[Span(s, [c])] == c
    ensures Avoids(s[..Span(s, [c])], [c])
  {
    if s != "" && s[0] != c {
      SpanSplits(s[1..], c);
    }
  }

  // ---------- one line ----------

  lemma {:induction false} FgetsLine(body: string, rest: string, size: nat)
    requires '\n' !in body && |body| + 1 < size
    ensures Fgets(body + "\n" + rest, size) == |body| + 1
  {
    var input := body + "\n" + rest;
    if body == "" {
      assert input[0] == '\n';
    } else {
      assert input[0] == body[0];
      assert input[1..] == body[1..] + "\n" + rest;
      FgetsLine(body[1..], rest, size - 1);
    }
  }

  /** A whole line of text, with spaces behind the text. */
  predicate LineOk(text: string, blank: string) {
    && text != "" && !IsSpace(text[|text| - 1]) && text[|text| - 1] != '\\'
    && Blank(blank) && '\n' !in text && '\n' !in blank && |text| + |blank| + 1 < ASCIILINESZ
  }

  lemma DigestLine(st: Loader, text: string, blank: string)
    requires st.pending == "" && LineOk(text, blank)
    ensures Digest(st, text + blank + "\n") == Continue(Process(st, Classify(text)))
    ensures HasRoom(Process(st, Classify(text)))
  {
    StripRightBlank(text, blank + "\n");
    assert text + (blank + "\n") == text + blank + "\n";
  }

  lemma LoadStep(st: Loader, line: string, rest: string)
    requires st.pending == "" && line != "" && |line| < ASCIILINESZ
    requires Fgets(line + rest, ASCIILINESZ) == |line| && Digest(st, line).Continue?
    ensures HasRoom(Digest(st, line).next)
    ensures LoadFrom(st, line + rest) == LoadFrom(Digest(st, line).next, rest)
  {
    EffectHasRoom(st, line);
    Cut(line, rest);
  }

  lemma Cut(a: string, b: string)
    ensures "" + (a + b)[..|a|] == a && (a + b)[|a|..] == b
  {
  }

  /** The line is classified and processed, and the reader goes on behind it. */
  lemma LoadLine(st: Loader, text: string, blank: string, rest: string)
    requires st.pending == "" && LineOk(text, blank)
    ensures HasRoom(Process(st, Classify(text)))
    ensures LoadFrom(st, text + blank + "\n" + rest) == LoadFrom(Process(st, Classify(text)), rest)
  {
    FgetsLine(text + blank, rest, ASCIILINESZ);
    DigestLine(st, text, blank);
    LoadStep(st, text + blank + "\n", rest);
  }

  lemma LoadBlankLine(st: Loader, rest: string)
    requires st.pending == ""
    ensures LoadFrom(st, "\n" + rest) == LoadFrom(st, rest)
  {
    FgetsLine("", rest, ASCIILINESZ);
    assert "" + "\n" + rest == "\n" + rest;
    assert ("\n" + rest)[1..] == rest;
  }

  lemma ClassifySection(s: string)
    requires SectionOk(s)
    ensures Classify("[" + s + "]") == Section(Str(s))
  {
    var line := "[" + s + "]";
    StripBlank(line, "");
    assert line[1..] == s + "]";
    SpanStops(s, "]", "]");
  }

  lemma LoadSection(st: Loader, s: string, rest: string)
    requires st.pending == "" && SectionOk(s)
    ensures LoadFrom(st, "[" + s + "]\n" + rest)
            == LoadFrom(Loader(st.entries[s := Null], s, 0, ""), rest)
  {
    var line := "[" + s + "]";
    assert line + "" + "\n" + rest == "[" + s + "]\n" + rest;
    ClassifySection(s);
    StripBlank(s, "");
    LowercaseStays(s);
    LoadLine(st, line, "", rest);
  }

  lemma PaddedName(name: string)
    requires NameOk(name)
    ensures Lowered(Strip(Pad(name) + " ")) == name
    ensures Avoids(Pad(name) + " ", "=") && '\n' !in Pad(name) && Pad(name)[0] == name[0]
  {
    var blank := (Pad(name) + " ")[|name|..];
    assert Blank(blank) && Pad(name) + " " == name + blank;
    StripBlank(name, blank);
    LowercaseStays(name);
  }

  lemma KeyAndEqualsSplits(name: string, rest: string)
    requires NameOk(name)
    ensures KeyAndEquals(Pad(name) + " =" + rest) == Match(Pad(name) + " ", StripLeft(rest))
    ensures Span(Pad(name) + " =" + rest, "=") == |Pad(name)| + 1
  {
    var key := Pad(name) + " ";
    var line := Pad(name) + " =" + rest;
    PaddedName(name);
    SpanStops(key, "=", "=" + rest);
    assert key + ("=" + rest) == line;
    assert line[..|key|] == key && line[|key| + 1..] == rest;
  }

  lemma ClassifyPlain(line: string, key: string, v: string)
    requires line != "" && line[0] !in "#;" && !(line[0] == '[' && line[|line| - 1] == ']')
    requires KeyAndEquals(line) == Match(key, v)
    requires v != "" && v[0] !in "\"'" && Avoids(v, ";#")
    ensures ClassifyStripped(line) == ValueLine(Match(key, v))
  {
    SpanStops(v, ";#", "");
    assert v + "" == v;
    assert v[..|v|] == v;
  }

  lemma KeyOfValueLine(name: string, v: string)
    requires NameOk(name) && Tight(v)
    ensures KeyAndEquals(Pad(name) + " = " + v) == Match(Pad(name) + " ", v)
  {
    KeyAndEqualsSplits(name, " " + v);
    assert Pad(name) + " = " + v == Pad(name) + " =" + (" " + v);
    assert (" " + v)[1..] == v;
  }

  lemma ValueLineStays(name: string, v: string)
    requires NameOk(name) && Tight(v)
    ensures var line := Pad(name) + " = " + v;
            line != "" && line[0] == name[0] && line[|line| - 1] == v[|v| - 1] && Strip(line) == line
  {
    var line := Pad(name) + " = " + v;
    PaddedName(name);
    assert line[0] == name[0] && line[|line| - 1] == v[|v| - 1];
    StripBlank(line, "");
  }

  lemma ClassifyValue(name: string, v: string)
    requires EntryOk(name, Str(v))
    ensures Classify(Pad(name) + " = " + v) == Value(name, v)
  {
    var line := Pad(name) + " = " + v;
    PaddedName(name);
    KeyOfValueLine(name, v);
    ValueLineStays(name, v);
    StripBlank(v, "");
    ClassifyPlain(line, Pad(name) + " ", v);
  }

  lemma ClassifyBare(line: string, key: string)
    requires key != "" && line == key + "=" && line[0] !in "#;"
    requires Span(line, "=") == |key| && KeyAndEquals(line) == Match(key, "")
    ensures ClassifyStripped(line) == Value(Lowered(Strip(key)), "")
  {
    assert line[|key|..] == "=";
    assert "="[1..] == "";
    assert line[..|key|] == key;
    assert line[|line| - 1] == '=';
  }

  lemma ClassifyNoValue(name: string)
    requires EntryOk(name, Null)
    ensures Classify(Pad(name) + " =") == Value(name, "")
  {
    var key := Pad(name) + " ";
    var line := Pad(name) + " =";
    PaddedName(name);
    assert line == key + "=" && line == line + "";
    assert line[0] == name[0] && line[|line| - 1] == '=';
    StripBlank(line, "");
    KeyAndEqualsSplits(name, "");
    ClassifyBare(line, key);
  }

  /** The line of a name without a value, and of one with a value, taken apart. */
  lemma LineWithout(name: string, rest: string)
    ensures EntryLine(name, Null) + rest == Pad(name) + " =" + " " + "\n" + rest
  {
    assert EntryLine(name, Null) == Pad(name) + " =" + " " + "\n";
  }

  lemma LineWith(name: string, v: string, rest: string)
    ensures EntryLine(name, Str(v)) + rest == Pad(name) + " = " + v + "" + "\n" + rest
  {
    assert Pad(name) + " = " + v + "" == Pad(name) + " = " + v;
  }

  lemma LoadNoValue(st: Loader, name: string, rest: string)
    requires st.pending == "" && EntryOk(name, Null)
    ensures LoadFrom(st, EntryLine(name, Null) + rest)
            == LoadFrom(Loader(st.entries[st.section + ":" + name := Null], st.section, 0, ""), rest)
  {
    PaddedName(name);
    LineWithout(name, rest);
    ClassifyNoValue(name);
    LoadLine(st, Pad(name) + " =", " ", rest);
  }

  lemma LoadValue(st: Loader, name: string, v: string, rest: string)
    requires st.pending == "" && EntryOk(name, Str(v))
    ensures LoadFrom(st, EntryLine(name, Str(v)) + rest)
            == LoadFrom(Loader(st.entries[st.section + ":" + name := Str(v)], st.section, 0, ""), rest)
  {
    PaddedName(name);
    LineWith(name, v, rest);
    ClassifyValue(name, v);
    LoadLine(st, Pad(name) + " = " + v, "", rest);
  }

  lemma LoadEntry(st: Loader, name: string, v: CString, rest: string)
    requires st.pending == "" && EntryOk(name, v)
    ensures LoadFrom(st, EntryLine(name, v) + rest)
            == LoadFrom(Loader(st.entries[st.section + ":" + name := v], st.section, 0, ""), rest)
  {
    if v.Null? {
      LoadNoValue(st, name, rest);
    } else {
      LoadValue(st, name, v.s, rest);
    }
  }

  // ---------- the whole text ----------

  /** The entries after reading a section's lines. */
  function AddEntries(e: map<string, CString>, section: string, keys: seq<CString>,
                      vals: seq<CString>): map<string, CString>
    requires |keys| == |vals|
  {
    if keys == [] then e
    else
      var n := |keys| - 1;
      var e' := AddEntries(e, section, keys[..n], vals[..n]);
      if Belongs(keys[n], section) then e'[keys[n].s := vals[n]] else e'
  }

  /** Every line that a section prints can be read. */
  predicate Readable(section: string, keys: seq<CString>, vals: seq<CString>)
    requires |keys| == |vals|
  {
    forall i | 0 <= i < |keys| && Belongs(keys[i], section) :: EntryOk(keys[i].s[|section| + 1..], vals[i])
  }

  /** Reading `text` takes the loader from one state to another, whatever follows. */
  ghost predicate Reads(st: Loader, text: string, st': Loader) {
    HasRoom(st) && HasRoom(st') && forall rest :: LoadFrom(st, text + rest) == LoadFrom(st', rest)
  }

  lemma ReadsNothing(st: Loader)
    requires HasRoom(st)
    ensures Reads(st, "", st)
  {
    forall rest ensures LoadFrom(st, "" + rest) == LoadFrom(st, rest) {
      assert "" + rest == rest;
    }
  }

  lemma ReadsBoth(a: Loader, first: string, b: Loader, second: string, c: Loader)
    requires Reads(a, first, b) && Reads(b, second, c)
    ensures Reads(a, first + second, c)
  {
    forall rest ensures LoadFrom(a, first + second + rest) == LoadFrom(c, rest) {
      assert first + second + rest == first + (second + rest);
    }
  }

  lemma ReadsEntry(e: map<string, CString>, section: string, name: string, v: CString)
    requires EntryOk(name, v)
    ensures Reads(Loader(e, section, 0, ""), EntryLine(name, v), Loader(e[section + ":" + name := v], section, 0, ""))
  {
    forall rest ensures LoadFrom(Loader(e, section, 0, ""), EntryLine(name, v) + rest)
                        == LoadFrom(Loader(e[section + ":" + name := v], section, 0, ""), rest) {
      LoadEntry(Loader(e, section, 0, ""), name, v, rest);
    }
  }

  lemma ReadsHeading(st: Loader, s: string)
    requires st.pending == "" && SectionOk(s)
    ensures Reads(st, "\n[" + s + "]\n", Loader(st.entries[s := Null], s, 0, ""))
  {
    forall rest
      ensures LoadFrom(st, "\n[" + s + "]\n" + rest) == LoadFrom(Loader(st.entries[s := Null], s, 0, ""), rest) {
      LoadBlankLine(st, "[" + s + "]\n" + rest);
      assert "\n" + ("[" + s + "]\n" + rest) == "\n[" + s + "]\n" + rest;
      LoadSection(st, s, rest);
    }
  }

  lemma ReadsKey(e: map<string, CString>, section: string, key: CString, v: CString)
    requires Belongs(key, section) && EntryOk(key.s[|section| + 1..], v)
    ensures Reads(Loader(e, section, 0, ""), EntryLine(key.s[|section| + 1..], v),
                  Loader(e[key.s := v], section, 0, ""))
  {
    var name := key.s[|section| + 1..];
    assert section + ":" + name == key.s;
    ReadsEntry(e, section, name, v);
  }

  lemma {:induction false} ReadsEntries(e: map<string, CString>, section: string, keys: seq<CString>,
                                        vals: seq<CString>)
    requires |keys| == |vals| && Readable(section, keys, vals)
    ensures Reads(Loader(e, section, 0, ""), DumpEntries(section, keys, vals),
                  Loader(AddEntries(e, section, keys, vals), section, 0, ""))
  {
    var st := Loader(e, section, 0, "");
    if keys == [] {
      ReadsNothing(st);
    } else {
      var n := |keys| - 1;
      var e' := AddEntries(e, section, keys[..n], vals[..n]);
      ReadsEntries(e, section, keys[..n], vals[..n]);
      if Belongs(keys[n], section) {
        ReadsKey(e', section, keys[n], vals[n]);
        ReadsBoth(st, DumpEntries(section, keys[..n], vals[..n]), Loader(e', section, 0, ""),
                  EntryLine(keys[n].s[|section| + 1..], vals[n]), Loader(e'[keys[n].s := vals[n]], section, 0, ""));
      } else {
        assert DumpEntries(section, keys[..n], vals[..n]) + "" == DumpEntries(section, keys[..n], vals[..n]);
      }
    }
  }

  /** The reader's state after the text of some sections. */
  function AfterSections(sections: seq<string>, keys: seq<CString>, vals: seq<CString>): (st: Loader)
    requires |keys| == |vals|
    ensures st.pending == "" && st.errs == 0
  {
    if sections == [] then Fresh
    else
      var s := sections[|sections| - 1];
      var e := AfterSections(sections[..|sections| - 1], keys, vals).entries[s := Null];
      Loader(AddEntries(e, s, keys, vals), s, 0, "")
  }

  predicate AllReadable(sections: seq<string>, keys: seq<CString>, vals: seq<CString>)
    requires |keys| == |vals|
  {
    forall i | 0 <= i < |sections| :: SectionOk(sections[i]) && Readable(sections[i], keys, vals)
  }

  lemma ReadsSection(st: Loader, s: string, keys: seq<CString>, vals: seq<CString>)
    requires st.pending == "" && |keys| == |vals| && SectionOk(s) && Readable(s, keys, vals)
    ensures Reads(st, SectionText(s, keys, vals), Loader(AddEntries(st.entries[s := Null], s, keys, vals), s, 0, ""))
  {
    var e := st.entries[s := Null];
    ReadsHeading(st, s);
    ReadsEntries(e, s, keys, vals);
    ReadsBoth(st, "\n[" + s + "]\n", Loader(e, s, 0, ""), DumpEntries(s, keys, vals),
              Loader(AddEntries(e, s, keys, vals), s, 0, ""));
  }

  lemma {:induction false} ReadsSections(sections: seq<string>, keys: seq<CString>, vals: seq<CString>)
    requires |keys| == |vals| && AllReadable(sections, keys, vals)
    ensures Reads(Fresh, DumpSections(sections, keys, vals), AfterSections(sections, keys, vals))
  {
    if sections == [] {
      ReadsNothing(Fresh);
    } else {
      var n := |sections| - 1;
      ReadsSections(sections[..n], keys, vals);
      ReadsSection(AfterSections(sections[..n], keys, vals), sections[n], keys, vals);
      ReadsBoth(Fresh, DumpSections(sections[..n], keys, vals), AfterSections(sections[..n], keys, vals),
                SectionText(sections[n], keys, vals), AfterSections(sections, keys, vals));
    }
  }

  // ---------- the entries read are the entries stored ----------

  predicate Within(e: map<string, CString>, m: map<string, CString>) {
    forall k | k in e :: k in m && e[k] == m[k]
  }

  /** The slots hold the map's entries. */
  predicate Stores(keys: seq<CString>, vals: seq<CString>, m: map<string, CString>)
    requires |keys| == |vals|
  {
    forall i | 0 <= i < |keys| && keys[i].Str? :: keys[i].s in m && vals[i] == m[keys[i].s]
  }

  lemma {:induction false} AddEntriesAdds(e: map<string, CString>, section: string, keys: seq<CString>,
                                          vals: seq<CString>, m: map<string, CString>)
    requires |keys| == |vals| && Stores(keys, vals, m) && Within(e, m)
    ensures Within(AddEntries(e, section, keys, vals), m)
    ensures forall k | k in e :: k in AddEntries(e, section, keys, vals)
    ensures forall i | 0 <= i < |keys| && Belongs(keys[i], section) :: keys[i].s in AddEntries(e, section, keys, vals)
  {
    if keys != [] {
      AddEntriesAdds(e, section, keys[..|keys| - 1], vals[..|keys| - 1], m);
    }
  }

  lemma {:induction false} SectionsAdd(sections: seq<string>, keys: seq<CString>, vals: seq<CString>,
                                       m: map<string, CString>)
    requires |keys| == |vals| && Stores(keys, vals, m)
    requires forall s | s in sections :: s in m && m[s].Null?
    ensures Within(AfterSections(sections, keys, vals).entries, m)
    ensures forall s | s in sections :: s in AfterSections(sections, keys, vals).entries
    ensures forall s, i | s in sections && 0 <= i < |keys| && Belongs(keys[i], s) ::
              keys[i].s in AfterSections(sections, keys, vals).entries
  {
    if sections != [] {
      var n := |sections| - 1;
      SectionsAdd(sections[..n], keys, vals, m);
      var e := AfterSections(sections[..n], keys, vals).entries[sections[n] := Null];
      AddEntriesAdds(e, sections[n], keys, vals, m);
    }
  }

  lemma {:induction false} SectionsAre(keys: seq<CString>)
    ensures forall s :: s in Sections(keys) <==> ':' !in s && Str(s) in keys
  {
    if keys != [] {
      SectionsAre(keys[..|keys| - 1]);
      assert keys == keys[..|keys| - 1] + [keys[|keys| - 1]];
    }
  }

  lemma BelongsToItsSection(key: string, s: string)
    requires ':' !in s
    ensures s + ":" <= key <==> ':' in key && s == SectionOf(key)
  {
    SpanSplits(key, ':');
    if s + ":" <= key {
      assert key == s + (":" + key[|s| + 1..]);
      SpanStops(s, ":", ":" + key[|s| + 1..]);
    }
  }

  // ---------- the theorem ----------

  lemma PrintableIsReadable(keys: seq<CString>, vals: seq<CString>, m: map<string, CString>)
    requires |keys| == |vals| && Stores(keys, vals, m) && Printable(m)
    ensures AllReadable(Sections(keys), keys, vals)
  {
    forall j | 0 <= j < |Sections(keys)|
      ensures SectionOk(Sections(keys)[j]) && Readable(Sections(keys)[j], keys, vals)
    {
      SectionsAre(keys);
      assert Sections(keys)[j] in Sections(keys);
      SectionIsReadable(keys, vals, m, Sections(keys)[j]);
    }
  }

  lemma SectionIsReadable(keys: seq<CString>, vals: seq<CString>, m: map<string, CString>, s: string)
    requires |keys| == |vals| && Stores(keys, vals, m) && Printable(m)
    requires ':' !in s && Str(s) in keys
    ensures SectionOk(s) && Readable(s, keys, vals)
  {
    assert s in m;
    forall i | 0 <= i < |keys| && Belongs(keys[i], s)
      ensures EntryOk(keys[i].s[|s| + 1..], vals[i])
    {
      BelongsToItsSection(keys[i].s, s);
      assert keys[i].s in m;
    }
  }

  /** Every key of the map comes back. */
  lemma NothingMissing(keys: seq<CString>, vals: seq<CString>, m: map<string, CString>, k: string)
    requires |keys| == |vals| && Stores(keys, vals, m) && Printable(m)
    requires forall key | key in m :: Str(key) in keys
    requires k in m
    ensures k in AfterSections(Sections(keys), keys, vals).entries
  {
    SectionsAre(keys);
    SectionsAdd(Sections(keys), keys, vals, m);
    if ':' in k {
      var s := SectionOf(k);
      SpanSplits(k, ':');
      BelongsToItsSection(k, s);
      assert s in Sections(keys);
      var i :| 0 <= i < |keys| && keys[i] == Str(k);
      assert Belongs(keys[i], s);
    }
  }

  lemma {:induction false} NoKeysNoText(keys: seq<CString>, vals: seq<CString>)
    requires |keys| == |vals| && forall i | 0 <= i < |keys| :: keys[i].Null?
    ensures DumpPlain(keys, vals) == ""
  {
    if keys != [] {
      NoKeysNoText(keys[..|keys| - 1], vals[..|keys| - 1]);
    }
  }

  lemma NoSectionsNoKeys(keys: seq<CString>, vals: seq<CString>, m: map<string, CString>)
    requires |keys| == |vals| && Stores(keys, vals, m) && Printable(m) && Sections(keys) == []
    requires forall key | key in m :: Str(key) in keys
    ensures m == map[] && Load(DumpPlain(keys, vals)) == Loaded(map[])
  {
    if k :| k in m {
      NothingMissing(keys, vals, m, k);
      assert false;
    }
    NoKeysNoText(keys, vals);
  }

  lemma LoadDump(sections: seq<string>, keys: seq<CString>, vals: seq<CString>)
    requires |keys| == |vals| && Reads(Fresh, DumpSections(sections, keys, vals), AfterSections(sections, keys, vals))
    ensures Load(DumpSections(sections, keys, vals) + "\n") == Loaded(AfterSections(sections, keys, vals).entries)
  {
    var st := AfterSections(sections, keys, vals);
    assert LoadFrom(Fresh, DumpSections(sections, keys, vals) + "\n") == LoadFrom(st, "\n");
    LoadBlankLine(st, "");
    assert "\n" + "" == "\n";
  }

  /** Loading the dump of a printable dictionary gives the same map, NULL values included,
      whatever slots its entries sit in. */
  lemma LoadInvertsDump(keys: seq<CString>, vals: seq<CString>, m: map<string, CString>)
    requires |keys| == |vals| && Stores(keys, vals, m) && Printable(m)
    requires forall key | key in m :: Str(key) in keys
    ensures Load(Dump(keys, vals)) == Loaded(m)
  {
    var sections := Sections(keys);
    if sections == [] {
      NoSectionsNoKeys(keys, vals, m);
    } else {
      PrintableIsReadable(keys, vals, m);
      var st := AfterSections(sections, keys, vals);
      ReadsSections(sections, keys, vals);
      LoadDump(sections, keys, vals);
      SectionsAre(keys);
      SectionsAdd(sections, keys, vals, m);
      forall k | k in m ensures k in st.entries {
        NothingMissing(keys, vals, m, k);
      }
      assert st.entries == m;
    }
  }

  /** The two functions of the library, one after the other, on a dictionary object. */
  method DumpAndLoad(d: Dictionary.Dict, hashOf: string -> bv32) returns (text: string, r: Dictionary.Dict?)
    requires d.Valid() && Printable(d.Map)
    ensures r != null && r.Valid() && r.Map == d.Map
  {
    text := IniparserDumpIni(d);
    assert forall key | key in d.Map :: Str(key) in d.key[..];
    LoadInvertsDump(d.key[..], d.val[..], d.Map);
    r := IniparserLoad(text, hashOf);
  }
}
