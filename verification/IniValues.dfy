/** How values may be written in an ini file (src/iniparser.c:486-527). */
module IniValues {
  import opened CStrings
  import opened IniParser
  import opened IniRoundTrip
  import opened IniLines

  /** A name in letters of either case. */
  predicate KeyOk(name: string) {
    Tight(name) && '=' !in name && name[0] !in "#;"
  }

  /** "name = rest", with any spaces around the equals sign, and not a section heading. */
  predicate Assigns(line: string, name: string, b1: string, b2: string, rest: string) {
    && line == name + b1 + "=" + b2 + rest && KeyOk(name) && Blank(b1) && Blank(b2) && Tight(rest)
    && !(name[0] == '[' && rest[|rest| - 1] == ']')
  }

  lemma KeyIsCut(line: string, name: string, b1: string, b2: string, rest: string)
    requires Assigns(line, name, b1, b2, rest)
    ensures KeyAndEquals(line) == Match(name + b1, rest)
  {
    var key := name + b1;
    assert line == key + ("=" + b2 + rest);
    SpanStops(key, "=", "=" + b2 + rest);
    assert line[..|key|] == key && line[|key| + 1..] == b2 + rest;
    StripLeftBlank(b2, rest);
  }

  lemma LineIsTight(line: string, name: string, b1: string, b2: string, rest: string)
    requires Assigns(line, name, b1, b2, rest)
    ensures line != "" && line[0] == name[0] && line[|line| - 1] == rest[|rest| - 1] && Strip(line) == line
  {
    assert line[0] == name[0] && line[|line| - 1] == rest[|rest| - 1];
    StripBlank(line, "");
  }

  lemma KeyIsLowered(name: string, b1: string)
    requires KeyOk(name) && Blank(b1)
    ensures Lowered(Strip(name + b1)) == Lowered(name)
  {
    StripBlank(name, b1);
  }

  /** A value in quotes of either kind, whatever follows it; */
  lemma QuotedIsRead(line: string, name: string, b1: string, b2: string, q: char, v: string, after: string)
    requires Assigns(line, name, b1, b2, [q] + v + [q] + after) && (q == '"' || q == '\'')
    requires Tight(v) && q !in v && v != "\"\"" && v != "''"
    ensures Classify(line) == Value(Lowered(name), v)
  {
    var value := [q] + v + [q] + after;
    KeyIsCut(line, name, b1, b2, value);
    LineIsTight(line, name, b1, b2, value);
    KeyIsLowered(name, b1);
    QuoteIsCut(q, v, after);
    QuotedIsScanned(line, name + b1, q, v, value);
    StripBlank(v, "");
  }

  lemma QuotedIsScanned(line: string, key: string, q: char, v: string, value: string)
    requires KeyAndEquals(line) == Match(key, value) && value != "" && value[0] == q && (q == '"' || q == '\'')
    requires Span(value[1..], [q]) == |v| && v != "" && value[1..][..|v|] == v
    ensures ScanQuoted(line, q) == Match(key, v) && (q == '\'' ==> ScanQuoted(line, '"') == NoMatch)
  {
  }

  lemma QuoteIsCut(q: char, v: string, after: string)
    requires q !in v
    ensures var value := [q] + v + [q] + after;
            && value[0] == q && Span(value[1..], [q]) == |v| && value[1..][..|v|] == v
  {
    var value := [q] + v + [q] + after;
    assert value[1..] == v + ([q] + after);
    SpanStops(v, [q], [q] + after);
  }

  /** What may follow a value that is not in quotes. */
  predicate CommentBehind(behind: string) {
    behind == "" || behind[0] == ';' || behind[0] == '#'
  }

  /** a value up to a comment, or to the end of the line; */
  lemma PlainIsRead(line: string, name: string, b1: string, b2: string, v: string, b3: string, behind: string)
    requires Assigns(line, name, b1, b2, v + b3 + behind) && CommentBehind(behind) && Blank(b3)
    requires Tight(v) && Avoids(v, ";#") && v[0] != '"' && v[0] != '\''
    ensures Classify(line) == Value(Lowered(name), v)
  {
    KeyIsCut(line, name, b1, b2, v + b3 + behind);
    LineIsTight(line, name, b1, b2, v + b3 + behind);
    KeyIsLowered(name, b1);
    ValueIsCut(v, b3, behind);
    StripBlank(v, b3);
  }

  lemma ValueIsCut(v: string, b3: string, behind: string)
    requires CommentBehind(behind) && Blank(b3) && v != "" && Avoids(v, ";#")
    ensures var value := v + b3 + behind;
            value[0] == v[0] && Span(value, ";#") == |v + b3| && value[..|v + b3|] == v + b3
  {
    SpanStops(v + b3, ";#", behind);
    assert (v + b3 + behind)[..|v + b3|] == v + b3;
  }

  /** no value before a comment; */
  lemma NoValueIsRead(line: string, name: string, b1: string, b2: string, comment: string)
    requires Assigns(line, name, b1, b2, comment) && (comment[0] == ';' || comment[0] == '#')
    ensures Classify(line) == Value(Lowered(name), "")
  {
    KeyIsCut(line, name, b1, b2, comment);
    LineIsTight(line, name, b1, b2, comment);
    KeyIsLowered(name, b1);
    assert Span(comment, ";#") == 0 && Only(comment, ";#") > 0;
  }

  /** and an empty value in quotes. */
  lemma EmptyQuotesAreRead(line: string, name: string, b1: string, b2: string, q: char)
    requires Assigns(line, name, b1, b2, [q, q]) && (q == '"' || q == '\'')
    ensures Classify(line) == Value(Lowered(name), "")
  {
    KeyIsCut(line, name, b1, b2, [q, q]);
    LineIsTight(line, name, b1, b2, [q, q]);
    KeyIsLowered(name, b1);
    EmptyQuotes(q);
  }

  lemma EmptyQuotes(q: char)
    requires q == '"' || q == '\''
    ensures Span([q, q][1..], [q]) == 0 && Span([q, q], ";#") == 2 && [q, q][..2] == [q, q]
    ensures Strip([q, q]) == [q, q] && [q, q] == (if q == '"' then "\"\"" else "''")
  {
    SpanStops([q, q], ";#", "");
    assert [q, q] + "" == [q, q];
    StripBlank([q, q], "");
  }

  /** The value is stored under the section and the name in lower case, and errors before it are
      forgotten; the empty value is stored as NULL. */
  lemma ValueIsStored(st: Loader, line: string, blank: string, name: string, v: string, rest: string)
    requires st.pending == "" && LineOk(line, blank) && Classify(line) == Value(name, v)
    ensures LoadFrom(st, line + blank + "\n" + rest) ==
            LoadFrom(Loader(st.entries[st.section + ":" + name := if v == "" then Null else Str(v)], st.section, 0, ""),
                     rest)
  {
    IniRoundTrip.LoadLine(st, line, blank, rest);
  }

  // ---------- headings ----------

  /** A heading with spaces inside the brackets and a name in either case begins a section. */
  lemma HeadingIsRead(st: Loader, b1: string, name: string, b2: string, rest: string)
    requires st.pending == "" && Tight(name) && Blank(b1) && Blank(b2) && ']' !in name
    requires '\n' !in b1 && '\n' !in name && '\n' !in b2 && |b1| + |name| + |b2| + 3 < ASCIILINESZ
    ensures LoadFrom(st, "[" + (b1 + name + b2) + "]" + "\n" + rest) ==
            LoadFrom(Loader(st.entries[Lowered(name) := Null], Lowered(name), 0, ""), rest)
  {
    var s := b1 + name + b2;
    HeadingIsClassified(s);
    NameIsStripped(b1, name, b2);
    HeadingOk(s);
    var line := "[" + s + "]";
    assert line + "" + "\n" + rest == line + "\n" + rest;
    IniRoundTrip.LoadLine(st, line, "", rest);
  }

  lemma NameIsStripped(b1: string, name: string, b2: string)
    requires Tight(name) && Blank(b1) && Blank(b2)
    ensures Strip(b1 + name + b2) == name
  {
    StripLeftBlank(b1, name + b2);
    assert b1 + (name + b2) == b1 + name + b2;
    StripRightBlank(name, b2);
  }

  lemma HeadingOk(s: string)
    requires '\n' !in s && |s| + 3 < ASCIILINESZ
    ensures LineOk("[" + s + "]", "")
  {
  }

  lemma HeadingIsClassified(s: string)
    requires ']' !in s
    ensures Classify("[" + s + "]") == Section(if s == "" then Null else Str(s))
  {
    var line := "[" + s + "]";
    StripBlank(line, "");
    assert line[1..] == s + "]";
    SpanStops(s, "]", "]");
    assert (s + "]")[..|s|] == s;
  }

  /** An empty heading begins the section over that is being read. */
  lemma EmptyHeadingKeepsSection(st: Loader, rest: string)
    requires st.pending == "" && Tight(st.section) && Lowercase(st.section)
    ensures LoadFrom(st, "[]" + "\n" + rest) ==
            LoadFrom(Loader(st.entries[st.section := Null], st.section, 0, ""), rest)
  {
    HeadingIsClassified("");
    assert "[" + "" + "]" == "[]";
    StripBlank(st.section, "");
    LowercaseStays(st.section);
    assert "[]" + "" + "\n" + rest == "[]" + "\n" + rest;
    IniRoundTrip.LoadLine(st, "[]", "", rest);
  }
}
