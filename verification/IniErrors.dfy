/** When loading an ini file fails, and what becomes of a dictionary without sections. */
module IniErrors {
  import opened Collections
  import opened CStrings
  import opened IniParser
  import opened IniRoundTrip

  // ---------- logical lines ----------

  /** What is in the line buffer after one fgets: too long, nothing to look at, the beginning of
      a logical line, or the end of one. */
  datatype Piece = Bad | Skip | Part(text: string) | Whole(text: string)

  function PieceOf(line: string): Piece
    requires line != ""
  {
    var trimmed := StripRight(line);
    if |line| == 1 then Skip
    else if line[|line| - 1] != '\n' then Bad
    else if trimmed != "" && trimmed[|trimmed| - 1] == '\\' then Part(trimmed[..|trimmed| - 1])
    else Whole(trimmed)
  }

  lemma PartIsShort(line: string)
    requires line != "" && PieceOf(line).Part?
    ensures |PieceOf(line).text| + 2 <= |line|
  {
    assert |StripRight(line)| < |line|;
  }

  /** The lines that iniparser_line sees, continuations joined and trailing spaces cut off; none
      if a line does not fit the buffer or the last one is not ended, unless that is a single
      character, which is skipped. */
  function LogicalLines(pending: string, input: string): Option<seq<string>>
    requires |pending| <= ASCIILINESZ - 3
    decreases |input|
  {
    if input == "" then Some([])
    else
      var n := Fgets(input, ASCIILINESZ - |pending|);
      var piece := PieceOf(pending + input[..n]);
      if piece.Part? then PartIsShort(pending + input[..n]); LogicalLines(piece.text, input[n..])
      else if piece.Whole? then Prepend(piece.text, LogicalLines("", input[n..]))
      else if piece.Skip? then LogicalLines(pending, input[n..])
      else None
  }

  /** The logical lines of a piece and the rest of the input behind it. */
  function LinesFrom(pending: string, piece: Piece, rest: string): Option<seq<string>>
    requires |pending| <= ASCIILINESZ - 3
    requires piece.Part? ==> |piece.text| <= ASCIILINESZ - 3
  {
    match piece
    case Bad => None
    case Skip => LogicalLines(pending, rest)
    case Part(text) => LogicalLines(text, rest)
    case Whole(text) => Prepend(text, LogicalLines("", rest))
  }

  lemma LinesStep(pending: string, input: string)
    requires |pending| <= ASCIILINESZ - 3 && input != ""
    ensures var n := Fgets(input, ASCIILINESZ - |pending|);
            var piece := PieceOf(pending + input[..n]);
            && (piece.Part? ==> |piece.text| <= ASCIILINESZ - 3)
            && LogicalLines(pending, input) == LinesFrom(pending, piece, input[n..])
  {
    var n := Fgets(input, ASCIILINESZ - |pending|);
    if PieceOf(pending + input[..n]).Part? {
      PartIsShort(pending + input[..n]);
    }
  }

  function Prepend(line: string, rest: Option<seq<string>>): Option<seq<string>> {
    if rest.None? then None else Some([line] + rest.value)
  }

  /** The loader's variables after some logical lines. */
  function Fold(st: Loader, lines: seq<string>): Loader
    decreases |lines|
  {
    if lines == [] then st else Fold(Process(st, Classify(lines[0])), lines[1..])
  }

  /** What is pending does not matter to the lines that follow. */
  lemma FoldForgets(st: Loader, pending: string, lines: seq<string>)
    ensures Fold(st.(pending := pending), lines).errs == Fold(st, lines).errs
    ensures Fold(st.(pending := pending), lines).entries == Fold(st, lines).entries
  {
    if lines != [] {
      assert Process(st.(pending := pending), Classify(lines[0])) == Process(st, Classify(lines[0]));
    }
  }

  function Verdict(st: Loader, lines: Option<seq<string>>): Loaded {
    match lines
    case None => Failed
    case Some(ls) => if Fold(st, ls).errs != 0 then Failed else Loaded(Fold(st, ls).entries)
  }

  /** What a piece makes of the loader's variables. */
  function AfterPiece(st: Loader, piece: Piece): Effect {
    match piece
    case Bad => TooLong
    case Skip => Continue(st)
    case Part(text) => Continue(st.(pending := text))
    case Whole(text) => Continue(Process(st, Classify(text)))
  }

  lemma DigestOfPiece(st: Loader, line: string)
    requires line != "" && |line| < ASCIILINESZ && HasRoom(st)
    ensures Digest(st, line) == AfterPiece(st, PieceOf(line))
  {
  }

  lemma VerdictForgets(st: Loader, pending: string, lines: Option<seq<string>>)
    ensures Verdict(st.(pending := pending), lines) == Verdict(st, lines)
  {
    if lines.Some? {
      FoldForgets(st, pending, lines.value);
    }
  }

  lemma VerdictOfLine(st: Loader, line: string, rest: Option<seq<string>>)
    ensures Verdict(st, Prepend(line, rest)) == Verdict(Process(st, Classify(line)), rest)
  {
    if rest.Some? {
      assert ([line] + rest.value)[1..] == rest.value;
    }
  }

  /** One turn of the loader, as the logical lines have it. */
  lemma VerdictOfPiece(st: Loader, piece: Piece, rest: string)
    requires !piece.Bad? && HasRoom(st) && (piece.Part? ==> |piece.text| <= ASCIILINESZ - 3)
    ensures HasRoom(AfterPiece(st, piece).next)
    ensures Verdict(AfterPiece(st, piece).next, LogicalLines(AfterPiece(st, piece).next.pending, rest))
            == Verdict(st, LinesFrom(st.pending, piece, rest))
  {
    match piece
    case Skip =>
    case Part(text) => VerdictForgets(st, text, LogicalLines(text, rest));
    case Whole(text) => VerdictOfLine(st, text, LogicalLines("", rest));
  }

  /** Loading processes the logical lines one after the other. */
  lemma {:induction false} LoadIsFold(st: Loader, input: string)
    requires HasRoom(st)
    ensures LoadFrom(st, input) == Verdict(st, LogicalLines(st.pending, input))
    decreases |input|
  {
    if input != "" {
      var n := Fgets(input, ASCIILINESZ - |st.pending|);
      var piece := PieceOf(st.pending + input[..n]);
      LoadStepFrom(st, input);
      LinesStep(st.pending, input);
      DigestOfPiece(st, st.pending + input[..n]);
      if !piece.Bad? {
        VerdictOfPiece(st, piece, input[n..]);
        LoadIsFold(AfterPiece(st, piece).next, input[n..]);
      }
    }
  }

  // ---------- the error count ----------

  predicate IsError(line: string) {
    Classify(line).Error?
  }

  /** A section or a value resets the error count. */
  predicate Resets(line: string) {
    Classify(line).Section? || Classify(line).Value?
  }

  /** The last line that is an error, a section or a value is an error. */
  predicate EndsInError(lines: seq<string>) {
    exists i :: 0 <= i < |lines| && IsError(lines[i]) && forall j | i < j < |lines| :: !Resets(lines[j])
  }

  lemma {:induction false} ErrorsAfter(st: Loader, lines: seq<string>)
    requires 0 <= st.errs
    ensures Fold(st, lines).errs != 0 <==>
            EndsInError(lines) || (st.errs != 0 && forall j | 0 <= j < |lines| :: !Resets(lines[j]))
    decreases |lines|
  {
    if lines != [] {
      var rest := lines[1..];
      ErrorsAfter(Process(st, Classify(lines[0])), rest);
      assert forall j | 0 <= j < |rest| :: rest[j] == lines[j + 1];
      if i :| 0 <= i < |lines| && IsError(lines[i]) && forall j | i < j < |lines| :: !Resets(lines[j]) {
        if i > 0 {
          assert IsError(rest[i - 1]);
        }
      }
      if i :| 0 <= i < |rest| && IsError(rest[i]) && forall j | i < j < |rest| :: !Resets(rest[j]) {
        assert IsError(lines[i + 1]) && forall j | i + 1 < j < |lines| :: !Resets(lines[j]) by {
          assert forall j | i + 1 < j < |lines| :: lines[j] == rest[j - 1];
        }
      }
    }
  }

  /** Loading fails exactly if a line is too long or not ended, or if, leaving out empty lines and
      comments, the last one is an error: later good lines make up for any earlier error. */
  lemma LoadFailsExactly(input: string)
    ensures Load(input).Failed? <==>
            var lines := LogicalLines("", input);
            lines.None? || EndsInError(lines.value)
  {
    LoadIsFold(Fresh, input);
    var lines := LogicalLines("", input);
    if lines.Some? {
      ErrorsAfter(Fresh, lines.value);
    }
  }

  // ---------- a dictionary without sections ----------

  lemma StripSpace(v: string)
    requires Tight(v)
    ensures StripLeft(" " + v) == v
  {
    assert (" " + v)[1..] == v;
  }

  /** The name and the value of a line without padding. */
  lemma PlainKey(line: string, key: string, v: string)
    requires NameOk(key) && Tight(v) && line == key + " = " + v
    ensures KeyAndEquals(line) == Match(key + " ", v)
  {
    var name := key + " ";
    assert Avoids(name, "=");
    assert line == name + ("= " + v);
    SpanStops(name, "=", "= " + v);
    assert line[..|name|] == name && line[|name| + 1..] == " " + v;
    StripSpace(v);
  }

  lemma PlainStays(line: string, key: string, v: string)
    requires NameOk(key) && Tight(v) && line == key + " = " + v
    ensures line != "" && line[0] == key[0] && line[|line| - 1] == v[|v| - 1] && Strip(line) == line
  {
    assert line[0] == key[0] && line[|line| - 1] == v[|v| - 1];
    StripBlank(line, "");
  }

  lemma PlainName(key: string)
    requires NameOk(key)
    ensures Lowered(Strip(key + " ")) == key
  {
    StripBlank(key, " ");
    LowercaseStays(key);
  }

  lemma ClassifyPlainLine(line: string, key: string, v: string)
    requires NameOk(key) && ValueOk(Str(v)) && !(key[0] == '[' && v[|v| - 1] == ']') && line == key + " = " + v
    ensures Classify(line) == Value(key, v)
  {
    PlainKey(line, key, v);
    PlainStays(line, key, v);
    PlainName(key);
    StripBlank(v, "");
    ClassifyPlain(line, key + " ", v);
  }

  lemma DumpOfOne(line: string, key: string, v: string)
    requires ':' in key && line == key + " = " + v
    ensures Dump([Str(key)], [Str(v)]) == line + "\n"
  {
    var keys, vals := [Str(key)], [Str(v)];
    assert keys[..0] == [] && vals[..0] == [];
    assert Sections(keys[..0]) == [] && DumpPlain(keys[..0], vals[..0]) == "";
    assert Sections(keys) == [];
    assert "" + (key + " = " + v + "\n") == line + "\n";
  }

  lemma LoadOneLine(line: string, key: string, v: string)
    requires LineOk(line, "") && v != "" && Classify(line) == Value(key, v)
    ensures Load(line + "\n") == Loaded(map[":" + key := Str(v)])
  {
    IniRoundTrip.LoadLine(Fresh, line, "", "");
    assert line + "" + "\n" + "" == line + "\n";
    assert "" + ":" + key == ":" + key;
  }

  lemma PlainLineFits(key: string, v: string)
    requires |EntryLine(key, Str(v))| < ASCIILINESZ
    ensures |key| + 3 + |v| + 1 < ASCIILINESZ
  {
  }

  lemma NoNewline(key: string, v: string)
    requires '\n' !in key && '\n' !in v
    ensures '\n' !in key + " = " + v
  {
  }

  lemma PlainLineOk(line: string, key: string, v: string)
    requires EntryOk(key, Str(v)) && line == key + " = " + v
    ensures LineOk(line, "")
  {
    PlainStays(line, key, v);
    PlainLineFits(key, v);
    NoNewline(key, v);
  }

  /** A key with a colon that is in no section, such as ":key", is printed as it is and comes
      back with one more colon. */
  lemma ColonIsAdded(key: string, v: string)
    requires EntryOk(key, Str(v)) && ':' in key
    ensures Load(Dump([Str(key)], [Str(v)])) == Loaded(map[":" + key := Str(v)])
  {
    var line := key + " = " + v;
    DumpOfOne(line, key, v);
    ClassifyPlainLine(line, key, v);
    PlainLineOk(line, key, v);
    LoadOneLine(line, key, v);
  }

  lemma ColonKeyIsPrintable()
    ensures EntryOk(":key", Str("v")) && ':' in ":key"
  {
    var line := EntryLine(":key", Str("v"));
    assert |line| == 30 + 3 + 1 + 1;
  }

  /** One such input. */
  lemma ColonKey()
    ensures Load(Dump([Str(":key")], [Str("v")])) == Loaded(map["::key" := Str("v")])
  {
    ColonKeyIsPrintable();
    ColonIsAdded(":key", "v");
    assert ":" + ":key" == "::key";
  }

  lemma LinesReadInTurn(first: string, second: string)
    requires LineOk(first, "") && LineOk(second, "")
    ensures var st := Process(Fresh, Classify(first));
            && LoadFrom(Fresh, first + "\n") == LoadFrom(st, "")
            && LoadFrom(Fresh, first + "\n" + (second + "\n")) == LoadFrom(Process(st, Classify(second)), "")
  {
    var st := Process(Fresh, Classify(first));
    IniRoundTrip.LoadLine(Fresh, first, "", "");
    IniRoundTrip.LoadLine(Fresh, first, "", second + "\n");
    IniRoundTrip.LoadLine(st, second, "", "");
    assert first + "" + "\n" + "" == first + "\n" && first + "" == first;
    assert second + "" + "\n" + "" == second + "\n";
  }

  lemma NoEqualsNoMatch(line: string)
    requires '=' !in line
    ensures Span(line, "=") == |line|
  {
    SpanStops(line, "=", "");
    assert line + "" == line;
  }

  /** A line without an equals sign is an error unless it is a comment or a section. */
  lemma NoEqualsIsError(line: string)
    requires Tight(line) && '=' !in line && line[0] !in "#;["
    ensures Classify(line) == Error
  {
    StripBlank(line, "");
    NoEqualsNoMatch(line);
    assert StripLeft(line[|line|..]) == "" && Only("", "=") == 0;
  }

  /** A line that fails on its own is forgiven when a value follows. */
  lemma ValueHidesError(bad: string, good: string, key: string, v: string)
    requires LineOk(bad, "") && LineOk(good, "") && v != ""
    requires Classify(bad) == Error && Classify(good) == Value(key, v)
    ensures Load(bad + "\n") == Failed
    ensures Load(bad + "\n" + (good + "\n")) == Loaded(map[":" + key := Str(v)])
  {
    LinesReadInTurn(bad, good);
    assert "" + ":" + key == ":" + key;
  }

  lemma BadIsError()
    ensures LineOk("bad", "") && Classify("bad") == Error
  {
    NoEqualsIsError("bad");
  }

  lemma GoodIsValue(good: string)
    requires good == "a" + " = " + "b"
    ensures LineOk(good, "") && Classify(good) == Value("a", "b")
  {
    ClassifyPlainLine(good, "a", "b");
  }

  lemma GoodLineHidesError(good: string)
    requires good == "a" + " = " + "b"
    ensures Load("bad" + "\n") == Failed
    ensures Load("bad" + "\n" + (good + "\n")) == Loaded(map[":" + "a" := Str("b")])
  {
    BadIsError();
    GoodIsValue(good);
    ValueHidesError("bad", good, "a", "b");
  }
}
