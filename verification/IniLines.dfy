/** What single lines of an ini file do to the loader (src/iniparser.c:469-527, 577-637): comments,
    continuations, long lines, quoted and commented values. */
module IniLines {
  import opened CStrings
  import opened IniParser
  import opened IniRoundTrip

  // ---------- first and last visible characters ----------

  predicate FirstVisible(s: string, i: nat) {
    i < |s| && !IsSpace(s[i]) && Blank(s[..i])
  }

  predicate LastVisible(s: string, i: nat) {
    i < |s| && !IsSpace(s[i]) && Blank(s[i + 1..])
  }

  lemma {:induction false} StripLeftBlank(b: string, s: string)
    requires Blank(b) && (s == "" || !IsSpace(s[0]))
    ensures StripLeft(b + s) == s
    decreases |b|
  {
    if b == "" {
      assert b + s == s;
    } else {
      assert (b + s)[1..] == b[1..] + s;
      StripLeftBlank(b[1..], s);
    }
  }

  lemma StripLeftFirst(s: string, i: nat)
    requires FirstVisible(s, i)
    ensures StripLeft(s) == s[i..]
  {
    StripLeftBlank(s[..i], s[i..]);
    assert s[..i] + s[i..] == s;
  }

  lemma StripRightLast(s: string, i: nat)
    requires LastVisible(s, i)
    ensures StripRight(s) == s[..i + 1]
  {
    StripRightBlank(s[..i + 1], s[i + 1..]);
    assert s[..i + 1] + s[i + 1..] == s;
  }

  lemma {:induction false} StripRightNothing(s: string)
    requires Blank(s)
    ensures StripRight(s) == ""
  {
    if s != "" {
      StripRightNothing(s[..|s| - 1]);
    }
  }

  lemma {:induction false} BlankOrLast(s: string) returns (i: nat)
    ensures !Blank(s) ==> LastVisible(s, i)
  {
    i := 0;
    if !Blank(s) {
      var n := |s| - 1;
      if !IsSpace(s[n]) {
        i := n;
      } else {
        i := BlankOrLast(s[..n]);
        assert s[i + 1..] == s[..n][i + 1..] + [s[n]];
      }
    }
  }

  /** With what fgets leaves at the end of a line. */
  lemma LastBeforeNewline(p: string, s: string, i: nat)
    requires LastVisible(s, i)
    ensures LastVisible(p + s + "\n", |p| + i)
    ensures (p + s + "\n")[..|p| + i + 1] == p + s[..i + 1]
  {
    var t := p + s + "\n";
    assert t[|p| + i + 1..] == s[i + 1..] + "\n";
    assert t[|p| + i] == s[i];
  }

  // ---------- one line, whatever is pending ----------

  lemma {:induction false} FgetsStops(line: string, rest: string, size: nat)
    requires '\n' !in line && size >= 2 && |line| + 1 >= size
    ensures Fgets(line + "\n" + rest, size) == size - 1
    decreases size
  {
    var input := line + "\n" + rest;
    assert input[0] == line[0];
    if size > 2 {
      assert input[1..] == line[1..] + "\n" + rest;
      FgetsStops(line[1..], rest, size - 1);
    }
  }

  /** A line that fits the buffer behind what is pending is digested. */
  lemma LineFits(st: Loader, line: string, rest: string)
    requires HasRoom(st) && '\n' !in line && |st.pending| + |line| < 1023
    ensures var full := st.pending + line + "\n";
            && Digest(st, full).Continue? && HasRoom(Digest(st, full).next)
            && LoadFrom(st, line + "\n" + rest) == LoadFrom(Digest(st, full).next, rest)
  {
    FgetsLine(line, rest, ASCIILINESZ - |st.pending|);
    CutLine(st.pending, line, rest);
    DigestContinues(st, st.pending + line + "\n");
    FullStep(st, line + "\n" + rest, |line| + 1, st.pending + line + "\n", rest);
  }

  lemma DigestContinues(st: Loader, full: string)
    requires HasRoom(st) && 1 <= |full| < ASCIILINESZ && full[|full| - 1] == '\n'
    ensures Digest(st, full).Continue? && HasRoom(Digest(st, full).next)
  {
    EffectHasRoom(st, full);
  }

  lemma FullStep(st: Loader, input: string, n: nat, full: string, rest: string)
    requires HasRoom(st) && input != "" && n == Fgets(input, ASCIILINESZ - |st.pending|)
    requires full == st.pending + input[..n] && rest == input[n..]
    requires Digest(st, full).Continue? && HasRoom(Digest(st, full).next)
    ensures LoadFrom(st, input) == LoadFrom(Digest(st, full).next, rest)
  {
    LoadStepFrom(st, input);
  }

  lemma CutLine(p: string, line: string, rest: string)
    ensures p + (line + "\n" + rest)[..|line| + 1] == p + line + "\n"
    ensures (line + "\n" + rest)[|line| + 1..] == rest
  {
    assert (line + "\n" + rest)[..|line| + 1] == line + "\n";
  }

  /** One that does not makes loading fail: the buffer holds 1023 characters. */
  lemma LongLineFails(st: Loader, line: string, rest: string)
    requires HasRoom(st) && '\n' !in line && |st.pending| + |line| >= 1023
    ensures LoadFrom(st, line + "\n" + rest) == Failed
  {
    var n: nat := 1023 - |st.pending|;
    FgetsStops(line, rest, ASCIILINESZ - |st.pending|);
    var full := st.pending + (line + "\n" + rest)[..n];
    assert (line + "\n" + rest)[..n] == line[..n];
    assert full[|full| - 1] == line[n - 1] && line[n - 1] in line;
    LoadStepFrom(st, line + "\n" + rest);
  }

  // ---------- comments and blank lines ----------

  /** The first visible character makes it a comment. */
  ghost predicate IsComment(line: string) {
    exists i: nat :: FirstVisible(line, i) && (line[i] == '#' || line[i] == ';')
  }

  /** The last visible character joins the next line to it. */
  ghost predicate Continues(line: string) {
    exists i: nat :: LastVisible(line, i) && line[i] == '\\'
  }

  lemma BlankBehind(s: string, l: nat, k: nat)
    requires l < k < |s| && Blank(s[l + 1..])
    ensures IsSpace(s[k])
  {
    assert s[l + 1..][k - l - 1] == s[k];
  }

  lemma FirstStays(s: string, i: nat, n: nat)
    requires FirstVisible(s, i) && i < n <= |s|
    ensures FirstVisible(s[..n], i)
  {
    assert s[..n][..i] == s[..i];
  }

  lemma CommentIsClassified(line: string, i: nat)
    requires FirstVisible(line, i) && (line[i] == '#' || line[i] == ';') && !IsSpace(line[|line| - 1])
    ensures Classify(line) == Comment
  {
    StripLeftFirst(line, i);
    assert line[i..][|line[i..]| - 1] == line[|line| - 1];
  }

  lemma TrimmedLine(line: string, l: nat)
    requires LastVisible(line, l)
    ensures StripRight("" + line + "\n") == line[..l + 1]
  {
    LastBeforeNewline("", line, l);
    StripRightLast("" + line + "\n", l);
    assert "" + line[..l + 1] == line[..l + 1];
  }

  lemma TrimmedComment(line: string, i: nat, l: nat)
    requires FirstVisible(line, i) && (line[i] == '#' || line[i] == ';') && LastVisible(line, l)
    ensures Classify(line[..l + 1]) == Comment
  {
    if l < i {
      BlankBehind(line, l, i);
    }
    FirstStays(line, i, l + 1);
    CommentIsClassified(line[..l + 1], i);
  }

  lemma DigestComment(st: Loader, line: string)
    requires st.pending == "" && IsComment(line) && !Continues(line) && |line| + 1 < ASCIILINESZ
    ensures Digest(st, "" + line + "\n") == Continue(st)
  {
    var i: nat :| FirstVisible(line, i) && (line[i] == '#' || line[i] == ';');
    var l := BlankOrLast(line);
    TrimmedLine(line, l);
    TrimmedComment(line, i, l);
    assert ("" + line + "\n")[|line|] == '\n';
  }

  lemma DigestBlank(st: Loader, line: string)
    requires st.pending == "" && Blank(line) && |line| + 1 < ASCIILINESZ
    ensures Digest(st, "" + line + "\n") == Continue(st)
  {
    if line != "" {
      StripRightNothing("" + line + "\n");
    }
  }

  /** A comment does nothing, and neither does a line of spaces. */
  lemma CommentIsSkipped(st: Loader, line: string, rest: string)
    requires st.pending == "" && '\n' !in line && |line| + 1 < ASCIILINESZ
    requires (IsComment(line) && !Continues(line)) || Blank(line)
    ensures LoadFrom(st, line + "\n" + rest) == LoadFrom(st, rest)
  {
    if Blank(line) {
      DigestBlank(st, line);
    } else {
      DigestComment(st, line);
    }
    LineFits(st, line, rest);
  }

  // ---------- a file without its comments ----------

  function FileOf(lines: seq<string>): string {
    if lines == [] then "" else lines[0] + "\n" + FileOf(lines[1..])
  }

  /** Whether what follows the line may be joined to something before it. */
  ghost predicate StaysOpen(line: string, open: bool) {
    if Blank(line) then open else Continues(line)
  }

  ghost predicate Ignorable(line: string) {
    ((IsComment(line) && !Continues(line)) || Blank(line)) && |line| + 1 < ASCIILINESZ
  }

  /** The lines without comments and blank lines, except where a line before them goes on. */
  ghost function Kept(lines: seq<string>, open: bool): seq<string> {
    if lines == [] then []
    else if !open && Ignorable(lines[0]) then Kept(lines[1..], false)
    else [lines[0]] + Kept(lines[1..], StaysOpen(lines[0], open))
  }

  lemma ProcessedIsClosed(st: Loader, line: Line)
    ensures Process(st, line).pending == ""
  {
  }

  lemma ClosedAfter(st: Loader, line: string, open: bool)
    requires HasRoom(st) && (!open ==> st.pending == "") && |st.pending| + |line| + 1 < ASCIILINESZ
    requires !StaysOpen(line, open)
    ensures Digest(st, st.pending + line + "\n").Continue?
    ensures Digest(st, st.pending + line + "\n").next.pending == ""
  {
    if Blank(line) {
      DigestBlank(st, line);
    } else {
      var i := BlankOrLast(line);
      LastBeforeNewline(st.pending, line, i);
      StripRightLast(st.pending + line + "\n", |st.pending| + i);
      ProcessedIsClosed(st, Classify(st.pending + line[..i + 1]));
    }
  }

  /** A file is read as if its comments and blank lines were not there. */
  lemma {:induction false} CommentsAreIgnored(st: Loader, lines: seq<string>, open: bool)
    requires HasRoom(st) && (!open ==> st.pending == "") && forall k | 0 <= k < |lines| :: '\n' !in lines[k]
    ensures LoadFrom(st, FileOf(lines)) == LoadFrom(st, FileOf(Kept(lines, open)))
    decreases |lines|
  {
    if lines != [] {
      var line, rest := lines[0], lines[1..];
      if !open && Ignorable(line) {
        CommentIsSkipped(st, line, FileOf(rest));
        CommentsAreIgnored(st, rest, false);
      } else {
        LineIsKept(st, lines, open);
      }
    }
  }

  lemma {:induction false} LineIsKept(st: Loader, lines: seq<string>, open: bool)
    requires HasRoom(st) && (!open ==> st.pending == "") && forall k | 0 <= k < |lines| :: '\n' !in lines[k]
    requires lines != [] && !(!open && Ignorable(lines[0]))
    ensures LoadFrom(st, FileOf(lines)) == LoadFrom(st, FileOf(Kept(lines, open)))
    decreases |lines|, 0
  {
    var line, rest, open' := lines[0], lines[1..], StaysOpen(lines[0], open);
    KeptFirst(line, Kept(rest, open'));
    if |st.pending| + |line| + 1 < ASCIILINESZ {
      LineFits(st, line, FileOf(rest));
      LineFits(st, line, FileOf(Kept(rest, open')));
      if !open' {
        ClosedAfter(st, line, open);
      }
      CommentsAreIgnored(Digest(st, st.pending + line + "\n").next, rest, open');
    } else {
      LongLineFails(st, line, FileOf(rest));
      LongLineFails(st, line, FileOf(Kept(rest, open')));
    }
  }

  lemma FileWithoutComments(lines: seq<string>)
    requires forall k | 0 <= k < |lines| :: '\n' !in lines[k]
    ensures Load(FileOf(lines)) == Load(FileOf(Kept(lines, false)))
  {
    CommentsAreIgnored(Fresh, lines, false);
  }

  /** Where no line goes on, none of them is left. */
  lemma {:induction false} KeptHasNone(lines: seq<string>)
    requires forall k | 0 <= k < |lines| :: !Continues(lines[k])
    ensures forall k | 0 <= k < |Kept(lines, false)| :: !Ignorable(Kept(lines, false)[k])
    decreases |lines|
  {
    if lines != [] {
      KeptHasNone(lines[1..]);
    }
  }

  lemma KeptFirst(line: string, rest: seq<string>)
    ensures FileOf([line] + rest) == line + "\n" + FileOf(rest)
  {
    assert ([line] + rest)[1..] == rest;
  }

  // ---------- continuations ----------

  /** A backslash joins the next line, as if there were no line end. */
  lemma ContinuationJoins(st: Loader, a: string, blank: string, b: string, rest: string)
    requires st.pending == "" && '\n' !in a && '\n' !in b && '\n' !in blank && Blank(blank)
    requires |a| + |blank| + 2 < ASCIILINESZ && |a| + |b| + 1 < ASCIILINESZ && |a| <= ASCIILINESZ - 3
    ensures LoadFrom(st, a + "\\" + blank + "\n" + (b + "\n" + rest)) == LoadFrom(st, a + b + "\n" + rest)
  {
    var st' := st.(pending := a);
    ContinuationWaits(st, a, blank);
    LineFits(st, a + "\\" + blank, b + "\n" + rest);
    LineFits(st', b, rest);
    LineFits(st, a + b, rest);
    assert "" + (a + b) + "\n" == a + b + "\n";
    PendingIsReplaced(st, a, a + b + "\n");
  }

  lemma ContinuationWaits(st: Loader, a: string, blank: string)
    requires st.pending == "" && Blank(blank) && |a| + |blank| + 2 < ASCIILINESZ && |a| <= ASCIILINESZ - 3
    ensures Digest(st, "" + (a + "\\" + blank) + "\n") == Continue(st.(pending := a))
  {
    var line := a + "\\" + blank;
    assert line[|a| + 1..] == blank && line[|a|] == '\\';
    LastBeforeNewline("", line, |a|);
    StripRightLast("" + line + "\n", |a|);
    assert line[..|a| + 1] == a + "\\" && (a + "\\")[..|a|] == a;
    assert "" + line[..|a| + 1] == a + "\\";
  }

  lemma PendingIsReplaced(st: Loader, a: string, full: string)
    requires st.pending == "" && HasRoom(st.(pending := a)) && 1 <= |full| < ASCIILINESZ
    requires |full| == 1 ==> a == ""
    ensures Digest(st.(pending := a), full) == Digest(st, full)
  {
    if a == "" {
      assert st.(pending := a) == st;
    }
  }

  // ---------- names are in lower case ----------

  lemma LoweredIsLowercase(s: string)
    ensures Lowercase(Lowered(s))
  {
  }

  predicate LowercaseKeys(m: map<string, CString>) {
    forall key | key in m :: Lowercase(key)
  }

  lemma ProcessKeepsLowercase(st: Loader, line: string)
    requires Lowercase(st.section) && LowercaseKeys(st.entries)
    ensures var st' := Process(st, Classify(line)); Lowercase(st'.section) && LowercaseKeys(st'.entries)
  {
    var c := Classify(line);
    if c.Value? {
      KeyIsLowercase(line);
    } else if c.Section? {
      LoweredIsLowercase(Strip(if c.name.Str? then c.name.s else st.section));
    }
  }

  lemma KeyIsLowercase(line: string)
    requires Classify(line).Value?
    ensures Lowercase(Classify(line).key)
  {
    var s := Strip(line);
    if ScanQuoted(s, '"').Match? {
      LoweredIsLowercase(Strip(ScanQuoted(s, '"').key));
    } else if ScanQuoted(s, '\'').Match? {
      LoweredIsLowercase(Strip(ScanQuoted(s, '\'').key));
    } else if ScanPlain(s).Match? {
      LoweredIsLowercase(Strip(ScanPlain(s).key));
    } else {
      LoweredIsLowercase(Strip(ScanEmpty(s).key));
    }
  }

  /** Whatever is loaded, no key has an upper-case letter: sections and names are found in lower
      case however they are written. */
  lemma {:induction false} LoadedKeysAreLowercase(st: Loader, input: string)
    requires HasRoom(st) && Lowercase(st.section) && LowercaseKeys(st.entries)
    ensures LoadFrom(st, input).Loaded? ==> LowercaseKeys(LoadFrom(st, input).entries)
    decreases |input|
  {
    if input != "" {
      var n := Fgets(input, ASCIILINESZ - |st.pending|);
      var full := st.pending + input[..n];
      LoadStepFrom(st, input);
      EffectHasRoom(st, full);
      if Digest(st, full).Continue? {
        ProcessKeepsLowercase(st, StripRight(full));
        LoadedKeysAreLowercase(Digest(st, full).next, input[n..]);
      }
    }
  }

  lemma KeysAreLowercase(input: string)
    ensures Load(input).Loaded? ==> LowercaseKeys(Load(input).entries)
  {
    LoadedKeysAreLowercase(Fresh, input);
  }
}
