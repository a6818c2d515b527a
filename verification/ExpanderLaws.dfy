/** Laws of macro expansion: a grammar the scanner agrees with, composition of inputs, and
    fusion of passes. */
module ExpanderLaws {
  import opened CStrings
  import opened Expander

  /** Scanner state after reading all of `s`. */
  ghost function After(st: Status, s: string): Status
    decreases |s|
  {
    if s == "" then st else After(Next(st, s[0]), s[1..])
  }

  /** Output produced while reading all of `s`, without the leftover. */
  ghost function Emitted(hook: Hook, st: Status, s: string): string
    decreases |s|
  {
    if s == "" then "" else Emit(hook, st, s[0]) + Emitted(hook, Next(st, s[0]), s[1..])
  }

  lemma {:induction false} ScanAppend(hook: Hook, st: Status, a: string, b: string)
    ensures Scan(hook, st, a + b) == Emitted(hook, st, a) + Scan(hook, After(st, a), b)
    decreases |a|
  {
    if a == "" {
      assert a + b == b;
    } else {
      assert (a + b)[1..] == a[1..] + b;
      ScanAppend(hook, Next(st, a[0]), a[1..], b);
    }
  }

  lemma ScanSplit(hook: Hook, st: Status, a: string)
    ensures Scan(hook, st, a) == Emitted(hook, st, a) + Leftover(After(st, a))
  {
    ScanAppend(hook, st, a, "");
    assert a + "" == a;
  }

  // ---------- composition of inputs ----------

  function Dollars(s: string): nat {
    if s == "" then 0 else (if s[0] == '$' then 1 else 0) + Dollars(s[1..])
  }

  lemma {:induction false} AfterIsParity(st: Status, s: string)
    ensures After(st, s).Normal? <==> (Dollars(s) % 2 == 0 <==> st.Normal?)
    decreases |s|
  {
    if s != "" {
      AfterIsParity(Next(st, s[0]), s[1..]);
    }
  }

  /** Cutting a command where the number of dollars read so far is even, and only there, lets
      the two halves be expanded separately, whatever the hook and the second half. */
  lemma ExpandIsCompositional(a: string)
    ensures Dollars(a) % 2 == 0 <==>
            forall hook: Hook, b: string :: Expand(hook, a + b) == Expand(hook, a) + Expand(hook, b)
  {
    AfterIsParity(Normal, a);
    if Dollars(a) % 2 == 0 {
      forall hook: Hook, b: string
        ensures Expand(hook, a + b) == Expand(hook, a) + Expand(hook, b)
      {
        ScanAppend(hook, Normal, a, b);
        ScanSplit(hook, Normal, a);
      }
    } else {
      OddCutFails(a);
    }
  }

  lemma OddCutFails(a: string)
    requires After(Normal, a).PossibleMacro?
    ensures exists hook: Hook, b: string :: Expand(hook, a + b) != Expand(hook, a) + Expand(hook, b)
  {
    var macro := After(Normal, a).macro + "$";
    var hook: Hook := m => if m == macro then Str(macro + "$") else Null;
    ScanAppend(hook, Normal, a, "$");
    ScanSplit(hook, Normal, a);
    assert Expand(hook, "$") == "$";
    assert Scan(hook, After(Normal, a), "$") == macro + "$";
    assert |Expand(hook, a + "$")| == |Expand(hook, a) + Expand(hook, "$")| + 1;
  }

  // ---------- grammar ----------

  /** A command is plain text and macros, and perhaps a dollar that is never closed. */
  datatype Command =
    | Done
    | Open(tail: string)
    | Text(text: string, rest: Command)
    | Macro(name: string, rest: Command)

  ghost predicate DollarFree(s: string) {
    '$' !in s
  }

  ghost predicate WellFormed(c: Command) {
    match c
    case Done => true
    case Open(t) => DollarFree(t)
    case Text(t, rest) => DollarFree(t) && WellFormed(rest)
    case Macro(n, rest) => DollarFree(n) && WellFormed(rest)
  }

  function MacroText(name: string): string {
    "$" + name + "$"
  }

  function Print(c: Command): string {
    match c
    case Done => ""
    case Open(t) => "$" + t
    case Text(t, rest) => t + Print(rest)
    case Macro(n, rest) => MacroText(n) + Print(rest)
  }

  /** The command's text with every macro put through the hook. */
  function Substitute(hook: Hook, c: Command): string {
    match c
    case Done => ""
    case Open(t) => "$" + t
    case Text(t, rest) => t + Substitute(hook, rest)
    case Macro(n, rest) => Replace(hook, MacroText(n)) + Substitute(hook, rest)
  }

  lemma {:induction false} ReadText(hook: Hook, t: string)
    requires DollarFree(t)
    ensures After(Normal, t) == Normal && Emitted(hook, Normal, t) == t
  {
    if t != "" {
      ReadText(hook, t[1..]);
    }
  }

  lemma {:induction false} ReadName(hook: Hook, m: string, t: string)
    requires DollarFree(t)
    ensures After(PossibleMacro(m), t) == PossibleMacro(m + t)
    ensures Emitted(hook, PossibleMacro(m), t) == ""
    decreases |t|
  {
    if t == "" {
      assert m + t == m;
    } else {
      assert m + [t[0]] + t[1..] == m + t;
      ReadName(hook, m + [t[0]], t[1..]);
    }
  }

  lemma ExpandText(hook: Hook, t: string, rest: string)
    requires DollarFree(t)
    ensures Expand(hook, t + rest) == t + Expand(hook, rest)
  {
    ScanAppend(hook, Normal, t, rest);
    ReadText(hook, t);
  }

  lemma ExpandOpen(hook: Hook, name: string, rest: string)
    requires DollarFree(name)
    ensures Expand(hook, "$" + name + rest) == Scan(hook, PossibleMacro("$" + name), rest)
  {
    assert ("$" + name + rest)[1..] == name + rest;
    ScanAppend(hook, PossibleMacro("$"), name, rest);
    ReadName(hook, "$", name);
  }

  lemma ExpandMacro(hook: Hook, name: string, rest: string)
    requires DollarFree(name)
    ensures Expand(hook, MacroText(name) + rest) == Replace(hook, MacroText(name)) + Expand(hook, rest)
  {
    assert MacroText(name) + rest == "$" + name + ("$" + rest);
    ExpandOpen(hook, name, "$" + rest);
    assert ("$" + rest)[1..] == rest;
  }

  /** The scanner does what the grammar says: known macros are replaced, all other text,
      unknown macros and an unclosed dollar included, is copied verbatim. */
  lemma {:induction false} ExpandSubstitutes(hook: Hook, c: Command)
    requires WellFormed(c)
    ensures Expand(hook, Print(c)) == Substitute(hook, c)
  {
    match c
    case Done =>
    case Open(t) =>
      ExpandOpen(hook, t, "");
      assert "$" + t + "" == "$" + t;
    case Text(t, rest) =>
      ExpandSubstitutes(hook, rest);
      ExpandText(hook, t, Print(rest));
    case Macro(n, rest) =>
      ExpandSubstitutes(hook, rest);
      ExpandMacro(hook, n, Print(rest));
  }

  /** The grammar covers every command. */
  lemma {:induction false} EveryCommandParses(s: string) returns (c: Command)
    ensures WellFormed(c) && Print(c) == s
    decreases |s|
  {
    if DollarFree(s) {
      c := Text(s, Done);
      return;
    }
    var i := FirstDollar(s);
    var rest := s[i + 1..];
    CutAtDollar(s, i);
    if DollarFree(rest) {
      c := Text(s[..i], Open(rest));
      return;
    }
    var j := FirstDollar(rest);
    var c' := EveryCommandParses(rest[j + 1..]);
    c := Text(s[..i], Macro(rest[..j], c'));
    CutAtDollar(rest, j);
    MacroThen(rest[..j], rest[j + 1..]);
  }

  lemma CutAtDollar(s: string, i: nat)
    requires i < |s| && s[i] == '$'
    ensures s == s[..i] + ("$" + s[i + 1..])
  {
  }

  lemma MacroThen(name: string, rest: string)
    ensures "$" + (name + ("$" + rest)) == MacroText(name) + rest
  {
  }

  lemma {:induction false} FirstDollar(s: string) returns (i: nat)
    requires !DollarFree(s)
    ensures i < |s| && s[i] == '$' && DollarFree(s[..i])
  {
    if s[0] == '$' {
      i := 0;
    } else {
      i := FirstDollar(s[1..]);
      assert s[..i + 1] == [s[0]] + s[1..][..i];
      i := i + 1;
    }
  }

  // ---------- fusion of passes ----------

  /** "h1 else h2" */
  function OrElse(h1: Hook, h2: Hook): Hook {
    m => if h1(m).Str? then h1(m) else h2(m)
  }

  /** Replacement texts carry no dollar of their own. */
  ghost predicate ValuesDollarFree(h: Hook) {
    forall name: string | DollarFree(name) && h(MacroText(name)).Str? :: DollarFree(h(MacroText(name)).s)
  }

  /** The command that the first pass leaves behind. */
  function Resolve(h: Hook, c: Command): Command {
    match c
    case Done => Done
    case Open(t) => Open(t)
    case Text(t, rest) => Text(t, Resolve(h, rest))
    case Macro(n, rest) =>
      if h(MacroText(n)).Str? then Text(h(MacroText(n)).s, Resolve(h, rest)) else Macro(n, Resolve(h, rest))
  }

  lemma {:induction false} ResolveIsFirstPass(h1: Hook, h2: Hook, c: Command)
    requires ValuesDollarFree(h1) && WellFormed(c)
    ensures WellFormed(Resolve(h1, c))
    ensures Print(Resolve(h1, c)) == Substitute(h1, c)
    ensures Substitute(h2, Resolve(h1, c)) == Substitute(OrElse(h1, h2), c)
  {
    if c.Text? || c.Macro? {
      ResolveIsFirstPass(h1, h2, c.rest);
    }
  }

  lemma FuseTwoPasses(h1: Hook, h2: Hook, s: string)
    requires ValuesDollarFree(h1)
    ensures Expand(h2, Expand(h1, s)) == Expand(OrElse(h1, h2), s)
  {
    var c := EveryCommandParses(s);
    ResolveIsFirstPass(h1, h2, c);
    ExpandSubstitutes(h1, c);
    ExpandSubstitutes(h2, Resolve(h1, c));
    ExpandSubstitutes(OrElse(h1, h2), c);
  }

  /** Expanding twice with the same dollar-free hook is expanding once. */
  lemma ExpandIsIdempotent(h: Hook, s: string)
    requires ValuesDollarFree(h)
    ensures Expand(h, Expand(h, s)) == Expand(h, s)
  {
    FuseTwoPasses(h, h, s);
    var c := EveryCommandParses(s);
    ExpandSubstitutes(h, c);
    ExpandSubstitutes(OrElse(h, h), c);
    SameHook(h, c);
  }

  lemma {:induction false} SameHook(h: Hook, c: Command)
    ensures Substitute(OrElse(h, h), c) == Substitute(h, c)
  {
    if c.Text? || c.Macro? {
      SameHook(h, c.rest);
    }
  }

  predicate Uses(c: Command, name: string) {
    match c
    case Done => false
    case Open(_) => false
    case Text(_, rest) => Uses(rest, name)
    case Macro(n, rest) => n == name || Uses(rest, name)
  }

  lemma {:induction false} MacroLengthens(h: Hook, c: Command, name: string)
    requires forall m :: h(m) == if m == MacroText(name) then Str(m + "!") else Null
    ensures |Substitute(h, c)| >= |Print(c)|
    ensures Uses(c, name) ==> |Substitute(h, c)| > |Print(c)|
  {
    if c.Text? || c.Macro? {
      MacroLengthens(h, c.rest, name);
    }
  }

  lemma {:induction false} DollarsAppend(a: string, b: string)
    ensures Dollars(a + b) == Dollars(a) + Dollars(b)
    ensures Dollars(a) == 0 <==> DollarFree(a)
  {
    if a == "" {
      assert a + b == b;
    } else {
      assert (a + b)[1..] == a[1..] + b;
      DollarsAppend(a[1..], b);
    }
  }

  /** A command with two dollars or more contains a macro. */
  lemma {:induction false} SomeMacro(c: Command) returns (name: string)
    requires WellFormed(c) && Dollars(Print(c)) >= 2
    ensures Uses(c, name)
  {
    match c
    case Done =>
      name := "";
    case Open(t) =>
      DollarsAppend(t, "");
      name := "";
    case Text(t, rest) =>
      DollarsAppend(t, Print(rest));
      name := SomeMacro(rest);
    case Macro(n, _) =>
      name := n;
  }

  /** When a first-pass value does carry a dollar, some second pass and some command tell the
      two passes and the single pass apart. */
  lemma DollarValueBreaksFusion(h1: Hook, name: string)
    requires DollarFree(name) && h1(MacroText(name)).Str? && !DollarFree(h1(MacroText(name)).s)
    ensures exists h2: Hook, s: string :: Expand(h2, Expand(h1, s)) != Expand(OrElse(h1, h2), s)
  {
    var v := h1(MacroText(name)).s;
    var s := MacroText(name) + MacroText(name);
    ExpandTwice(h1, name);
    DollarsAppend(v, v);
    var c := EveryCommandParses(v + v);
    var inner := SomeMacro(c);
    var h2: Hook := m => if m == MacroText(inner) then Str(m + "!") else Null;
    MacroLengthens(h2, c, inner);
    ExpandSubstitutes(h2, c);
    ExpandTwice(OrElse(h1, h2), name);
    assert |Expand(h2, Expand(h1, s))| > |Expand(OrElse(h1, h2), s)|;
  }

  lemma ExpandTwice(h: Hook, name: string)
    requires DollarFree(name) && h(MacroText(name)).Str?
    ensures Expand(h, MacroText(name) + MacroText(name)) == h(MacroText(name)).s + h(MacroText(name)).s
  {
    ExpandMacro(h, name, MacroText(name));
    ExpandMacro(h, name, "");
    assert MacroText(name) + "" == MacroText(name);
  }

  /** Two passes are one exactly when the first pass introduces no dollars. */
  lemma FusionExactly(h1: Hook)
    ensures ValuesDollarFree(h1) <==>
            forall h2: Hook, s: string :: Expand(h2, Expand(h1, s)) == Expand(OrElse(h1, h2), s)
  {
    if ValuesDollarFree(h1) {
      forall h2: Hook, s: string
        ensures Expand(h2, Expand(h1, s)) == Expand(OrElse(h1, h2), s)
      {
        FuseTwoPasses(h1, h2, s);
      }
    } else {
      var name :| DollarFree(name) && h1(MacroText(name)).Str? && !DollarFree(h1(MacroText(name)).s);
      DollarValueBreaksFusion(h1, name);
    }
  }
}
