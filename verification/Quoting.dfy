/** String functions of src/util.c: removing characters, and quoting for the shell. Each
    writes into a buffer of the size the source allocates. */
module Quoting {
  import opened CStrings

  // ---------- specifications ----------

  function RemoveChars(s: string, rem: string): string {
    if s == "" then "" else (if s[0] in rem then "" else [s[0]]) + RemoveChars(s[1..], rem)
  }

  /** quote: double quotes around, and a backslash before every double quote inside. */
  function QuoteBody(s: string): string {
    if s == "" then "" else (if s[0] == '"' then ['\\', '"'] else [s[0]]) + QuoteBody(s[1..])
  }

  function Quote(s: string): string {
    ['"'] + QuoteBody(s) + ['"']
  }

  predicate NeedsBackslash(c: char, first: bool) {
    c == '\'' || c == '"' || c == '\\' || c == '$' || c == '`' || (c == '#' && first)
  }

  /** backslash_quote: a backslash before every quoting or expansion character, and before a
      '#' that comes first. */
  function BackslashBody(s: string, first: bool): string {
    if s == "" then ""
    else (if NeedsBackslash(s[0], first) then ['\\', s[0]] else [s[0]]) + BackslashBody(s[1..], false)
  }

  function BackslashQuote(s: string): string {
    BackslashBody(s, true)
  }

  /** remove_quotes: one double quote less at either end, if there is one. */
  function RemoveQuotes(s: string): string {
    var t := if s != "" && s[0] == '"' then s[1..] else s;
    if |s| >= 2 && s[|s| - 1] == '"' then t[..|t| - 1] else t
  }

  // ---------- inverses ----------

  /** Drops each backslash that stands directly before a double quote. */
  function UnquoteBody(s: string): string {
    if s == "" then ""
    else if |s| >= 2 && s[0] == '\\' && s[1] == '"' then ['"'] + UnquoteBody(s[2..])
    else [s[0]] + UnquoteBody(s[1..])
  }

  function Unquote(s: string): string {
    if |s| < 2 then "" else UnquoteBody(s[1..|s| - 1])
  }

  /** Drops each backslash that escapes the character after it. */
  function Unbackslash(s: string): string {
    if s == "" then ""
    else if |s| >= 2 && s[0] == '\\' then [s[1]] + Unbackslash(s[2..])
    else [s[0]] + Unbackslash(s[1..])
  }

  lemma {:induction false} UnquoteQuoteBody(s: string)
    ensures UnquoteBody(QuoteBody(s)) == s
  {
    if s != "" {
      var rest := QuoteBody(s[1..]);
      UnquoteQuoteBody(s[1..]);
      var q := QuoteBody(s);
      if s[0] == '"' {
        assert q[2..] == rest;
      } else {
        assert q[1..] == rest;
        assert rest != "" ==> rest[0] != '"' by {
          QuoteBodyHead(s[1..]);
        }
      }
    }
  }

  lemma QuoteBodyHead(s: string)
    ensures QuoteBody(s) != "" ==> QuoteBody(s)[0] != '"'
  {
  }

  lemma UnquoteQuote(s: string)
    ensures Unquote(Quote(s)) == s
  {
    UnquoteQuoteBody(s);
    assert Quote(s)[1..|Quote(s)| - 1] == QuoteBody(s);
  }

  lemma {:induction false} UnbackslashBackslash(s: string, first: bool)
    ensures Unbackslash(BackslashBody(s, first)) == s
  {
    if s != "" {
      var rest := BackslashBody(s[1..], false);
      UnbackslashBackslash(s[1..], false);
      if NeedsBackslash(s[0], first) {
        assert BackslashBody(s, first)[2..] == rest;
      } else {
        assert BackslashBody(s, first)[1..] == rest;
      }
    }
  }

  /** The two quoting stages of the trap parser, one after the other. */
  function QuoteTwice(s: string): string {
    Quote(BackslashQuote(s))
  }

  /** Quoting loses nothing: it has a left inverse. */
  lemma QuotingIsInvertible(s: string)
    ensures Unbackslash(Unquote(QuoteTwice(s))) == s
  {
    UnquoteQuote(BackslashQuote(s));
    UnbackslashBackslash(s, true);
  }

  lemma QuotingIsInjective(s: string, t: string)
    requires QuoteTwice(s) == QuoteTwice(t)
    ensures s == t
  {
    QuotingIsInvertible(s);
    QuotingIsInvertible(t);
  }

  /** In the quoted text every double quote between the outer two follows a backslash. */
  lemma {:induction false} InnerQuotesEscaped(s: string, k: nat)
    requires k < |QuoteBody(s)| && QuoteBody(s)[k] == '"'
    ensures 0 < k && QuoteBody(s)[k - 1] == '\\'
  {
    var n := if s[0] == '"' then 2 else 1;
    if k >= n {
      assert QuoteBody(s)[n..] == QuoteBody(s[1..]);
      InnerQuotesEscaped(s[1..], k - n);
    }
  }

  // ---------- which characters are escaped ----------

  /** Every character of a set follows a backslash. */
  predicate Escaped(t: string, chars: string) {
    forall k | 0 <= k < |t| && t[k] in chars :: 0 < k && t[k - 1] == '\\'
  }

  lemma EscapedCons(a: string, t: string, chars: string)
    requires Escaped(a, chars) && Escaped(t, chars)
    ensures Escaped(a + t, chars)
  {
  }

  /** backslash_quote escapes every quote, dollar and backtick, */
  lemma {:induction false} BackslashEscapes(s: string, first: bool)
    ensures Escaped(BackslashBody(s, first), "'\"$`")
  {
    if s != "" {
      BackslashEscapes(s[1..], false);
      var head := if NeedsBackslash(s[0], first) then ['\\', s[0]] else [s[0]];
      EscapedCons(head, BackslashBody(s[1..], false), "'\"$`");
    }
  }

  /** and quote keeps it so. */
  lemma {:induction false} QuoteBodyEscapes(s: string, chars: string)
    requires Escaped(s, chars) && '\\' !in chars
    ensures Escaped(QuoteBody(s), chars + "\"")
  {
    if s != "" {
      var n := |s| - 1;
      QuoteBodyEscapes(s[..n], chars);
      QuoteBodyEnds(s[..n]);
      assert s[..n + 1] == s;
      QuoteStep(s, n);
      if s[n] == '"' {
        EscapedSnoc(QuoteBody(s[..n]), '\\', chars + "\"");
        EscapedSnoc(QuoteBody(s[..n]) + ['\\'], '"', chars + "\"");
        assert QuoteBody(s[..n]) + ['\\'] + ['"'] == QuoteBody(s);
      } else {
        EscapedSnoc(QuoteBody(s[..n]), s[n], chars + "\"");
      }
    }
  }

  lemma EscapedSnoc(t: string, c: char, chars: string)
    requires Escaped(t, chars) && (c in chars ==> t != "" && t[|t| - 1] == '\\')
    ensures Escaped(t + [c], chars)
  {
  }

  /** Both texts end in the same character. */
  lemma QuoteBodyEnds(s: string)
    ensures s != "" ==> QuoteBody(s) != "" && QuoteBody(s)[|QuoteBody(s)| - 1] == s[|s| - 1]
  {
    if s != "" {
      QuoteStep(s, |s| - 1);
      assert s[..|s| - 1 + 1] == s;
    }
  }

  /** The shell's special characters in a text. */
  predicate Special(c: char) {
    c in "'\"\\$`"
  }

  function Specials(s: string): nat {
    if s == "" then 0 else (if Special(s[0]) then 1 else 0) + Specials(s[1..])
  }

  /** backslash_quote adds one byte for every quote, backslash, dollar and backtick, and one for
      a '#' at the front. */
  lemma {:induction false} BackslashAdds(s: string, first: bool)
    ensures |BackslashBody(s, first)| == |s| + Specials(s) + if first && s != "" && s[0] == '#' then 1 else 0
  {
    if s != "" {
      BackslashAdds(s[1..], false);
    }
  }

  lemma {:induction false} NoSpecials(s: string)
    ensures Specials(s) == 0 <==> forall k | 0 <= k < |s| :: !Special(s[k])
  {
    if s != "" {
      NoSpecials(s[1..]);
      if forall k | 0 <= k < |s| :: !Special(s[k]) {
        forall k | 0 <= k < |s[1..]| ensures !Special(s[1..][k]) {
          assert s[1..][k] == s[k + 1];
        }
      } else {
        var k :| 0 <= k < |s| && Special(s[k]);
        assert k > 0 ==> s[1..][k - 1] == s[k];
      }
    }
  }

  lemma {:induction false} PlainStays(s: string)
    requires forall k | 0 <= k < |s| :: !Special(s[k])
    ensures BackslashBody(s, false) == s
  {
    if s != "" {
      PlainStays(s[1..]);
    }
  }

  /** It leaves a text alone exactly if there is none of these. */
  lemma BackslashLeavesExactly(s: string)
    ensures BackslashQuote(s) == s <==>
            !(s != "" && s[0] == '#') && forall k | 0 <= k < |s| :: !Special(s[k])
  {
    BackslashAdds(s, true);
    NoSpecials(s);
    if !(s != "" && s[0] == '#') && forall k | 0 <= k < |s| :: !Special(s[k]) {
      PlainStays(s);
    }
  }

  // ---------- what remove_quotes and remove_chars leave ----------

  predicate NoOuterQuotes(v: string) {
    v == "" || (v[0] != '"' && v[|v| - 1] != '"')
  }

  /** remove_quotes takes one double quote off either end where there is one. */
  lemma RemoveQuotesTakes(v: string)
    ensures RemoveQuotes("\"" + v + "\"") == v
    ensures NoOuterQuotes(v) ==> RemoveQuotes(v) == v && RemoveQuotes("\"" + v) == v && RemoveQuotes(v + "\"") == v
  {
    assert ("\"" + v + "\"")[1..] == v + "\"";
    assert ("\"" + v)[1..] == v;
  }

  lemma {:induction false} RemoveCharsAppend(a: string, b: string, rem: string)
    ensures RemoveChars(a + b, rem) == RemoveChars(a, rem) + RemoveChars(b, rem)
  {
    if a == "" {
      assert a + b == b;
    } else {
      assert (a + b)[1..] == a[1..] + b;
      RemoveCharsAppend(a[1..], b, rem);
    }
  }

  /** remove_chars is determined by what it does to each character: one of the set is dropped
      wherever it is, and a text without them stays. */
  lemma RemoveCharsDrops(pre: string, c: char, post: string, rem: string)
    requires c in rem
    ensures RemoveChars(pre + [c] + post, rem) == RemoveChars(pre + post, rem)
  {
    RemoveCharsAppend(pre + [c], post, rem);
    RemoveCharsAppend(pre, [c], rem);
    RemoveCharsAppend(pre, post, rem);
    assert RemoveChars([c], rem) == "";
  }

  lemma {:induction false} RemoveCharsKeeps(s: string, rem: string)
    requires forall k | 0 <= k < |s| :: s[k] !in rem
    ensures RemoveChars(s, rem) == s
  {
    if s != "" {
      RemoveCharsKeeps(s[1..], rem);
    }
  }

  // ---------- both stages ----------

  /** The quoted value stands in double quotes, gives `v` back when it is unquoted, and between
      the outer quotes every quote, dollar and backtick follows a backslash. */
  predicate QuotesValue(quoted: CString, v: string) {
    && quoted.Str? && |quoted.s| >= 2 && quoted.s[0] == '"' && quoted.s[|quoted.s| - 1] == '"'
    && Unbackslash(Unquote(quoted.s)) == v
    && Escaped(quoted.s[1..|quoted.s| - 1], "'\"$`")
  }

  lemma QuoteTwiceQuotes(v: string)
    ensures QuotesValue(Str(QuoteTwice(v)), v)
  {
    QuotingIsInvertible(v);
    BackslashEscapes(v, true);
    QuoteBodyEscapes(BackslashQuote(v), "'\"$`");
    assert QuoteTwice(v)[1..|QuoteTwice(v)| - 1] == QuoteBody(BackslashQuote(v));
  }

  // ---------- methods ----------

  lemma {:induction false} QuoteStep(s: string, i: nat)
    requires i < |s|
    ensures QuoteBody(s[..i + 1]) == QuoteBody(s[..i]) + (if s[i] == '"' then ['\\', '"'] else [s[i]])
  {
    if i == 0 {
      assert s[..1][1..] == "";
    } else {
      assert s[..i + 1][1..] == s[1..][..i] && s[..i][1..] == s[1..][..i - 1];
      QuoteStep(s[1..], i - 1);
    }
  }

  lemma OpenedStep(s: string, i: nat)
    requires i < |s|
    ensures ['"'] + QuoteBody(s[..i + 1]) ==
            ['"'] + QuoteBody(s[..i]) + (if s[i] == '"' then ['\\', '"'] else [s[i]])
  {
    QuoteStep(s, i);
  }

  /** *t++ = c */
  method Put(result: array<char>, t: nat, c: char)
    requires t < result.Length
    modifies result
    ensures result[..t + 1] == old(result[..t]) + [c]
  {
    result[t] := c;
  }

  /** quote; the buffer has 2n + 3 bytes. */
  method QuoteString(string_: CString) returns (r: string)
    ensures r == Quote(if string_.Null? then "" else string_.s)
    ensures |r| + 1 <= 2 * XStrlen(string_) + 3
  {
    var s := if string_.Null? then "" else string_.s;
    var result := new char[XStrlen(string_) * 2 + 3];
    result[0] := '"';
    var t, i := 1, 0;
    while i < |s|
      invariant i <= |s| && 1 <= t <= 1 + 2 * i
      invariant result[..t] == ['"'] + QuoteBody(s[..i])
    {
      OpenedStep(s, i);
      if s[i] == '"' {
        Put(result, t, '\\');
        t := t + 1;
      }
      Put(result, t, s[i]);
      t := t + 1;
      i := i + 1;
    }
    assert s[..i] == s;
    Put(result, t, '"');
    t := t + 1;
    result[t] := NUL;
    r := result[..t];
  }

  lemma {:induction false} BackslashStep(s: string, first: bool, i: nat)
    requires i < |s|
    ensures BackslashBody(s[..i + 1], first) ==
            BackslashBody(s[..i], first) + (if NeedsBackslash(s[i], first && i == 0) then ['\\', s[i]] else [s[i]])
  {
    if i == 0 {
      assert s[..1][1..] == "";
    } else {
      assert s[..i + 1][1..] == s[1..][..i] && s[..i][1..] == s[1..][..i - 1];
      BackslashStep(s[1..], false, i - 1);
    }
  }

  /** backslash_quote; the buffer has 2n + 1 bytes. */
  method BackslashString(string_: CString) returns (r: CString)
    ensures r == if string_.Null? then Null else Str(BackslashQuote(string_.s))
    ensures r.Str? ==> |r.s| + 1 <= 2 * |string_.s| + 1
  {
    if string_.Null? {
      return Null;
    }
    var s := string_.s;
    var result := new char[2 * |s| + 1];
    var t, i := 0, 0;
    while i < |s|
      invariant i <= |s| && t <= 2 * i
      invariant result[..t] == BackslashQuote(s[..i])
    {
      BackslashStep(s, true, i);
      if NeedsBackslash(s[i], i == 0) {
        Put(result, t, '\\');
        t := t + 1;
      }
      Put(result, t, s[i]);
      t := t + 1;
      i := i + 1;
    }
    result[t] := NUL;
    assert s[..i] == s;
    r := Str(result[..t]);
  }

  /** What the loop of remove_quotes keeps of the first `i` characters. */
  function KeptQuotes(s: string, i: nat): string
    requires i <= |s|
  {
    if i == 0 then ""
    else KeptQuotes(s, i - 1) + if s[i - 1] != '"' || (i - 1 != 0 && i - 1 != |s| - 1) then [s[i - 1]] else ""
  }

  lemma {:induction false} KeptBeforeLast(s: string, i: nat)
    requires 0 < i < |s|
    ensures KeptQuotes(s, i) == if s[0] == '"' then s[1..i] else s[..i]
  {
    if i > 1 {
      KeptBeforeLast(s, i - 1);
      assert s[..i] == s[..i - 1] + [s[i - 1]] && s[1..i] == s[1..i - 1] + [s[i - 1]];
    } else {
      assert KeptQuotes(s, 0) == "";
    }
  }

  /** Dropping the first character, if it is a double quote, leaves the last one. */
  lemma FirstDropped(s: string)
    requires |s| > 1
    ensures var n := |s| - 1; var front := if s[0] == '"' then s[1..n] else s[..n];
            && (if s[0] == '"' then s[1..] else s) == front + [s[n]]
            && (front + [s[n]])[..|front + [s[n]]| - 1] == front
  {
  }

  lemma KeptIsRemoved(s: string)
    ensures KeptQuotes(s, |s|) == RemoveQuotes(s)
  {
    if |s| > 1 {
      KeptBeforeLast(s, |s| - 1);
      FirstDropped(s);
    } else if |s| == 1 {
      assert KeptQuotes(s, 0) == "";
    }
  }

  /** remove_quotes */
  method RemoveQuotesFrom(string_: CString) returns (r: CString)
    ensures r == if string_.Null? then Null else Str(RemoveQuotes(string_.s))
  {
    if string_.Null? {
      return Null;
    }
    var s := string_.s;
    var result := new char[|s| + 1];
    var t, i := 0, 0;
    while i < |s|
      invariant i <= |s| && t <= i
      invariant result[..t] == KeptQuotes(s, i)
    {
      if s[i] != '"' || (i != 0 && i != |s| - 1) {
        Put(result, t, s[i]);
        t := t + 1;
      }
      i := i + 1;
    }
    KeptIsRemoved(s);
    result[t] := NUL;
    r := Str(result[..t]);
  }

  lemma {:induction false} RemoveStep(s: string, rem: string, i: nat)
    requires i < |s|
    ensures RemoveChars(s[..i + 1], rem) == RemoveChars(s[..i], rem) + (if s[i] in rem then "" else [s[i]])
  {
    if i == 0 {
      assert s[..1][1..] == "";
    } else {
      assert s[..i + 1][1..] == s[1..][..i] && s[..i][1..] == s[1..][..i - 1];
      RemoveStep(s[1..], rem, i - 1);
    }
  }

  /** remove_chars; NULL when nothing is left. */
  method RemoveCharsFrom(str: CString, rem: string) returns (r: CString)
    ensures r == if str.Null? then Null else XStrdup(Str(RemoveChars(str.s, rem)))
  {
    if str.Null? {
      return Null;
    }
    var s := str.s;
    var buffer := new char[|s| + 1];
    var i, k := 0, 0;
    while k < |s|
      invariant k <= |s| && i <= k
      invariant buffer[..i] == RemoveChars(s[..k], rem)
    {
      RemoveStep(s, rem, k);
      var found, p := false, 0;
      while p < |rem|
        invariant p <= |rem| && (found <==> s[k] in rem[..p])
      {
        if s[k] == rem[p] {
          found := true;
        }
        p := p + 1;
      }
      if !found {
        Put(buffer, i, s[k]);
        i := i + 1;
      }
      k := k + 1;
    }
    assert s[..k] == s;
    buffer[i] := NUL;
    r := XStrdup(Str(buffer[..i]));
  }

  /** is_integer: only digits; true of the empty string. */
  method IsInteger(str: CString) returns (r: bool)
    ensures r <==> str.Str? && forall k | 0 <= k < |str.s| :: IsDigit(str.s[k])
  {
    if str.Null? {
      return false;
    }
    var i := 0;
    while i < |str.s|
      invariant i <= |str.s| && forall k | 0 <= k < i :: IsDigit(str.s[k])
    {
      if !IsDigit(str.s[i]) {
        return false;
      }
      i := i + 1;
    }
    r := true;
  }
}
