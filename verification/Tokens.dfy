/** strtok_r: cutting a string into its maximal runs of non-separator characters. */
module Tokens {
  import opened CStrings

  /** A token: not empty and without separators. */
  ghost predicate IsWord(w: string, sep: char) {
    w != "" && sep !in w
  }

  function Split(s: string, sep: char): seq<string>
    decreases |s|
  {
    if s == "" then []
    else if s[0] == sep then Split(s[1..], sep)
    else [s[..Span(s, [sep])]] + Split(s[Span(s, [sep])..], sep)
  }

  /** Words with one separator between neighbours. */
  function Join(ws: seq<string>, sep: char): string {
    if ws == [] then ""
    else if |ws| == 1 then ws[0]
    else Join(ws[..|ws| - 1], sep) + [sep] + ws[|ws| - 1]
  }

  lemma {:induction false} JoinCons(w: string, ws: seq<string>, sep: char)
    requires ws != []
    ensures Join([w] + ws, sep) == w + [sep] + Join(ws, sep)
  {
    var n := |ws| - 1;
    assert ([w] + ws)[..n + 1] == [w] + ws[..n];
    if n > 0 {
      JoinCons(w, ws[..n], sep);
    }
  }

  /** One strtok_r call: the next token at or after `from`, and where to go on. */
  method StrTok(s: string, sep: char, from: nat) returns (token: CString, next: nat)
    requires from <= |s|
    ensures from <= next <= |s|
    ensures token.Null? ==> Split(s[from..], sep) == []
    ensures token.Str? ==> from < next && Split(s[from..], sep) == [token.s] + Split(s[next..], sep)
  {
    var start := from;
    while start < |s| && s[start] == sep
      invariant from <= start <= |s|
      invariant Split(s[start..], sep) == Split(s[from..], sep)
    {
      assert s[start..][1..] == s[start + 1..];
      start := start + 1;
    }
    if start == |s| {
      return Null, start;
    }
    next := StrCSpn(s, start, [sep]);
    token := Str(s[start..next]);
  }

  lemma SplitWord(w: string, sep: char, rest: string)
    requires IsWord(w, sep) && (rest == "" || rest[0] == sep)
    ensures Split(w + rest, sep) == [w] + Split(rest, sep)
  {
    SpanStops(w, [sep], rest);
    assert (w + rest)[..|w|] == w && (w + rest)[|w|..] == rest;
  }

  /** Splitting at any separator splits the work. */
  lemma {:induction false} SplitAppend(a: string, sep: char, b: string)
    ensures Split(a + [sep] + b, sep) == Split(a, sep) + Split(b, sep)
    decreases |a|
  {
    var s := a + [sep] + b;
    if a == "" {
      assert s[1..] == b;
    } else if a[0] == sep {
      assert s[1..] == a[1..] + [sep] + b;
      SplitAppend(a[1..], sep, b);
    } else {
      var n := Span(a, [sep]);
      var w, rest := a[..n], a[n..];
      assert a == w + rest;
      SplitAppend(rest, sep, b);
      SplitAfterWord(w, sep, rest, b);
    }
  }

  lemma SplitAfterWord(w: string, sep: char, rest: string, b: string)
    requires IsWord(w, sep) && (rest == "" || rest[0] == sep)
    requires Split(rest + [sep] + b, sep) == Split(rest, sep) + Split(b, sep)
    ensures Split(w + rest + [sep] + b, sep) == Split(w + rest, sep) + Split(b, sep)
  {
    Regroup(w, rest, [sep], b);
    WordFirst(w, sep, rest, rest + [sep] + b, Split(b, sep));
  }

  lemma Regroup(a: string, b: string, c: string, d: string)
    ensures a + b + c + d == a + (b + c + d)
  {
  }

  lemma WordFirst(w: string, sep: char, short: string, long: string, more: seq<string>)
    requires IsWord(w, sep) && (short == "" || short[0] == sep) && (long == "" || long[0] == sep)
    requires Split(long, sep) == Split(short, sep) + more
    ensures Split(w + long, sep) == Split(w + short, sep) + more
  {
    SplitWord(w, sep, short);
    SplitWord(w, sep, long);
    ConsAppend(w, Split(short, sep), more);
  }

  lemma ConsAppend(w: string, ws: seq<string>, more: seq<string>)
    ensures [w] + (ws + more) == [w] + ws + more
  {
  }

  lemma SplitSingle(w: string, sep: char)
    requires IsWord(w, sep)
    ensures Split(w, sep) == [w]
  {
    SplitWord(w, sep, "");
    assert w + "" == w;
  }

  /** Splitting undoes joining. */
  lemma {:induction false} SplitJoin(ws: seq<string>, sep: char)
    requires forall i | 0 <= i < |ws| :: IsWord(ws[i], sep)
    ensures Split(Join(ws, sep), sep) == ws
  {
    var n := |ws| - 1;
    if n == 0 {
      SplitSingle(ws[0], sep);
    } else if n > 0 {
      SplitJoin(ws[..n], sep);
      SplitAppend(Join(ws[..n], sep), sep, ws[n]);
      SplitSingle(ws[n], sep);
    }
  }

  /** Every token is a word. */
  lemma {:induction false} SplitYieldsWords(s: string, sep: char)
    ensures forall w | w in Split(s, sep) :: IsWord(w, sep)
    decreases |s|
  {
    if s != "" {
      if s[0] == sep {
        SplitYieldsWords(s[1..], sep);
      } else {
        SplitYieldsWords(s[Span(s, [sep])..], sep);
      }
    }
  }

  /** Splitting and joining again squeezes the separators; other characters stay. */
  lemma {:induction false} JoinHasSame(ws: seq<string>, sep: char, c: char)
    requires c != sep
    ensures c in Join(ws, sep) <==> exists i :: 0 <= i < |ws| && c in ws[i]
  {
    var n := |ws| - 1;
    if n > 0 {
      JoinHasSame(ws[..n], sep, c);
      assert c in Join(ws, sep) <==> c in Join(ws[..n], sep) || c in ws[n];
      if i :| 0 <= i < n && c in ws[i] {
        assert c in ws[..n][i];
      }
    }
  }

  lemma {:induction false} SplitHasSame(s: string, sep: char, c: char)
    requires c != sep
    ensures c in s <==> exists i :: 0 <= i < |Split(s, sep)| && c in Split(s, sep)[i]
    decreases |s|
  {
    if s != "" {
      var n := if s[0] == sep then 1 else Span(s, [sep]);
      var rest := Split(s[n..], sep);
      assert s == s[..n] + s[n..];
      SplitHasSame(s[n..], sep, c);
      if s[0] != sep {
        var ws := Split(s, sep);
        assert ws == [s[..n]] + rest;
        assert ws[0] == s[..n];
        assert forall i | 0 <= i < |rest| :: ws[i + 1] == rest[i];
      } else {
        assert Split(s, sep) == rest && s == [sep] + s[1..];
      }
    }
  }

  /** The squeezed text has the same characters, separators aside. */
  lemma SqueezedHasSame(s: string, sep: char, c: char)
    requires c != sep
    ensures c in Join(Split(s, sep), sep) <==> c in s
  {
    JoinHasSame(Split(s, sep), sep, c);
    SplitHasSame(s, sep, c);
  }

  lemma JoinHead(w: string, ws: seq<string>, sep: char) returns (post: string)
    ensures Join([w] + ws, sep) == w + post
  {
    if ws == [] {
      assert [w] + ws == [w];
      post := "";
      assert w + post == w;
    } else {
      JoinCons(w, ws, sep);
      post := [sep] + Join(ws, sep);
      assert w + [sep] + Join(ws, sep) == w + post;
    }
  }

  /** A piece without separators survives the squeezing, and no new character comes before it. */
  lemma {:induction false} SplitAround(pre: string, w: string, post: string, sep: char, c: char)
    returns (pre': string, post': string)
    requires IsWord(w, sep) && c != sep && c !in pre
    ensures Join(Split(pre + w + post, sep), sep) == pre' + w + post' && c !in pre'
    decreases |pre|
  {
    var s := pre + w + post;
    var n := Span(pre, [sep]);
    if n == |pre| {
      pre', post' := SqueezedHead(pre, w, post, sep);
    } else if n == 0 {
      assert s[1..] == pre[1..] + w + post;
      pre', post' := SplitAround(pre[1..], w, post, sep, c);
    } else {
      var first, rest := pre[..n], pre[n..];
      assert pre == first + rest && s == first + (rest + w + post);
      SplitWord(first, sep, rest + w + post);
      var pre1;
      pre1, post' := SplitAround(rest, w, post, sep, c);
      SplitNotEmpty(rest, w, post, sep);
      JoinCons(first, Split(rest + w + post, sep), sep);
      pre' := first + [sep] + pre1;
      assert first + [sep] + (pre1 + w + post') == pre' + w + post';
    }
  }

  lemma SplitNotEmpty(pre: string, w: string, post: string, sep: char)
    requires IsWord(w, sep)
    ensures Split(pre + w + post, sep) != []
  {
    SplitHasSame(pre + w + post, sep, w[0]);
    assert (pre + w + post)[|pre|] == w[0];
  }

  lemma SqueezedHead(pre: string, w: string, post: string, sep: char) returns (pre': string, post': string)
    requires IsWord(w, sep) && sep !in pre
    ensures Join(Split(pre + w + post, sep), sep) == pre' + w + post' && pre' == pre
  {
    var n := Span(post, [sep]);
    var token, rest := pre + w + post[..n], post[n..];
    assert pre + w + post == token + rest;
    SplitWord(token, sep, rest);
    var tail := JoinHead(token, Split(rest, sep), sep);
    pre', post' := pre, post[..n] + tail;
    assert token + tail == pre' + w + post';
  }
}
