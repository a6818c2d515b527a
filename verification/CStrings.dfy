/** C strings as the daemon uses them: a pointer that may be NULL, and a handful of
    buffer operations on them. The terminating NUL is kept implicit in `s`. */
module CStrings {

  datatype CString = Null | Str(s: string)

  /** NULL or "" (is_empty). */
  predicate IsEmpty(c: CString) {
    c.Null? || c.s == ""
  }

  /** A copy, except that the empty string is copied to NULL (xstrdup). */
  function XStrdup(c: CString): CString {
    if IsEmpty(c) then Null else c
  }

  /** Length, 0 for NULL (xstrlen). */
  function XStrlen(c: CString): nat {
    if IsEmpty(c) then 0 else |c.s|
  }

  /** isspace and isdigit in the C locale */
  predicate IsSpace(c: char) {
    c == ' ' || '\t' <= c <= '\r'
  }

  predicate IsDigit(c: char) {
    '0' <= c <= '9'
  }

  /** Length of the longest prefix without a character of `stop` (strcspn). */
  function Span(s: string, stop: string): (n: nat)
    ensures n <= |s| && Avoids(s[..n], stop) && (n < |s| ==> s[n] in stop)
  {
    if s == "" || s[0] in stop then 0
    else
      var n := Span(s[1..], stop);
      assert s[..n + 1] == [s[0]] + s[1..][..n];
      n + 1
  }

  predicate Avoids(s: string, stop: string) {
    forall i | 0 <= i < |s| :: s[i] !in stop
  }

  lemma {:induction false} SpanStops(s: string, stop: string, rest: string)
    requires Avoids(s, stop) && (rest == "" || rest[0] in stop)
    ensures Span(s + rest, stop) == |s|
  {
    if s == "" {
      assert s + rest == rest;
    } else {
      assert (s + rest)[1..] == s[1..] + rest;
      SpanStops(s[1..], stop, rest);
    }
  }

  /** strcspn, from a position on */
  method StrCSpn(s: string, from: nat, stop: string) returns (end: nat)
    requires from <= |s|
    ensures end == from + Span(s[from..], stop) <= |s|
    ensures s[from..end] == s[from..][..end - from] && s[end..] == s[from..][end - from..]
  {
    end := from;
    while end < |s| && s[end] !in stop
      invariant from <= end <= |s| && Span(s[from..], stop) == end - from + Span(s[end..], stop)
    {
      assert s[end..][1..] == s[end + 1..];
      end := end + 1;
    }
  }

  function DigitOf(n: nat): char
    requires n < 10
  {
    '0' + n as char
  }

  const NUL := '\0'

  /** xrealloc: a larger block that starts with the old contents. */
  method Realloc(a: array<char>, size: nat) returns (b: array<char>)
    requires a.Length <= size
    ensures fresh(b) && b.Length == size && b[..a.Length] == a[..]
  {
    b := new char[size];
    forall i | 0 <= i < a.Length {
      b[i] := a[i];
    }
  }

  /** memcpy of a string into a buffer; only the named bytes change. */
  method Memcpy(dst: array<char>, at: nat, src: string)
    requires at + |src| <= dst.Length
    modifies dst
    ensures dst[..at] == old(dst[..at])
    ensures dst[at..at + |src|] == src
    ensures dst[at + |src|..] == old(dst[at + |src|..])
  {
    forall i | 0 <= i < |src| {
      dst[at + i] := src[i];
    }
  }
}
