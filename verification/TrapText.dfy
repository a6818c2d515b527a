/** Reading a serialised trap back (src/trap.c:704-780). */
module TrapText {
  import opened CStrings
  import opened Hooks
  import opened TrapParser
  import opened TrapPrinter
  import Tokens

  // ---------- cutting at a delimiter ----------

  /** The pieces between the occurrences of a delimiter, the leftmost first. */
  function Cut(s: string, d: string): (pieces: seq<string>)
    requires d != ""
    ensures pieces != []
    decreases |s|
  {
    if d <= s then [""] + Cut(s[|d|..], d)
    else if s == "" then [""]
    else
      var pieces := Cut(s[1..], d);
      [[s[0]] + pieces[0]] + pieces[1..]
  }

  /** The delimiter behind the field is the first one. */
  predicate FreeOf(field: string, d: string) {
    forall k | 0 <= k < |field| :: !(d <= (field + d)[k..])
  }

  lemma PrefixOfShorter(d: string, s: string, rest: string)
    requires |d| <= |s| && d <= s + rest
    ensures d <= s
  {
    assert s[..|d|] == (s + rest)[..|d|];
  }

  lemma NotYet(field: string, d: string, rest: string)
    requires field != "" && FreeOf(field, d)
    ensures !(d <= field + d + rest) && FreeOf(field[1..], d)
  {
    var s := field + d;
    assert s[0..] == s;
    if d <= s + rest {
      PrefixOfShorter(d, s, rest);
    }
    forall k | 0 <= k < |field[1..]| ensures !(d <= (field[1..] + d)[k..]) {
      assert (field[1..] + d)[k..] == s[k + 1..];
    }
  }

  lemma {:induction false} CutField(field: string, d: string, rest: string)
    requires d != "" && FreeOf(field, d)
    ensures Cut(field + d + rest, d) == [field] + Cut(rest, d)
    decreases |field|
  {
    var s := field + d + rest;
    if field == "" {
      assert s == d + rest;
      assert s[|d|..] == rest;
    } else {
      NotYet(field, d, rest);
      assert s[1..] == field[1..] + d + rest;
      CutField(field[1..], d, rest);
      assert [field[0]] + field[1..] == field;
    }
  }

  /** A delimiter of one character only needs to be absent. */
  lemma CharFree(field: string, c: char)
    ensures c !in field ==> FreeOf(field, [c])
  {
    if c !in field {
      forall k | 0 <= k < |field| ensures !([c] <= (field + [c])[k..]) {
        assert (field + [c])[k..][0] == field[k];
      }
    }
  }

  // ---------- objects ----------

  /** "oid=value" for each object. */
  ghost function Items(os: seq<MibObject>): seq<string>
    requires Printable(os)
  {
    seq(|os|, k requires 0 <= k < |os| => os[k].oid + "=" + os[k].quoted.s)
  }

  /** Name and value of each object, one after the other. */
  function NamesAndValues(os: seq<MibObject>): seq<string>
    requires AllNamed(os)
  {
    if os == [] then []
    else NamesAndValues(os[..|os| - 1]) + [os[|os| - 1].oid, os[|os| - 1].quoted.s]
  }

  lemma JoinSnoc(ws: seq<string>, w: string, sep: char)
    requires ws != []
    ensures Tokens.Join(ws + [w], sep) == Tokens.Join(ws, sep) + [sep] + w
  {
    assert (ws + [w])[..|ws|] == ws;
  }

  /** The contents are the items, separated by single spaces. */
  lemma {:induction false} ContentsAreItems(os: seq<MibObject>)
    requires Printable(os)
    ensures Contents(os) == Tokens.Join(Items(os), ' ')
  {
    var n := |os| - 1;
    if n > 0 {
      ContentsAreItems(os[..n]);
      assert Items(os) == Items(os[..n]) + [Items(os)[n]];
      JoinSnoc(Items(os[..n]), Items(os)[n], ' ');
    }
  }

  /** An item's name ends at its first equals sign, and the rest is its quoted value. */
  lemma ItemIsRead(os: seq<MibObject>, k: nat)
    requires Printable(os) && k < |os| && '=' !in os[k].oid
    ensures var x := Items(os)[k]; var n := Span(x, "=");
            n < |x| && x[..n] == os[k].oid && x[n + 1..] == os[k].quoted.s
  {
    var o := os[k];
    SpanStops(o.oid, "=", "=" + o.quoted.s);
    assert o.oid + "=" + o.quoted.s == o.oid + ("=" + o.quoted.s);
  }

  lemma JoinPair(ws: seq<string>, a: string, b: string, sep: char)
    requires ws != []
    ensures Tokens.Join(ws + [a, b], sep) == Tokens.Join(ws, sep) + [sep] + a + [sep] + b
  {
    assert ws + [a, b] == ws + [a] + [b];
    JoinSnoc(ws + [a], b, sep);
    JoinSnoc(ws, a, sep);
  }

  lemma JoinTwo(a: string, b: string, sep: char)
    ensures Tokens.Join([a, b], sep) == a + [sep] + b
  {
    assert [a, b][..1] == [a];
  }

  /** The old mode's body is the delimiter and then names and values, separated by semicolons. */
  lemma {:induction false} OldBodyIsJoined(os: seq<MibObject>, d: string)
    requires AllNamed(os) && os != []
    ensures OldBody(os, d) == d + Tokens.Join(NamesAndValues(os), ';') && OldBody(os, d) != ""
  {
    var n := |os| - 1;
    var o := os[n];
    if n == 0 {
      OldBodyOfOne(os, d);
      JoinTwo(o.oid, o.quoted.s, ';');
    } else {
      OldBodyIsJoined(os[..n], d);
      OldBodyOfMore(os, d);
      JoinPair(NamesAndValues(os[..n]), o.oid, o.quoted.s, ';');
      Behind(d, Tokens.Join(NamesAndValues(os[..n]), ';'), [';'], o.oid, o.quoted.s);
    }
  }

  lemma OldBodyOfOne(os: seq<MibObject>, d: string)
    requires AllNamed(os) && |os| == 1
    ensures OldBody(os, d) == d + (os[0].oid + [';'] + os[0].quoted.s)
    ensures NamesAndValues(os) == [os[0].oid, os[0].quoted.s]
  {
    assert os[..0] == [];
    assert OldBody(os, d) == "" + (d + os[0].oid + ";" + os[0].quoted.s);
  }

  lemma OldBodyOfMore(os: seq<MibObject>, d: string)
    requires AllNamed(os) && os != [] && OldBody(os[..|os| - 1], d) != ""
    ensures var o := os[|os| - 1];
            OldBody(os, d) == OldBody(os[..|os| - 1], d) + [';'] + o.oid + [';'] + o.quoted.s
  {
    var o := os[|os| - 1];
    Behind("", OldBody(os[..|os| - 1], d), [';'], o.oid, o.quoted.s);
  }

  lemma Behind(d: string, a: string, sep: string, x: string, y: string)
    ensures d + a + sep + x + sep + y == d + (a + sep + x + sep + y)
    ensures a + (sep + x + sep + y) == a + sep + x + sep + y
  {
  }

  // ---------- the whole text ----------

  /** What follows the header and its delimiter. */
  ghost function ObjectsText(mode: Mode, os: seq<MibObject>): string
    requires AllNamed(os)
  {
    if mode.Old? then Tokens.Join(NamesAndValues(os), ';') else Tokens.Join(Items(os), ' ')
  }

  lemma BodyIsObjects(mode: Mode, os: seq<MibObject>, d: string)
    requires AllNamed(os) && os != []
    ensures Body(mode, os, d) == d + ObjectsText(mode, os)
  {
    if mode.Old? {
      OldBodyIsJoined(os, d);
    } else {
      ContentsAreItems(os);
    }
  }

  lemma CutFive(a: string, b: string, c: string, e: string, f: string, rest: string, d: string)
    requires d != "" && FreeOf(a, d) && FreeOf(b, d) && FreeOf(c, d) && FreeOf(e, d) && FreeOf(f, d)
    ensures Cut(a + d + b + d + c + d + e + d + f + (d + rest), d) == [a, b, c, e, f] + Cut(rest, d)
  {
    CutField(f, d, rest);
    CutField(e, d, f + d + rest);
    CutField(c, d, e + d + (f + d + rest));
    CutField(b, d, c + d + (e + d + (f + d + rest)));
    CutField(a, d, b + d + (c + d + (e + d + (f + d + rest))));
    Flatten(a, b, c, e, f, rest, d);
  }

  lemma Flatten(a: string, b: string, c: string, e: string, f: string, rest: string, d: string)
    ensures a + d + b + d + c + d + e + d + f + (d + rest)
            == a + d + (b + d + (c + d + (e + d + (f + d + rest))))
  {
  }

  /** The header's fields, in order, where the delimiter is in none of them. */
  predicate Separable(fields: seq<string>, d: string) {
    d != "" && forall k | 0 <= k < |fields| :: FreeOf(fields[k], d)
  }

  /** Cutting a serialised trap at its delimiter gives the time, whether it was executed, the
      host name, the address and the OID back, followed by the objects. */
  lemma SerializedIsRead(mode: Mode, seconds: nat, executed: bool, t: Trap, d: string, nullText: string)
    requires t.hostname.Str? && t.oid.Str? && AllNamed(t.objects) && t.objects != []
    requires Separable([ZeroPadded(seconds % 0x1_0000_0000, 12), if executed then "OK" else "NO", t.hostname.s,
                        if t.ipaddress.Null? then nullText else t.ipaddress.s, t.oid.s], d)
    ensures Cut(Serialized(mode, seconds, executed, t, d, nullText), d) ==
            [ZeroPadded(seconds % 0x1_0000_0000, 12), if executed then "OK" else "NO", t.hostname.s,
             if t.ipaddress.Null? then nullText else t.ipaddress.s, t.oid.s]
            + Cut(ObjectsText(mode, t.objects), d)
  {
    var stamp, flag := ZeroPadded(seconds % 0x1_0000_0000, 12), if executed then "OK" else "NO";
    var address := if t.ipaddress.Null? then nullText else t.ipaddress.s;
    var fields := [stamp, flag, t.hostname.s, address, t.oid.s];
    assert FreeOf(fields[0], d) && FreeOf(fields[1], d) && FreeOf(fields[2], d) && FreeOf(fields[3], d)
           && FreeOf(fields[4], d);
    BodyIsObjects(mode, t.objects, d);
    CutFive(stamp, flag, t.hostname.s, address, t.oid.s, ObjectsText(mode, t.objects), d);
  }

  // ---------- the time stamp ----------

  function Power(n: nat): nat {
    if n == 0 then 1 else 10 * Power(n - 1)
  }

  lemma {:induction false} PaddedValue(n: nat, width: nat)
    requires n < Power(width)
    ensures Digits(ZeroPadded(n, width), 0) == n
    ensures forall k | 0 <= k < width :: IsDigit(ZeroPadded(n, width)[k])
  {
    if width > 0 {
      PaddedValue(n / 10, width - 1);
      DigitsSnoc(ZeroPadded(n / 10, width - 1), n % 10, 0);
    }
  }

  lemma TwelveDigits()
    ensures Power(12) == 1_000_000_000_000
  {
    assert Power(4) == 10_000;
    assert Power(8) == 100_000_000;
  }

  /** The time stamp is read back modulo 2^32. */
  lemma StampIsRead(seconds: nat)
    ensures var stamp := ZeroPadded(seconds % 0x1_0000_0000, 12);
            |stamp| == 12 && Leading(stamp) == seconds % 0x1_0000_0000
  {
    TwelveDigits();
    PaddedValue(seconds % 0x1_0000_0000, 12);
    var stamp := ZeroPadded(seconds % 0x1_0000_0000, 12);
    assert IsDigit(stamp[0]);
  }
}
