/** How full the macro expander's two blocks get (src/command.c). Each of them holds as many
    bytes as its recorded capacity, and two terminators may be put one byte behind: that of a
    closed macro in macrobuffer, and that of the output in buffer. */
module ExpanderStorage {
  import opened CStrings
  import opened Expander
  import opened ExpanderLaws

  // ---------- reading in parts ----------

  ghost function RunSizes(hook: Hook, st: Status, s: string, z: Sizes): Sizes
    decreases |s|
  {
    if s == "" then z else RunSizes(hook, Next(st, s[0]), s[1..], NextSizes(hook, st, s[0], z))
  }

  lemma {:induction false} ScanSizesAppend(hook: Hook, st: Status, a: string, b: string, z: Sizes)
    ensures ScanSizes(hook, st, a + b, z) == ScanSizes(hook, After(st, a), b, RunSizes(hook, st, a, z))
    decreases |a|
  {
    if a == "" {
      assert a + b == b;
    } else {
      assert (a + b)[1..] == a[1..] + b;
      ScanSizesAppend(hook, Next(st, a[0]), a[1..], b, NextSizes(hook, st, a[0], z));
    }
  }

  /** Doubled until `need` fits. */
  function GrowTo(cap: nat, need: nat): (r: nat)
    requires 0 < cap
    ensures need <= r && cap <= r
    decreases if need <= cap then 0 else need - cap
  {
    if need <= cap then cap else GrowTo(2 * cap, need)
  }

  lemma {:induction false} GrowTwice(cap: nat, n: nat, m: nat)
    requires 0 < cap && n <= m
    ensures GrowTo(GrowTo(cap, n), m) == GrowTo(cap, m)
    decreases if n <= cap then 0 else n - cap
  {
    if cap < n {
      GrowTwice(2 * cap, n, m);
    }
  }

  // ---------- the parts of a command ----------

  /** Between two macros there is room in macrobuffer. */
  predicate Ready(z: Sizes) {
    Fits(z) && z.j < z.macrobuflen
  }

  /** Plain text goes to buffer byte by byte. */
  lemma {:induction false} TextSizes(hook: Hook, t: string, z: Sizes)
    requires DollarFree(t) && Ready(z)
    ensures RunSizes(hook, Normal, t, z) == z.(i := z.i + |t|, buflen := GrowTo(z.buflen, z.i + |t|))
    decreases |t|
  {
    if t != "" {
      TextSizes(hook, t[1..], NextSizes(hook, Normal, t[0], z));
    }
  }

  /** A macro's name goes to macrobuffer. */
  lemma {:induction false} NameSizes(hook: Hook, m: string, t: string, z: Sizes)
    requires DollarFree(t) && Fits(z) && z.i < z.buflen
    ensures RunSizes(hook, PossibleMacro(m), t, z) ==
            z.(j := z.j + |t|, macrobuflen := GrowTo(z.macrobuflen, z.j + |t|))
    decreases |t|
  {
    if t != "" {
      NameSizes(hook, m + [t[0]], t[1..], NextSizes(hook, PossibleMacro(m), t[0], z));
    }
  }

  /** After an opening dollar and a name. */
  function Opened(name: string, z: Sizes): Sizes
    requires Ready(z)
  {
    var n := |name| + 1;
    z.(buflen := Checked(z.i, z.buflen), j := n, macrobuflen := GrowTo(z.macrobuflen, n))
  }

  lemma OpenSizes(hook: Hook, name: string, z: Sizes)
    requires DollarFree(name) && Ready(z)
    ensures RunSizes(hook, Normal, "$" + name, z) == Opened(name, z)
    ensures After(Normal, "$" + name) == PossibleMacro("$" + name)
  {
    assert ("$" + name)[1..] == name;
    NameSizes(hook, "$", name, NextSizes(hook, Normal, '$', z));
    ReadName(hook, "$", name);
  }

  /** After the closing dollar. */
  function MacroSizes(hook: Hook, name: string, z: Sizes): (r: Sizes)
    requires Ready(z)
    ensures Ready(r) && r.macrobuflen == GrowTo(z.macrobuflen, |name| + 2)
  {
    var z' := Opened(name, z);
    Closed(hook, MacroText(name), z'.(macrobuflen := GrowTo(z.macrobuflen, |name| + 2)))
  }

  lemma CloseSizes(hook: Hook, name: string, z: Sizes)
    requires DollarFree(name) && Ready(z)
    ensures NextSizes(hook, PossibleMacro("$" + name), '$', Opened(name, z)) == MacroSizes(hook, name, z)
  {
    GrowTwice(z.macrobuflen, |name| + 1, |name| + 2);
    assert "$" + name + "$" == MacroText(name);
  }

  /** Fill and capacities along a parsed command. */
  function Spend(hook: Hook, c: Command, z: Sizes): Sizes
    requires Ready(z)
  {
    match c
    case Done => z
    case Open(t) => LastSizes(PossibleMacro("$" + t), Opened(t, z))
    case Text(t, rest) => Spend(hook, rest, z.(i := z.i + |t|, buflen := GrowTo(z.buflen, z.i + |t|)))
    case Macro(name, rest) => Spend(hook, rest, MacroSizes(hook, name, z))
  }

  lemma SpendText(hook: Hook, t: string, rest: string, z: Sizes)
    requires DollarFree(t) && Ready(z)
    ensures ScanSizes(hook, Normal, t + rest, z) ==
            ScanSizes(hook, Normal, rest, z.(i := z.i + |t|, buflen := GrowTo(z.buflen, z.i + |t|)))
  {
    ScanSizesAppend(hook, Normal, t, rest, z);
    TextSizes(hook, t, z);
    ReadText(hook, t);
  }

  lemma SpendMacro(hook: Hook, name: string, rest: string, z: Sizes)
    requires DollarFree(name) && Ready(z)
    ensures ScanSizes(hook, Normal, MacroText(name) + rest, z) ==
            ScanSizes(hook, Normal, rest, MacroSizes(hook, name, z))
  {
    assert MacroText(name) + rest == "$" + name + ("$" + rest);
    ScanSizesAppend(hook, Normal, "$" + name, "$" + rest, z);
    OpenSizes(hook, name, z);
    assert ("$" + rest)[1..] == rest;
    CloseSizes(hook, name, z);
  }

  /** The scanner's fill and capacities are those of the parsed command. */
  lemma {:induction false} ScanSpends(hook: Hook, c: Command, z: Sizes)
    requires WellFormed(c) && Ready(z)
    ensures ScanSizes(hook, Normal, Print(c), z) == Spend(hook, c, z)
    decreases c
  {
    match c
    case Done =>
    case Open(t) =>
      ScanSizesAppend(hook, Normal, "$" + t, "", z);
      assert "$" + t + "" == "$" + t;
      OpenSizes(hook, t, z);
    case Text(t, rest) =>
      SpendText(hook, t, Print(rest), z);
      ScanSpends(hook, rest, z.(i := z.i + |t|, buflen := GrowTo(z.buflen, z.i + |t|)));
    case Macro(name, rest) =>
      SpendMacro(hook, name, Print(rest), z);
      ScanSpends(hook, rest, MacroSizes(hook, name, z));
  }

  // ---------- macrobuffer ----------

  /** Some closed macro's text, both dollars included, is exactly as long as the capacity that it
      and the macros before it have grown macrobuffer to. */
  predicate SpillsMacro(c: Command, cap: nat)
    requires 0 < cap
  {
    match c
    case Text(_, rest) => SpillsMacro(rest, cap)
    case Macro(name, rest) =>
      var cap' := GrowTo(cap, |MacroText(name)|);
      |MacroText(name)| == cap' || SpillsMacro(rest, cap')
    case _ => false
  }

  lemma {:induction false} SpendSpills(hook: Hook, c: Command, z: Sizes)
    requires Ready(z)
    ensures Spend(hook, c, z).spilled <==> z.spilled || SpillsMacro(c, z.macrobuflen)
    decreases c
  {
    match c
    case Text(t, rest) => SpendSpills(hook, rest, z.(i := z.i + |t|, buflen := GrowTo(z.buflen, z.i + |t|)));
    case Macro(name, rest) => SpendSpills(hook, rest, MacroSizes(hook, name, z));
    case _ =>
  }

  /** A macro's terminator is put behind macrobuffer exactly for such commands, whatever the
      hook. */
  lemma MacroBufferExactly(hook: Hook, c: Command)
    requires WellFormed(c)
    ensures ScanSizes(hook, Normal, Print(c), Fresh).spilled <==> SpillsMacro(c, TMPBUFLEN_SMALL)
  {
    ScanSpends(hook, c, Fresh);
    SpendSpills(hook, c, Fresh);
  }

  // ---------- buffer ----------

  /** The scanner counts the bytes it writes. */
  lemma {:induction false} SpendCounts(hook: Hook, c: Command, z: Sizes)
    requires Ready(z)
    ensures Spend(hook, c, z).i == z.i + |Substitute(hook, c)|
    decreases c
  {
    match c
    case Text(t, rest) => SpendCounts(hook, rest, z.(i := z.i + |t|, buflen := GrowTo(z.buflen, z.i + |t|)));
    case Macro(name, rest) => SpendCounts(hook, rest, MacroSizes(hook, name, z));
    case _ =>
  }

  /** The capacity of buffer at the end, for output of length `len` so far. */
  function Capacity(hook: Hook, c: Command, len: nat, cap: nat): nat
    requires len <= cap && 0 < cap
    decreases c
  {
    match c
    case Done => cap
    case Open(t) =>
      var n := |t| + 1;
      if len + n + 1 > Checked(len, cap) then 2 * Checked(len, cap) + n else Checked(len, cap)
    case Text(t, rest) => Capacity(hook, rest, len + |t|, GrowTo(cap, len + |t|))
    case Macro(name, rest) =>
      var text := Replace(hook, MacroText(name));
      var need := if hook(MacroText(name)).Str? then |text| else |text| - 1;
      var cap' := if len + need + 1 > Checked(len, cap) then 2 * Checked(len, cap) + need else Checked(len, cap);
      Capacity(hook, rest, len + |text|, cap')
  }

  lemma {:induction false} SpendGrows(hook: Hook, c: Command, z: Sizes)
    requires Ready(z)
    ensures Spend(hook, c, z).buflen == Capacity(hook, c, z.i, z.buflen)
    decreases c
  {
    match c
    case Text(t, rest) => SpendGrows(hook, rest, z.(i := z.i + |t|, buflen := GrowTo(z.buflen, z.i + |t|)));
    case Macro(name, rest) =>
      SpendGrows(hook, rest, MacroSizes(hook, name, z));
      CapacityOfMacro(hook, name, rest, z);
    case _ =>
  }

  lemma CapacityOfMacro(hook: Hook, name: string, rest: Command, z: Sizes)
    requires Ready(z)
    ensures var z' := MacroSizes(hook, name, z);
            Capacity(hook, Macro(name, rest), z.i, z.buflen) == Capacity(hook, rest, z'.i, z'.buflen)
  {
  }

  /** The output's terminator is put behind buffer exactly when the output is as long as the
      capacity it has grown buffer to. */
  lemma BufferExactly(hook: Hook, c: Command)
    requires WellFormed(c)
    ensures var z := ScanSizes(hook, Normal, Print(c), Fresh);
            z.i == z.buflen <==> |Expand(hook, Print(c))| == Capacity(hook, c, 0, TMPBUFLEN)
  {
    ScanSpends(hook, c, Fresh);
    SpendCounts(hook, c, Fresh);
    SpendGrows(hook, c, Fresh);
    ExpandSubstitutes(hook, c);
  }

  /** A command that ends in an open macro always leaves room for its terminator. */
  lemma {:induction false} OpenLeavesRoom(hook: Hook, c: Command, z: Sizes)
    requires Ready(z) && EndsOpen(c)
    ensures Spend(hook, c, z).i < Spend(hook, c, z).buflen
    decreases c
  {
    match c
    case Text(t, rest) => OpenLeavesRoom(hook, rest, z.(i := z.i + |t|, buflen := GrowTo(z.buflen, z.i + |t|)));
    case Macro(name, rest) => OpenLeavesRoom(hook, rest, MacroSizes(hook, name, z));
    case _ =>
  }

  predicate EndsOpen(c: Command) {
    match c
    case Done => false
    case Open(_) => true
    case Text(_, rest) => EndsOpen(rest)
    case Macro(_, rest) => EndsOpen(rest)
  }

  // ---------- single macros and plain text ----------

  /** cap * 2^k */
  function Doubled(cap: nat, k: nat): nat
    decreases k
  {
    if k == 0 then cap else Doubled(2 * cap, k - 1)
  }

  lemma {:induction false} DoubledGrows(cap: nat, k: nat)
    ensures cap <= Doubled(cap, k) && (0 < k ==> 2 * cap <= Doubled(cap, k))
    decreases k
  {
    if k > 0 {
      DoubledGrows(2 * cap, k - 1);
    }
  }

  lemma DoubledIs(cap: nat, k: nat, n: nat)
    requires n == Doubled(cap, k)
    ensures exists k: nat :: n == Doubled(cap, k)
  {
  }

  lemma {:induction false} GrowToExactly(cap: nat, n: nat)
    requires 0 < cap && 0 < n
    ensures GrowTo(cap, n) == n <==> exists k: nat :: n == Doubled(cap, k)
    decreases if n <= cap then 0 else n - cap
  {
    if n <= cap {
      assert GrowTo(cap, n) == cap;
      if n == cap {
        DoubledIs(cap, 0, n);
      }
      forall k: nat | n == Doubled(cap, k) ensures n == cap {
        DoubledGrows(cap, k);
      }
    } else {
      GrowToExactly(2 * cap, n);
      assert GrowTo(cap, n) == GrowTo(2 * cap, n);
      if GrowTo(cap, n) == n {
        var k: nat :| n == Doubled(2 * cap, k);
        assert n == Doubled(cap, k + 1);
      }
      forall k: nat | n == Doubled(cap, k) ensures GrowTo(cap, n) == n {
        var m: nat := k - 1;
        assert n == Doubled(2 * cap, m);
      }
    }
  }

  /** Plain text of exactly 1024 * 2^k bytes puts its terminator behind buffer, and no other
      plain text does. */
  lemma PlainTextExactly(hook: Hook, s: string)
    requires DollarFree(s)
    ensures var z := ScanSizes(hook, Normal, s, Fresh);
            z.i == z.buflen <==> exists k: nat :: |s| == Doubled(TMPBUFLEN, k)
  {
    var c := Text(s, Done);
    BufferExactly(hook, c);
    ExpandSubstitutes(hook, c);
    assert s + "" == s;
    if |s| > 0 {
      GrowToExactly(TMPBUFLEN, |s|);
    } else {
      forall k: nat ensures |s| != Doubled(TMPBUFLEN, k) {
        DoubledGrows(TMPBUFLEN, k);
      }
    }
  }

  /** A command that is one macro of 128 * 2^k bytes puts a terminator behind macrobuffer, and
      no other single macro does. */
  lemma SingleMacroExactly(hook: Hook, name: string)
    requires DollarFree(name)
    ensures ScanSizes(hook, Normal, MacroText(name), Fresh).spilled <==>
            exists k: nat :: |MacroText(name)| == Doubled(TMPBUFLEN_SMALL, k)
  {
    var c := Macro(name, Done);
    MacroBufferExactly(hook, c);
    assert MacroText(name) + "" == MacroText(name);
    GrowToExactly(TMPBUFLEN_SMALL, |MacroText(name)|);
  }

  /** For example, 1024 bytes of plain text, */
  lemma FullBuffer(hook: Hook, s: string)
    requires s == seq(1024, _ => 'x')
    ensures var z := ScanSizes(hook, Normal, s, Fresh); z.i == z.buflen == 1024
  {
    TextSizes(hook, s, Fresh);
    ScanSizesAppend(hook, Normal, s, "", Fresh);
    ReadText(hook, s);
    assert s + "" == s;
  }

  /** and a macro of 128 bytes. */
  lemma FullMacroBuffer(hook: Hook, name: string)
    requires name == seq(126, _ => 'x')
    ensures ScanSizes(hook, Normal, "$" + name + "$", Fresh).spilled
  {
    SingleMacroExactly(hook, name);
    assert |MacroText(name)| == Doubled(TMPBUFLEN_SMALL, 0);
  }
}
