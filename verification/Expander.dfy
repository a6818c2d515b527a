/** Macro expansion (src/command.c): a two-state scanner that copies a command line and
    replaces every "$...$" its hook knows. */
module Expander {
  import opened CStrings

  const TMPBUFLEN := 1024
  const TMPBUFLEN_SMALL := 128
  const UNKNOWN_ADDRESS := "UNKNOWN"

  /** What a pass knows: macro text (both dollars included) to replacement, or NULL. */
  type Hook = string -> CString

  /** The scanner's state together with the bytes gathered in macrobuffer. */
  datatype Status = Normal | PossibleMacro(macro: string)

  /** The text a closed macro turns into. */
  function Replace(hook: Hook, macro: string): string {
    if hook(macro).Str? then hook(macro).s else macro
  }

  /** State after reading `c`. */
  function Next(st: Status, c: char): Status {
    if c == '$' then (if st.Normal? then PossibleMacro("$") else Normal)
    else if st.Normal? then Normal
    else PossibleMacro(st.macro + [c])
  }

  /** Text sent to the output while reading `c`. */
  function Emit(hook: Hook, st: Status, c: char): string {
    if st.Normal? then (if c == '$' then "" else [c])
    else if c == '$' then Replace(hook, st.macro + "$")
    else ""
  }

  /** Text sent to the output at the end of the input: a macro left open is copied literally. */
  function Leftover(st: Status): string {
    if st.Normal? then "" else st.macro
  }

  /** Output of the scanner started in `st` on the remaining input `s`. */
  function Scan(hook: Hook, st: Status, s: string): string
    decreases |s|
  {
    if s == "" then Leftover(st)
    else Emit(hook, st, s[0]) + Scan(hook, Next(st, s[0]), s[1..])
  }

  function Expand(hook: Hook, s: string): string {
    Scan(hook, Normal, s)
  }

  // ---------- storage ----------

  /** Fill and capacity of the two blocks, and whether a macro's terminator was put at the index
      `macrobuflen`, the first one behind its block. */
  datatype Sizes = Sizes(i: nat, buflen: nat, j: nat, macrobuflen: nat, spilled: bool)

  const Fresh := Sizes(0, TMPBUFLEN, 0, TMPBUFLEN_SMALL, false)

  predicate Fits(z: Sizes) {
    z.i <= z.buflen && z.j <= z.macrobuflen && 0 < z.buflen && 0 < z.macrobuflen
  }

  /** The capacity after the check at the head of the loop. */
  function Checked(len: nat, cap: nat): nat {
    if len + 1 > cap then 2 * cap else cap
  }

  function WithRoom(z: Sizes): Sizes {
    z.(buflen := Checked(z.i, z.buflen), macrobuflen := Checked(z.j, z.macrobuflen))
  }

  /** `len` bytes are appended after a check for `need` bytes. */
  function Appended(z: Sizes, len: nat, need: nat): Sizes {
    z.(i := z.i + len, buflen := if z.i + need + 1 > z.buflen then 2 * z.buflen + need else z.buflen)
  }

  /** A macro is closed: its text and a terminator are in macrobuffer. */
  function Closed(hook: Hook, macro: string, z: Sizes): Sizes {
    var z' := z.(spilled := z.spilled || z.j + 1 == z.macrobuflen);
    if hook(macro).Str? then Appended(z', |hook(macro).s|, |hook(macro).s|) else Appended(z', |macro|, z.j)
  }

  function Gathered(st: Status, c: char, z: Sizes): Sizes {
    if st.PossibleMacro? then z.(j := z.j + 1) else if c == '$' then z.(j := 1) else z.(i := z.i + 1)
  }

  function NextSizes(hook: Hook, st: Status, c: char, z: Sizes): Sizes {
    if st.PossibleMacro? && c == '$' then Closed(hook, st.macro + "$", WithRoom(z)) else Gathered(st, c, WithRoom(z))
  }

  /** At the end of the input. */
  function LastSizes(st: Status, z: Sizes): Sizes {
    if st.Normal? then z else Appended(z, z.j, z.j)
  }

  function ScanSizes(hook: Hook, st: Status, s: string, z: Sizes): Sizes
    decreases |s|
  {
    if s == "" then LastSizes(st, z) else ScanSizes(hook, Next(st, s[0]), s[1..], NextSizes(hook, st, s[0], z))
  }

  /** The working storage of expand_command_internal. The source allocates `buflen` and
      `macrobuflen` bytes; the arrays here have one cell more, because the write positions `i`
      and `j` reach the capacity itself, never further. Which writes use that cell is on record. */
  class Scanner {
    var buffer: array<char>
    var buflen: nat
    var i: nat
    var macrobuffer: array<char>
    var macrobuflen: nat
    var j: nat
    var inMacro: bool
    /** Whether macrobuffer's extra cell was written. */
    ghost var spilled: bool

    ghost function Fill(): Sizes
      reads this
    {
      Sizes(i, buflen, j, macrobuflen, spilled)
    }

    ghost predicate Valid()
      reads this
    {
      && 0 < buflen && i <= buflen && buffer.Length == buflen + 1
      && 0 < macrobuflen && j <= macrobuflen && macrobuffer.Length == macrobuflen + 1
      && buffer != macrobuffer
    }

    ghost function Out(): string
      reads this, buffer
      requires Valid()
    {
      buffer[..i]
    }

    ghost function State(): Status
      reads this, macrobuffer
      requires Valid()
    {
      if inMacro then PossibleMacro(macrobuffer[..j]) else Normal
    }

    constructor ()
      ensures Valid() && fresh(buffer) && fresh(macrobuffer)
      ensures Out() == "" && State() == Normal && Fill() == Fresh
    {
      buflen, macrobuflen := TMPBUFLEN, TMPBUFLEN_SMALL;
      buffer := new char[TMPBUFLEN + 1];
      macrobuffer := new char[TMPBUFLEN_SMALL + 1];
      i, j, inMacro, spilled := 0, 0, false, false;
    }

    /** The two capacity checks at the head of the loop. */
    method MakeRoom()
      requires Valid()
      modifies this
      ensures Valid() && Out() == old(Out()) && State() == old(State())
      ensures buffer == old(buffer) || fresh(buffer)
      ensures macrobuffer == old(macrobuffer) || fresh(macrobuffer)
      ensures i < buflen && j < macrobuflen && Fill() == WithRoom(old(Fill()))
    {
      if i > buflen - 1 {
        buflen := buflen * 2;
        buffer := Realloc(buffer, buflen + 1);
      }
      if j > macrobuflen - 1 {
        macrobuflen := macrobuflen * 2;
        macrobuffer := Realloc(macrobuffer, macrobuflen + 1);
      }
    }

    /** Copies `text` behind position `i`, growing the buffer first when `need` bytes would
        leave no room for a terminator. Callers pass the text's length, or one byte less. */
    method AppendText(text: string, need: nat)
      requires Valid() && need <= |text| <= need + 1
      modifies this, buffer
      ensures Valid() && Out() == old(Out()) + text
      ensures buffer == old(buffer) || fresh(buffer)
      ensures macrobuffer == old(macrobuffer) && inMacro == old(inMacro)
      ensures Fill() == Appended(old(Fill()), |text|, need)
    {
      if i + need > buflen - 1 {
        buflen := buflen * 2 + need;
        buffer := Realloc(buffer, buflen + 1);
      }
      Memcpy(buffer, i, text);
      i := i + |text|;
    }

    /** A closing dollar: the macro's replacement, or the macro itself, goes to the output. */
    method CloseMacro(hook: Hook)
      requires Valid() && inMacro && j < macrobuflen
      modifies this, buffer, macrobuffer
      ensures Valid() && Out() == old(Out()) + Replace(hook, old(State()).macro + "$")
      ensures State() == Normal && Fill() == Closed(hook, old(State()).macro + "$", old(Fill()))
      ensures buffer == old(buffer) || fresh(buffer)
      ensures macrobuffer == old(macrobuffer)
    {
      inMacro := false;
      spilled := spilled || j + 1 >= macrobuflen;
      macrobuffer[j] := '$';
      macrobuffer[j + 1] := NUL;
      var macro := macrobuffer[..j + 1];
      assert macro == old(macrobuffer[..j]) + "$";
      var value := hook(macro);
      if value.Str? {
        AppendText(value.s, |value.s|);
      } else {
        AppendText(macro, j);
      }
    }

    /** One round of the loop. */
    method Feed(hook: Hook, c: char)
      requires Valid()
      modifies this, buffer, macrobuffer
      ensures Valid() && Out() == old(Out()) + Emit(hook, old(State()), c)
      ensures State() == Next(old(State()), c) && Fill() == NextSizes(hook, old(State()), c, old(Fill()))
      ensures buffer == old(buffer) || fresh(buffer)
      ensures macrobuffer == old(macrobuffer) || fresh(macrobuffer)
    {
      MakeRoom();
      if inMacro && c == '$' {
        CloseMacro(hook);
      } else {
        Gather(c);
      }
    }

    /** A byte that closes no macro goes to one of the buffers. */
    method Gather(c: char)
      requires Valid() && i < buflen && j < macrobuflen && !(inMacro && c == '$')
      modifies this, buffer, macrobuffer
      ensures Valid() && buffer == old(buffer) && macrobuffer == old(macrobuffer)
      ensures Out() == old(Out()) + if old(inMacro) || c == '$' then "" else [c]
      ensures State() == Next(old(State()), c) && Fill() == Gathered(old(State()), c, old(Fill()))
    {
      if inMacro {
        macrobuffer[j] := c;
        j := j + 1;
      } else if c == '$' {
        inMacro := true;
        macrobuffer[0] := c;
        j := 1;
      } else {
        buffer[i] := c;
        i := i + 1;
      }
    }

    /** End of input: an unterminated macro is copied literally, then the terminator is
        written at position `i`, which may be the capacity itself. */
    method Finish() returns (r: string)
      requires Valid()
      modifies this, buffer
      ensures r == old(Out()) + Leftover(old(State())) && Fill() == LastSizes(old(State()), old(Fill()))
    {
      if inMacro {
        AppendText(macrobuffer[..j], j);
      }
      r := buffer[..i];
      buffer[i] := NUL;
    }
  }

  lemma ScanStep(hook: Hook, out: string, st: Status, s: string, k: nat)
    requires k < |s|
    ensures out + Scan(hook, st, s[k..]) ==
            out + Emit(hook, st, s[k]) + Scan(hook, Next(st, s[k]), s[k + 1..])
  {
    assert s[k..][1..] == s[k + 1..];
  }

  /** expand_command_internal. The ghost result says how full the two blocks were: its
      terminator lies behind `buffer` if `used.i` is `used.buflen`, and a macro's terminator
      lay behind `macrobuffer` if `used.spilled`. */
  method ExpandCommand(hook: Hook, command: CString) returns (r: CString, ghost used: Sizes)
    ensures command.Null? ==> r.Null?
    ensures command.Str? ==> r == Str(Expand(hook, command.s)) && used == ScanSizes(hook, Normal, command.s, Fresh)
  {
    if command.Null? {
      return Null, Fresh;
    }
    var scanner := new Scanner();
    var k := 0;
    while k < |command.s|
      invariant k <= |command.s|
      invariant scanner.Valid() && fresh(scanner) && fresh(scanner.buffer) && fresh(scanner.macrobuffer)
      invariant Expand(hook, command.s) == scanner.Out() + Scan(hook, scanner.State(), command.s[k..])
      invariant ScanSizes(hook, Normal, command.s, Fresh) ==
                ScanSizes(hook, scanner.State(), command.s[k..], scanner.Fill())
    {
      ScanStep(hook, scanner.Out(), scanner.State(), command.s, k);
      scanner.Feed(hook, command.s[k]);
      k := k + 1;
    }
    var s := scanner.Finish();
    r, used := Str(s), scanner.Fill();
  }
}
