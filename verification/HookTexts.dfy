/** What the three passes (src/command.c) make of a command, macro by macro. */
module HookTexts {
  import opened CStrings
  import opened Expander
  import opened ExpanderLaws
  import opened Hooks

  lemma SameMacro(a: string, b: string)
    ensures MacroText(a) == MacroText(b) <==> a == b
  {
    assert MacroText(a)[1..|a| + 1] == a && MacroText(b)[1..|b| + 1] == b;
  }

  lemma AddressMacros(name: string)
    ensures MacroText(name) == "$HOSTADDRESS$" <==> name == "HOSTADDRESS"
    ensures MacroText(name) == "$SENDERADDRESS$" <==> name == "SENDERADDRESS"
  {
    SameMacro(name, "HOSTADDRESS");
    SameMacro(name, "SENDERADDRESS");
    assert MacroText("HOSTADDRESS") == "$HOSTADDRESS$";
    assert MacroText("SENDERADDRESS") == "$SENDERADDRESS$";
  }

  // ---------- resources ----------

  /** The command with its user-defined macros replaced by what they are set to, unless that is
      nothing. */
  function WithResources(resources: map<string, CString>, c: Command): string {
    match c
    case Done => ""
    case Open(t) => "$" + t
    case Text(t, rest) => t + WithResources(resources, rest)
    case Macro(name, rest) =>
      (if MacroText(name) in resources && !IsEmpty(resources[MacroText(name)]) then resources[MacroText(name)].s
       else MacroText(name))
      + WithResources(resources, rest)
  }

  lemma {:induction false} ResourcesReplaced(resources: map<string, CString>, c: Command)
    requires WellFormed(c)
    ensures Expand(ResourceHook(resources), Print(c)) == WithResources(resources, c)
  {
    ExpandSubstitutes(ResourceHook(resources), c);
    if c.Text? || c.Macro? {
      ResourcesReplaced(resources, c.rest);
      ExpandSubstitutes(ResourceHook(resources), c.rest);
    }
  }

  // ---------- addresses ----------

  function OrUnknown(address: CString): string {
    if IsEmpty(address) then "UNKNOWN" else address.s
  }

  /** The command with the two addresses in place, and everything else as it was. */
  function WithAddresses(host: string, sender: string, c: Command): string {
    match c
    case Done => ""
    case Open(t) => "$" + t
    case Text(t, rest) => t + WithAddresses(host, sender, rest)
    case Macro(name, rest) =>
      (if name == "HOSTADDRESS" then host else if name == "SENDERADDRESS" then sender else MacroText(name))
      + WithAddresses(host, sender, rest)
  }

  lemma {:induction false} AddressesReplaced(host: CString, sender: CString, c: Command)
    requires WellFormed(c)
    ensures Expand(AddressHook(host, sender), Print(c)) == WithAddresses(OrUnknown(host), OrUnknown(sender), c)
  {
    ExpandSubstitutes(AddressHook(host, sender), c);
    if c.Text? || c.Macro? {
      AddressesReplaced(host, sender, c.rest);
      ExpandSubstitutes(AddressHook(host, sender), c.rest);
    }
    if c.Macro? {
      AddressMacros(c.name);
    }
  }

  /** In particular either macro alone is its address, and any other stays as it is. */
  lemma AddressAlone(host: CString, sender: CString, name: string)
    requires DollarFree(name)
    ensures Expand(AddressHook(host, sender), MacroText(name)) ==
            if name == "HOSTADDRESS" then OrUnknown(host)
            else if name == "SENDERADDRESS" then OrUnknown(sender)
            else MacroText(name)
  {
    AddressesReplaced(host, sender, Macro(name, Done));
    assert MacroText(name) + "" == MacroText(name);
  }

  // ---------- arguments ----------

  /** What a macro's name stands for when a host or service passes its arguments: "ARG" and a
      number for an argument, one address that is known and one that is not. */
  function ArgumentFor(address: string, args: seq<string>, name: string): CString {
    if name == "HOSTADDRESS" then XStrdup(Str(address))
    else if name == "SENDERADDRESS" then Str("UNKNOWN")
    else if "ARG" <= name && 1 <= Atoi(name[3..]) <= |args| then XStrdup(Str(args[Atoi(name[3..]) - 1]))
    else Null
  }

  function WithArguments(address: string, args: seq<string>, c: Command): string {
    match c
    case Done => ""
    case Open(t) => "$" + t
    case Text(t, rest) => t + WithArguments(address, args, rest)
    case Macro(name, rest) =>
      var arg := ArgumentFor(address, args, name);
      (if arg.Str? then arg.s else MacroText(name)) + WithArguments(address, args, rest)
  }

  lemma ArgBehindDollar(name: string)
    requires "$ARG" <= MacroText(name)
    ensures "ARG" <= name
  {
    var m := MacroText(name);
    assert m[..4] == "$ARG" && m[3] == 'G';
    assert m[|name| + 1] == '$';
    assert name[..3] == m[..4][1..];
  }

  lemma ArgPrefix(name: string)
    ensures "$ARG" <= MacroText(name) <==> "ARG" <= name
    ensures "ARG" <= name ==> MacroText(name)[4..|MacroText(name)| - 1] == name[3..]
  {
    var m := MacroText(name);
    assert m[1..|name| + 1] == name;
    assert "ARG" == "$ARG"[1..];
    if "ARG" <= name {
      assert m[..4] == "$" + name[..3];
    } else if "$ARG" <= m {
      ArgBehindDollar(name);
    }
  }

  lemma ArgumentIs(address: string, args: seq<string>, name: string)
    ensures ArgumentHook(Str(address), args)(MacroText(name)) == ArgumentFor(address, args, name)
  {
    if "ARG" <= name {
      NumberedIs(address, args, name);
    } else {
      AddressMacros(name);
      ArgPrefix(name);
    }
  }

  lemma NumberedIs(address: string, args: seq<string>, name: string)
    requires "ARG" <= name
    ensures ArgumentHook(Str(address), args)(MacroText(name)) == ArgumentFor(address, args, name)
  {
    var m := MacroText(name);
    ArgPrefix(name);
    assert m[..4] == "$ARG";
    ArgumentMacro(m, Str(address), args);
    NumberedText(m, name, args);
    ArgIsNoAddress(name);
  }

  lemma ArgIsNoAddress(name: string)
    requires "ARG" <= name
    ensures name != "HOSTADDRESS" && name != "SENDERADDRESS"
  {
    assert name[0] == 'A' && "HOSTADDRESS"[0] == 'H' && "SENDERADDRESS"[0] == 'S';
  }

  lemma NumberedText(m: string, name: string, args: seq<string>)
    requires |m| == |name| + 2 && |name| >= 3 && m[4..|m| - 1] == name[3..]
    ensures NumberedArgument(m, args) ==
            var index := Atoi(name[3..]);
            if 1 <= index <= |args| then XStrdup(Str(args[index - 1])) else Null
  {
  }

  lemma {:induction false} ArgumentsReplaced(address: string, args: seq<string>, c: Command)
    requires WellFormed(c)
    ensures Expand(ArgumentHook(Str(address), args), Print(c)) == WithArguments(address, args, c)
  {
    var hook := ArgumentHook(Str(address), args);
    ExpandSubstitutes(hook, c);
    if c.Text? || c.Macro? {
      ArgumentsReplaced(address, args, c.rest);
      ExpandSubstitutes(hook, c.rest);
    }
    if c.Macro? {
      ArgumentIs(address, args, c.name);
    }
  }
}
