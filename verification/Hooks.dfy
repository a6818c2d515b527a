/** The three macro hooks (src/command.c) and the order in which the daemon applies them. */
module Hooks {
  import opened CStrings
  import opened Expander
  import opened ExpanderLaws
  import Tokens

  const MAX_ARGS_NO := 128

  // ---------- atoi ----------

  function Digits(s: string, value: int): int {
    if s == "" || !IsDigit(s[0]) then value else Digits(s[1..], 10 * value + (s[0] - '0') as int)
  }

  /** The number that a string begins with: blanks, an optional sign, then as many digits as
      follow. */
  function Leading(s: string): int {
    if s == "" then 0
    else if IsSpace(s[0]) then Leading(s[1..])
    else if s[0] == '-' then 0 - Digits(s[1..], 0)
    else if s[0] == '+' then Digits(s[1..], 0)
    else Digits(s, 0)
  }

  /** strtol: the nearest 64-bit number. */
  function Clamped(n: int): int {
    if n < -0x8000_0000_0000_0000 then -0x8000_0000_0000_0000
    else if n > 0x7fff_ffff_ffff_ffff then 0x7fff_ffff_ffff_ffff
    else n
  }

  /** The conversion to a 32-bit int. */
  function ToInt(n: int): int {
    (n + 0x8000_0000) % 0x1_0000_0000 - 0x8000_0000
  }

  /** atoi, as glibc on a 64-bit machine has it; section 7.22.1 of ISO/IEC 9899:2011 leaves
      numbers that do not fit an int undefined. */
  function Atoi(s: string): int {
    ToInt(Clamped(Leading(s)))
  }

  // ---------- hooks ----------

  /** Step 1: user-defined macros. */
  function ResourceHook(resources: map<string, CString>): Hook {
    macro => if macro in resources then XStrdup(resources[macro]) else Null
  }

  /** Step 2: the addresses of one trap. */
  function AddressHook(hostAddress: CString, senderAddress: CString): Hook {
    macro =>
      if macro == "$HOSTADDRESS$" then Str(if IsEmpty(hostAddress) then UNKNOWN_ADDRESS else hostAddress.s)
      else if macro == "$SENDERADDRESS$" then Str(if IsEmpty(senderAddress) then UNKNOWN_ADDRESS else senderAddress.s)
      else Null
  }

  /** The argument that "$ARGn$" asks for, if there is one. */
  function NumberedArgument(macro: string, args: seq<string>): (r: CString)
    ensures r.Str? ==> r.s in args
  {
    if |macro| < 5 then Null
    else
      var index := Atoi(macro[4..|macro| - 1]);
      if 1 <= index <= |args| then XStrdup(Str(args[index - 1])) else Null
  }

  // ---------- the n-th argument ----------

  /** printf's "%u" */
  function Decimal(n: nat): (r: string)
    ensures r != "" && forall i | 0 <= i < |r| :: IsDigit(r[i])
  {
    (if n < 10 then "" else Decimal(n / 10)) + [DigitOf(n % 10)]
  }

  lemma {:induction false} DigitsSnoc(s: string, d: nat, value: int)
    requires d < 10 && forall i | 0 <= i < |s| :: IsDigit(s[i])
    ensures Digits(s + [DigitOf(d)], value) == 10 * Digits(s, value) + d
  {
    if s == "" {
      assert (s + [DigitOf(d)])[1..] == "";
    } else {
      assert (s + [DigitOf(d)])[1..] == s[1..] + [DigitOf(d)];
      DigitsSnoc(s[1..], d, 10 * value + (s[0] - '0') as int);
    }
  }

  lemma {:induction false} DigitsOfDecimal(n: nat)
    ensures Digits(Decimal(n), 0) == n
  {
    if n < 10 {
      DigitsSnoc("", n, 0);
    } else {
      DigitsOfDecimal(n / 10);
      DigitsSnoc(Decimal(n / 10), n % 10, 0);
    }
  }

  /** atoi reads back what printf prints, as far as an int goes. */
  lemma AtoiOfDecimal(n: nat)
    ensures Atoi(Decimal(n)) == ToInt(Clamped(n))
    ensures Atoi(Decimal(n)) == n <==> n <= 0x7fff_ffff
  {
    DigitsOfDecimal(n);
    assert Leading(Decimal(n)) == n;
  }

  lemma {:induction false} DigitsStop(s: string, rest: string, value: int)
    requires (forall i | 0 <= i < |s| :: IsDigit(s[i])) && (rest == "" || !IsDigit(rest[0]))
    ensures Digits(s + rest, value) == Digits(s, value)
  {
    if s == "" {
      assert s + rest == rest;
    } else {
      assert (s + rest)[1..] == s[1..] + rest;
      DigitsStop(s[1..], rest, 10 * value + (s[0] - '0') as int);
    }
  }

  lemma {:induction false} SpacesBefore(blank: string, s: string)
    requires forall i | 0 <= i < |blank| :: IsSpace(blank[i])
    ensures Leading(blank + s) == Leading(s)
  {
    if blank == "" {
      assert blank + s == s;
    } else {
      assert (blank + s)[1..] == blank[1..] + s;
      SpacesBefore(blank[1..], s);
    }
  }

  /** atoi takes spaces and a sign before a number, and stops where its digits end. */
  lemma AtoiReadsNumber(blank: string, sign: string, n: nat, rest: string)
    requires (forall i | 0 <= i < |blank| :: IsSpace(blank[i])) && (rest == "" || !IsDigit(rest[0]))
    requires n <= 0x7fff_ffff && (sign == "" || sign == "-" || sign == "+")
    ensures Atoi(blank + (sign + (Decimal(n) + rest))) == if sign == "-" then 0 - n else n
  {
    DigitsOfDecimal(n);
    DigitsStop(Decimal(n), rest, 0);
    AtoiSigned(blank, sign, Decimal(n) + rest);
  }

  lemma AtoiSigned(blank: string, sign: string, s: string)
    requires forall i | 0 <= i < |blank| :: IsSpace(blank[i])
    requires s != "" && IsDigit(s[0]) && (sign == "" || sign == "-" || sign == "+")
    requires 0 <= Digits(s, 0) <= 0x7fff_ffff
    ensures Atoi(blank + (sign + s)) == if sign == "-" then 0 - Digits(s, 0) else Digits(s, 0)
  {
    SpacesBefore(blank, sign + s);
    SignedNumber(sign, s);
  }

  lemma SignedNumber(sign: string, s: string)
    requires s != "" && IsDigit(s[0]) && (sign == "" || sign == "-" || sign == "+")
    ensures Leading(sign + s) == if sign == "-" then 0 - Digits(s, 0) else Digits(s, 0)
  {
    if sign == "" {
      assert sign + s == s;
    } else {
      assert (sign + s)[1..] == s;
    }
  }

  /** Text without a number in front counts as 0. */
  lemma AtoiOfText(blank: string, s: string)
    requires forall i | 0 <= i < |blank| :: IsSpace(blank[i])
    requires s == "" || (!IsDigit(s[0]) && !IsSpace(s[0]) && s[0] != '-' && s[0] != '+')
    ensures Atoi(blank + s) == 0
  {
    SpacesBefore(blank, s);
  }

  lemma ArgumentMacro(macro: string, address: CString, args: seq<string>)
    requires |macro| > 4 && macro[..4] == "$ARG"
    ensures ArgumentHook(address, args)(macro) == NumberedArgument(macro, args)
  {
    assert macro[1] == macro[..4][1] == 'A';
    assert "$HOSTADDRESS$"[1] == 'H' && "$SENDERADDRESS$"[1] == 'S';
  }

  lemma ArgumentDigits(macro: string, digits: string)
    requires digits != "" && macro == "$ARG" + digits + "$"
    ensures |macro| > 5 && macro[..4] == "$ARG" && macro[4..|macro| - 1] == digits
  {
  }

  /** The argument that a number stands for: the number is cut down to an int first. */
  function ArgumentAt(n: nat, args: seq<string>): CString {
    var index := ToInt(Clamped(n));
    if 1 <= index <= |args| then XStrdup(Str(args[index - 1])) else Null
  }

  /** "$ARGn$" stands for the argument at n. */
  lemma NthArgument(macro: string, n: nat, address: CString, args: seq<string>)
    requires macro == "$ARG" + Decimal(n) + "$"
    ensures ArgumentHook(address, args)(macro) == ArgumentAt(n, args)
  {
    ArgumentDigits(macro, Decimal(n));
    NumberedArgumentIsNth(macro, n, args);
    ArgumentMacro(macro, address, args);
  }

  /** That is the n-th one, and nothing beyond the last, for every n that is an int; */
  lemma IntArgument(n: nat, args: seq<string>)
    requires n <= 0x7fff_ffff
    ensures ArgumentAt(n, args) == if 1 <= n <= |args| then XStrdup(Str(args[n - 1])) else Null
  {
    assert ToInt(Clamped(n)) == n;
  }

  /** a larger number stands for what is left of it: 2^32 + 1 stands for the first argument. */
  lemma LargeNumberWraps(args: seq<string>)
    requires args != []
    ensures ArgumentAt(0x1_0000_0001, args) == XStrdup(Str(args[0]))
  {
  }

  lemma NumberedArgumentIsNth(macro: string, n: nat, args: seq<string>)
    requires |macro| > 5 && macro[4..|macro| - 1] == Decimal(n)
    ensures NumberedArgument(macro, args) == ArgumentAt(n, args)
  {
    AtoiOfDecimal(n);
  }

  /** Step 3: the arguments a host or service passes to its command. */
  function ArgumentHook(hostAddress: CString, args: seq<string>): Hook {
    macro =>
      if macro == "$HOSTADDRESS$" then XStrdup(hostAddress)
      else if macro == "$SENDERADDRESS$" then Str(UNKNOWN_ADDRESS)
      else if !("$ARG" <= macro) then Null
      else NumberedArgument(macro, args)
  }

  /** split_args: at most MAX_ARGS_NO words between '!' signs; none for a NULL string. */
  function Arguments(s: CString): seq<string> {
    if s.Null? then []
    else
      var words := Tokens.Split(s.s, '!');
      if |words| <= MAX_ARGS_NO then words else words[..MAX_ARGS_NO]
  }

  method SplitArgs(s: CString) returns (args: seq<string>)
    ensures args == Arguments(s)
  {
    args := [];
    if s.Null? {
      return;
    }
    var at, j := 0, 0;
    while j < MAX_ARGS_NO
      invariant |args| == j <= MAX_ARGS_NO && at <= |s.s|
      invariant Tokens.Split(s.s, '!') == args + Tokens.Split(s.s[at..], '!')
    {
      var token, next := Tokens.StrTok(s.s, '!', at);
      if token.Null? {
        return;
      }
      args := args + [token.s];
      at, j := next, j + 1;
    }
  }

  /** An argument string built by putting '!' between words gives those words back, the first
      128 of them. */
  lemma ArgumentsOfJoin(words: seq<string>)
    requires forall w | w in words :: Tokens.IsWord(w, '!')
    ensures Arguments(Str(Tokens.Join(words, '!'))) == if |words| <= 128 then words else words[..128]
  {
    Tokens.SplitJoin(words, '!');
  }

  // ---------- the passes in sequence ----------

  /** The text stored with a host or service: command_expand_1, then command_expand_3. */
  function StoredText(resources: map<string, CString>, text: string, address: CString, args: seq<string>): string {
    Expand(ArgumentHook(address, args), Expand(ResourceHook(resources), text))
  }

  /** With dollar-free resource values the stored text is the one-pass expansion in which a
      resource takes precedence over the argument macros. */
  lemma StoredTextIsOnePass(resources: map<string, CString>, text: string, address: CString, args: seq<string>)
    requires forall m | m in resources && resources[m].Str? :: DollarFree(resources[m].s)
    ensures StoredText(resources, text, address, args) ==
            Expand(OrElse(ResourceHook(resources), ArgumentHook(address, args)), text)
  {
    FuseTwoPasses(ResourceHook(resources), ArgumentHook(address, args), text);
  }

  /** The text that is run for a sender whose address is not looked up: command_expand_1, then
      command_expand_2 without a host address. */
  function SenderText(resources: map<string, CString>, text: string, sender: CString): string {
    Expand(AddressHook(Null, sender), Expand(ResourceHook(resources), text))
  }

  lemma SenderTextIsOnePass(resources: map<string, CString>, text: string, sender: CString)
    requires forall m | m in resources && resources[m].Str? :: DollarFree(resources[m].s)
    ensures SenderText(resources, text, sender) ==
            Expand(OrElse(ResourceHook(resources), AddressHook(Null, sender)), text)
  {
    FuseTwoPasses(ResourceHook(resources), AddressHook(Null, sender), text);
  }

  /** The resource pass may be merged with any later pass, on any text, exactly when no resource
      that is named like a macro has a dollar in its value. */
  lemma ResourcesMergeExactly(resources: map<string, CString>)
    ensures (forall name | DollarFree(name) && MacroText(name) in resources && resources[MacroText(name)].Str? ::
               DollarFree(resources[MacroText(name)].s)) <==>
            (forall h: Hook, s: string ::
              Expand(h, Expand(ResourceHook(resources), s)) == Expand(OrElse(ResourceHook(resources), h), s))
  {
    FusionExactly(ResourceHook(resources));
    assert ValuesDollarFree(ResourceHook(resources)) <==>
      forall name | DollarFree(name) && MacroText(name) in resources && resources[MacroText(name)].Str? ::
        DollarFree(resources[MacroText(name)].s);
  }
}
