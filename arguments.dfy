/** The argument loop at the start of `main` in `tfhe-applicability/examples/fibonacci.rs`: a left-to-right
    pass over the arguments after the program name that sets the number of terms and
    the fast mode, and stops at the first help flag. */
module Arguments {
  import opened Wrappers

  const DefaultTermCount: nat := 10
  const NumPrefix: string := "--num="
  const FastFlag: string := "--fast"

  /** `usize::MAX` on a 64-bit target. */
  const UsizeMax: nat := 0xFFFF_FFFF_FFFF_FFFF

  /** What the loop decides: print the help and stop, or compute `k` terms. */
  datatype Command = ShowHelp | Compute(k: nat, fastMode: bool)

  predicate IsHelpFlag(arg: string) {
    arg == "--help" || arg == "-h"
  }

  /** `s.trim_start_matches(p)`: removes every leading repetition of `p`. */
  function TrimStartMatches(s: string, p: string): (r: string)
    requires p != []
    ensures |r| <= |s| && r == s[|s| - |r|..]
    ensures !(p <= r)
    decreases |s|
  {
    if p <= s then TrimStartMatches(s[|p|..], p) else s
  }

  /** `n` copies of `p`, one after the other. */
  function Repeat(p: string, n: nat): string {
    if n == 0 then [] else p + Repeat(p, n - 1)
  }

  lemma RepeatUnfold(p: string, n: nat, rest: string)
    requires n > 0
    ensures Repeat(p, n) + rest == p + (Repeat(p, n - 1) + rest)
  {
  }

  /** One leading copy of the prefix is stripped and the trim goes on after it. */
  lemma TrimOneCopy(p: string, tail: string)
    requires p != []
    ensures TrimStartMatches(p + tail, p) == TrimStartMatches(tail, p)
  {
    assert (p + tail)[|p|..] == tail;
  }

  /** All the leading copies go, and nothing after them. */
  lemma {:induction false} TrimRepeated(p: string, n: nat, rest: string)
    requires p != [] && !(p <= rest)
    ensures TrimStartMatches(Repeat(p, n) + rest, p) == rest
  {
    if n > 0 {
      var tail := Repeat(p, n - 1) + rest;
      RepeatUnfold(p, n, rest);
      TrimOneCopy(p, tail);
      TrimRepeated(p, n - 1, rest);
    }
  }

  predicate IsDigit(c: char) {
    '0' <= c <= '9'
  }

  predicate AllDigits(s: string) {
    forall i :: 0 <= i < |s| ==> IsDigit(s[i])
  }

  /** The number a string of decimal digits denotes (leading zeros allowed). */
  function DecimalValue(s: string): nat
    requires AllDigits(s)
  {
    if s == [] then 0 else DecimalValue(s[..|s| - 1]) * 10 + (s[|s| - 1] as int - '0' as int)
  }

  /** `s.parse::<usize>()`: an optional `+`, then at least one decimal digit and
      nothing else, denoting a value no larger than `usize::MAX`. */
  function ParseUsize(s: string): (r: Option<nat>)
    ensures r.Some? ==> r.value <= UsizeMax
    ensures r.Some? ==> s != [] && (s[0] == '+' || IsDigit(s[0]))
    ensures r.Some? ==> forall i :: 1 <= i < |s| ==> IsDigit(s[i])
    ensures s == [] || s == "+" ==> r == None
  {
    var digits := if s != [] && s[0] == '+' then s[1..] else s;
    if digits != [] && AllDigits(digits) && DecimalValue(digits) <= UsizeMax
    then Some(DecimalValue(digits))
    else None
  }

  /** A leading zero does not change the number a digit string denotes. */
  lemma {:induction false} LeadingZeroValue(s: string)
    requires s != [] && AllDigits(s)
    ensures AllDigits("0" + s) && DecimalValue("0" + s) == DecimalValue(s)
    decreases |s|
  {
    var z := "0" + s;
    assert z[..|z| - 1] == "0" + s[..|s| - 1];
    if |s| > 1 {
      LeadingZeroValue(s[..|s| - 1]);
    } else {
      assert z[..|z| - 1] == "0";
      assert DecimalValue("0") == 0 by { assert "0"[..0] == []; }
      assert s[..0] == [];
    }
  }

  /** So `parse::<usize>` gives the same result with or without a leading zero. */
  lemma ParseUsizeLeadingZero(s: string)
    requires s != [] && AllDigits(s)
    ensures ParseUsize("0" + s) == ParseUsize(s)
    ensures ParseUsize("+0" + s) == ParseUsize(s)
  {
    LeadingZeroValue(s);
    assert ("+0" + s)[1..] == "0" + s;
  }

  /** `usize::to_string`: the decimal digits of `n`, without leading zeros. */
  function DecimalString(n: nat): (s: string)
    ensures s != [] && IsDigit(s[0])
  {
    if n < 10 then [('0' as int + n) as char]
    else DecimalString(n / 10) + [('0' as int + n % 10) as char]
  }

  lemma {:induction false} DecimalValueOfString(n: nat)
    ensures AllDigits(DecimalString(n)) && DecimalValue(DecimalString(n)) == n
  {
    var s := DecimalString(n);
    if n >= 10 {
      DecimalValueOfString(n / 10);
      assert s[..|s| - 1] == DecimalString(n / 10);
    } else {
      assert s[..|s| - 1] == [];
    }
  }

  /** Parsing undoes printing, with or without a leading `+`. */
  lemma ParseUsizeRoundTrip(n: nat)
    requires n <= UsizeMax
    ensures ParseUsize(DecimalString(n)) == Some(n)
    ensures ParseUsize("+" + DecimalString(n)) == Some(n)
  {
    DecimalValueOfString(n);
    assert ("+" + DecimalString(n))[1..] == DecimalString(n);
  }

  /** The value an argument sets `k` to: present for an argument that starts with
      `--num=` and whose remainder, once every leading `--num=` is stripped, parses. */
  function NumArgValue(arg: string): Option<nat> {
    if NumPrefix <= arg then ParseUsize(TrimStartMatches(arg, NumPrefix)) else None
  }

  /** An argument with the `--num=` prefix is neither `--fast` nor a help flag. */
  lemma NumArgIsNoFlag(arg: string)
    requires NumPrefix <= arg
    ensures arg != FastFlag && !IsHelpFlag(arg)
  {
    assert arg[2] == 'n';
  }

  lemma RepeatStartsWith(p: string, n: nat, rest: string)
    requires n > 0
    ensures p <= Repeat(p, n) + rest
  {
  }

  /** `--num=N`, with the prefix written any positive number of times, sets `k` to N. */
  lemma NumArgRoundTrip(n: nat, copies: nat)
    requires n <= UsizeMax && copies > 0
    ensures NumArgValue(Repeat(NumPrefix, copies) + DecimalString(n)) == Some(n)
  {
    var digits := DecimalString(n);
    RepeatStartsWith(NumPrefix, copies, digits);
    assert !(NumPrefix <= digits) by {
      assert NumPrefix[0] == '-' && IsDigit(digits[0]);
    }
    TrimRepeated(NumPrefix, copies, digits);
    ParseUsizeRoundTrip(n);
  }

  /** The loop body applied to the remaining arguments, from `k` and `fastMode` as
      they stand. */
  function Scan(rest: seq<string>, k: nat, fastMode: bool): Command
    decreases |rest|
  {
    if rest == [] then Compute(k, fastMode)
    else
      var arg := rest[0];
      if NumPrefix <= arg then Scan(rest[1..], NumArgValue(arg).GetOr(k), fastMode)
      else if arg == FastFlag then Scan(rest[1..], k, true)
      else if IsHelpFlag(arg) then ShowHelp
      else Scan(rest[1..], k, fastMode)
  }

  /** `args.iter().skip(1)`. */
  function SkipProgramName(args: seq<string>): seq<string> {
    if args == [] then [] else args[1..]
  }

  /** The command the loop decides on, starting from `k = 10` and the default level. */
  function ParsedCommand(args: seq<string>): Command {
    Scan(SkipProgramName(args), DefaultTermCount, false)
  }

  /** The loop itself. An unparsable `--num=` value only prints a notice (not modelled)
      and leaves `k` as it was. */
  method ParseArgs(args: seq<string>) returns (cmd: Command)
    ensures cmd == ParsedCommand(args)
  {
    var k := DefaultTermCount;
    var fastMode := false;
    var rest := SkipProgramName(args);
    for i := 0 to |rest|
      invariant Scan(rest[i..], k, fastMode) == ParsedCommand(args)
    {
      var arg := rest[i];
      assert rest[i..][1..] == rest[i + 1..];
      if NumPrefix <= arg {
        var parsed := ParseUsize(TrimStartMatches(arg, NumPrefix));
        if parsed.Some? {
          k := parsed.value;
        }
      } else if arg == FastFlag {
        fastMode := true;
      } else if IsHelpFlag(arg) {
        return ShowHelp;
      }
    }
    cmd := Compute(k, fastMode);
  }

  /** Reference definition of the term count: the value of the LAST `--num=` argument
      that parses, or `k` when none does. */
  function LastValidNum(rest: seq<string>, k: nat): nat
    decreases |rest|
  {
    if rest == [] then k
    else
      match NumArgValue(rest[|rest| - 1])
      case Some(n) => n
      case None => LastValidNum(rest[..|rest| - 1], k)
  }

  lemma {:induction false} LastValidNumCons(arg: string, rest: seq<string>, k: nat)
    ensures LastValidNum([arg] + rest, k) == LastValidNum(rest, NumArgValue(arg).GetOr(k))
    decreases |rest|
  {
    var whole := [arg] + rest;
    if rest == [] {
      assert whole[..|whole| - 1] == [];
    } else {
      assert whole[|whole| - 1] == rest[|rest| - 1];
      assert whole[..|whole| - 1] == [arg] + rest[..|rest| - 1];
      LastValidNumCons(arg, rest[..|rest| - 1], k);
    }
  }

  lemma {:induction false} ScanHelp(rest: seq<string>, k: nat, fastMode: bool)
    ensures Scan(rest, k, fastMode) == ShowHelp <==>
            exists i :: 0 <= i < |rest| && IsHelpFlag(rest[i])
    decreases |rest|
  {
    if rest != [] {
      var next := NumArgValue(rest[0]).GetOr(k);
      ScanHelp(rest[1..], next, fastMode);
      ScanHelp(rest[1..], k, true);
      ScanHelp(rest[1..], k, fastMode);
      assert forall i :: 1 <= i < |rest| ==> rest[i] == rest[1..][i - 1];
      if NumPrefix <= rest[0] {
        NumArgIsNoFlag(rest[0]);
      }
    }
  }

  lemma {:induction false} ScanWithoutHelp(rest: seq<string>, k: nat, fastMode: bool)
    requires forall i :: 0 <= i < |rest| ==> !IsHelpFlag(rest[i])
    ensures Scan(rest, k, fastMode) == Compute(LastValidNum(rest, k), fastMode || FastFlag in rest)
    decreases |rest|
  {
    if rest != [] {
      var arg := rest[0];
      assert rest == [arg] + rest[1..];
      LastValidNumCons(arg, rest[1..], k);
      if NumPrefix <= arg {
        NumArgIsNoFlag(arg);
        ScanWithoutHelp(rest[1..], NumArgValue(arg).GetOr(k), fastMode);
      } else {
        assert NumArgValue(arg) == None;
        if arg == FastFlag {
          ScanWithoutHelp(rest[1..], k, true);
        } else {
          ScanWithoutHelp(rest[1..], k, fastMode);
        }
      }
    }
  }

  /** A help flag anywhere after the program name ends the scan with the help, and
      only a help flag does. */
  lemma HelpIffFlagPresent(args: seq<string>)
    ensures ParsedCommand(args) == ShowHelp <==>
            exists i :: 1 <= i < |args| && IsHelpFlag(args[i])
  {
    var rest := SkipProgramName(args);
    ScanHelp(rest, DefaultTermCount, false);
    assert forall i :: 1 <= i < |args| ==> args[i] == rest[i - 1];
    if exists i :: 0 <= i < |rest| && IsHelpFlag(rest[i]) {
      var i :| 0 <= i < |rest| && IsHelpFlag(rest[i]);
      assert args[i + 1] == rest[i];
    }
  }

  /** Without a help flag, the term count is that of the last `--num=` argument that
      parses (10 when none does: no arguments, or only invalid ones), and the fast mode
      is on exactly when some argument after the program name is `--fast`. */
  lemma ComputeWithoutHelp(args: seq<string>)
    requires forall i :: 1 <= i < |args| ==> !IsHelpFlag(args[i])
    ensures ParsedCommand(args) ==
            Compute(LastValidNum(SkipProgramName(args), DefaultTermCount),
                    FastFlag in SkipProgramName(args))
  {
    var rest := SkipProgramName(args);
    forall i | 0 <= i < |rest| ensures !IsHelpFlag(rest[i]) {
      assert rest[i] == args[i + 1];
    }
    ScanWithoutHelp(rest, DefaultTermCount, false);
  }
}
