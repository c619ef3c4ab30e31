/**
  The verbosity level: `compute_verbose` folds the values collected for
  the `verbose` option into the process-wide level, here an explicit
  input and result instead of a global. Each empty entry resets the level
  to 0; every other entry adds its `atoi` value.
 */
module Verbosity {

  /** The characters C's `isspace` accepts in the "C" locale. */
  predicate IsSpace(c: char)
  {
    c == ' ' || c == '\t' || c == '\n' || c == '\r' || c == '\U{000B}' || c == '\U{000C}'
  }

  predicate IsDigit(c: char)
  {
    '0' <= c <= '9'
  }

  function DigitValue(c: char): nat
    requires IsDigit(c)
  {
    c as int - '0' as int
  }

  predicate AllDigits(d: string)
  {
    forall i | 0 <= i < |d| :: IsDigit(d[i])
  }

  /** `s` without its leading white space. */
  function DropSpaces(s: string): (r: string)
    ensures |r| <= |s| && r == s[|s| - |r|..]
    ensures forall i | 0 <= i < |s| - |r| :: IsSpace(s[i])
    ensures |r| == 0 || !IsSpace(r[0])
  {
    if |s| > 0 && IsSpace(s[0]) then
      var r := DropSpaces(s[1..]);
      assert s[1..][|s| - 1 - |r|..] == s[|s| - |r|..];
      assert forall i | 1 <= i < |s| - |r| :: s[i] == s[1..][i - 1];
      r
    else s
  }

  /** The longest prefix of `s` made of decimal digits. */
  function LeadingDigits(s: string): (d: string)
    ensures d <= s
    ensures AllDigits(d)
    ensures |d| == |s| || !IsDigit(s[|d|])
  {
    if |s| > 0 && IsDigit(s[0]) then [s[0]] + LeadingDigits(s[1..]) else []
  }

  /** The value of a digit string, most significant digit first. */
  function DigitsValue(d: string): nat
    requires AllDigits(d)
  {
    if |d| == 0 then 0 else DigitsValue(d[..|d| - 1]) * 10 + DigitValue(d[|d| - 1])
  }

  /** The value `atoi` reads once leading white space is gone: an optional sign, then digits. */
  function SignedValue(t: string): (r: int)
    ensures !StartsNumber(t) ==> r == 0
    ensures r < 0 ==> |t| > 0 && t[0] == '-'
  {
    if |t| > 0 && t[0] == '-' then -(DigitsValue(LeadingDigits(t[1..])) as int)
    else if |t| > 0 && t[0] == '+' then DigitsValue(LeadingDigits(t[1..]))
    else DigitsValue(LeadingDigits(t))
  }

  /** `t` starts with a digit, or with a sign and then a digit. */
  predicate StartsNumber(t: string)
  {
    && |t| > 0
    && (IsDigit(t[0]) || ((t[0] == '-' || t[0] == '+') && |t| > 1 && IsDigit(t[1])))
  }

  /**
    C's `atoi`: skip white space, read an optional sign and then as many
    decimal digits as follow; anything after them is ignored, and a string
    without digits there gives 0. The C result is an `int`, whose overflow
    is undefined behaviour; here the value is unbounded.
   */
  function Atoi(s: string): (r: int)
    ensures !StartsNumber(DropSpaces(s)) ==> r == 0
    ensures r < 0 ==> |DropSpaces(s)| > 0 && DropSpaces(s)[0] == '-'
  {
    SignedValue(DropSpaces(s))
  }

  function DigitChar(n: nat): (c: char)
    requires n < 10
    ensures IsDigit(c) && DigitValue(c) == n
  {
    ('0' as int + n) as char
  }

  /** The decimal digits of `n`, without leading zeros. */
  function Digits(n: nat): (d: string)
    ensures |d| > 0 && AllDigits(d)
  {
    if n < 10 then [DigitChar(n)] else Digits(n / 10) + [DigitChar(n % 10)]
  }

  /** The usual decimal spelling of an integer, with a leading '-' when it is negative. */
  function DecimalString(n: int): string
  {
    if n < 0 then "-" + Digits(-n) else Digits(n)
  }

  lemma {:induction false} DigitsValueOfDigits(n: nat)
    ensures DigitsValue(Digits(n)) == n
  {
    if n >= 10 {
      var d := Digits(n);
      assert d[..|d| - 1] == Digits(n / 10);
      DigitsValueOfDigits(n / 10);
    }
  }

  lemma {:induction false} LeadingDigitsOfDigits(d: string, rest: string)
    requires AllDigits(d)
    requires |rest| == 0 || !IsDigit(rest[0])
    ensures LeadingDigits(d + rest) == d
  {
    if |d| > 0 {
      assert (d + rest)[1..] == d[1..] + rest;
      LeadingDigitsOfDigits(d[1..], rest);
    } else {
      assert d + rest == rest;
    }
  }

  /** A string that starts with a digit reads as its leading digits. */
  lemma AtoiOfDigitStart(s: string)
    requires |s| > 0 && IsDigit(s[0])
    ensures Atoi(s) == DigitsValue(LeadingDigits(s))
  {
    assert !IsSpace(s[0]) && s[0] != '-' && s[0] != '+';
    assert DropSpaces(s) == s;
  }

  /** A non-empty digit string followed by a non-digit reads as its value. */
  lemma AtoiOfDigitString(d: string, rest: string)
    requires |d| > 0 && AllDigits(d)
    requires |rest| == 0 || !IsDigit(rest[0])
    ensures Atoi(d + rest) == DigitsValue(d)
  {
    assert (d + rest)[0] == d[0];
    AtoiOfDigitStart(d + rest);
    LeadingDigitsOfDigits(d, rest);
  }

  /** The same behind a minus sign. */
  lemma AtoiOfNegatedDigitString(d: string, rest: string)
    requires AllDigits(d)
    requires |rest| == 0 || !IsDigit(rest[0])
    ensures Atoi("-" + d + rest) == -(DigitsValue(d) as int)
  {
    var s := "-" + d + rest;
    assert DropSpaces(s) == s;
    assert s[1..] == d + rest;
    LeadingDigitsOfDigits(d, rest);
  }

  /** The same behind a plus sign, which `atoi` accepts and ignores. */
  lemma AtoiOfPlusDigitString(d: string, rest: string)
    requires AllDigits(d)
    requires |rest| == 0 || !IsDigit(rest[0])
    ensures Atoi("+" + d + rest) == DigitsValue(d)
  {
    var s := "+" + d + rest;
    assert DropSpaces(s) == s;
    assert s[1..] == d + rest;
    LeadingDigitsOfDigits(d, rest);
  }

  /** The optional sign in front of the digits `atoi` reads. */
  datatype Sign = Unsigned | Plus | Minus

  function SignText(sign: Sign): string
  {
    match sign
    case Unsigned => ""
    case Plus => "+"
    case Minus => "-"
  }

  /**
    An optionally signed decimal digit string, followed by text that does
    not continue it, reads as its value, negated behind a '-'. Without a
    sign the digits must be there: an empty unsigned entry is not a number.
   */
  lemma AtoiOfSignedDigitString(sign: Sign, d: string, rest: string)
    requires AllDigits(d) && (|d| > 0 || sign != Unsigned)
    requires |rest| == 0 || !IsDigit(rest[0])
    ensures Atoi(SignText(sign) + (d + rest)) == if sign == Minus then -(DigitsValue(d) as int) else DigitsValue(d)
  {
    match sign
    case Unsigned => AtoiOfUnsignedDigitString(d, rest);
    case Plus => AtoiOfPlusSignText(d, rest);
    case Minus => AtoiOfMinusSignText(d, rest);
  }

  /** The three cases, each in the form the case split above consumes. */
  lemma AtoiOfUnsignedDigitString(d: string, rest: string)
    requires |d| > 0 && AllDigits(d)
    requires |rest| == 0 || !IsDigit(rest[0])
    ensures Atoi(SignText(Unsigned) + (d + rest)) == DigitsValue(d)
  {
    assert SignText(Unsigned) + (d + rest) == d + rest;
    AtoiOfDigitString(d, rest);
  }

  lemma AtoiOfPlusSignText(d: string, rest: string)
    requires AllDigits(d)
    requires |rest| == 0 || !IsDigit(rest[0])
    ensures Atoi(SignText(Plus) + (d + rest)) == DigitsValue(d)
  {
    assert SignText(Plus) + (d + rest) == "+" + d + rest;
    AtoiOfPlusDigitString(d, rest);
  }

  lemma AtoiOfMinusSignText(d: string, rest: string)
    requires AllDigits(d)
    requires |rest| == 0 || !IsDigit(rest[0])
    ensures Atoi(SignText(Minus) + (d + rest)) == -(DigitsValue(d) as int)
  {
    assert SignText(Minus) + (d + rest) == "-" + d + rest;
    AtoiOfNegatedDigitString(d, rest);
  }

  /** `atoi` reads back the decimal spelling of any integer, whatever non-digit text follows it. */
  lemma AtoiOfDecimalString(n: int, rest: string)
    requires |rest| == 0 || !IsDigit(rest[0])
    ensures Atoi(DecimalString(n) + rest) == n
  {
    if n < 0 {
      DigitsValueOfDigits(-n);
      AtoiOfNegatedDigitString(Digits(-n), rest);
    } else {
      DigitsValueOfDigits(n);
      AtoiOfDigitString(Digits(n), rest);
    }
  }

  /** Leading white space does not change what `atoi` reads. */
  lemma {:induction false} AtoiSkipsSpaces(ws: string, s: string)
    requires forall i | 0 <= i < |ws| :: IsSpace(ws[i])
    ensures Atoi(ws + s) == Atoi(s)
    decreases |ws|
  {
    if |ws| > 0 {
      assert (ws + s)[0] == ws[0];
      assert (ws + s)[1..] == ws[1..] + s;
      AtoiSkipsSpaces(ws[1..], s);
    } else {
      assert ws + s == s;
    }
  }

  /** Text that does not start with a sign or a digit (after white space) reads as 0. */
  lemma AtoiOfNonNumeric(s: string)
    requires |s| > 0 && !IsSpace(s[0]) && !IsDigit(s[0]) && s[0] != '-' && s[0] != '+'
    ensures Atoi(s) == 0
  {
  }

  /** The sum of the `atoi` values of all entries. */
  function SumAtoi(entries: seq<string>): int
  {
    if |entries| == 0 then 0 else Atoi(entries[0]) + SumAtoi(entries[1..])
  }

  /** Some entry is empty. */
  predicate HasReset(entries: seq<string>)
  {
    |entries| > 0 && (|entries[0]| == 0 || HasReset(entries[1..]))
  }

  /** The entries after the last empty one. */
  function AfterLastReset(entries: seq<string>): seq<string>
    requires HasReset(entries)
  {
    if HasReset(entries[1..]) then AfterLastReset(entries[1..]) else entries[1..]
  }

  /**
    The loop of `compute_verbose`, one entry at a time from the first. The
    level that results is the sum of the values after the last empty entry,
    or, when no entry is empty, the prior level plus the sum of all values.
   */
  function ComputeVerbose(level: int, entries: seq<string>): (r: int)
    ensures HasReset(entries) ==> r == SumAtoi(AfterLastReset(entries))
    ensures !HasReset(entries) ==> r == level + SumAtoi(entries)
    decreases |entries|
  {
    if |entries| == 0 then level
    else
      var next := if |entries[0]| == 0 then 0 else level + Atoi(entries[0]);
      ComputeVerbose(next, entries[1..])
  }

  /** Without an empty entry the level grows by the sum of the entries' values. */
  lemma {:induction false} ComputeVerboseAddsAll(level: int, entries: seq<string>)
    requires forall i | 0 <= i < |entries| :: |entries[i]| > 0
    ensures ComputeVerbose(level, entries) == level + SumAtoi(entries)
    decreases |entries|
  {
    if |entries| > 0 {
      var tail := entries[1..];
      forall i | 0 <= i < |tail| ensures |tail[i]| > 0 {
        assert tail[i] == entries[i + 1];
      }
      var next := level + Atoi(entries[0]);
      ComputeVerboseAddsAll(next, tail);
      assert ComputeVerbose(level, entries) == ComputeVerbose(next, tail);
    }
  }

  /** A trailing empty entry leaves the level at 0, whatever came before. */
  lemma {:induction false} ComputeVerboseEndsAtReset(level: int, entries: seq<string>)
    requires |entries| > 0 && |entries[|entries| - 1]| == 0
    ensures ComputeVerbose(level, entries) == 0
    decreases |entries|
  {
    if |entries| > 1 {
      var next := if |entries[0]| == 0 then 0 else level + Atoi(entries[0]);
      assert entries[1..][|entries| - 2] == entries[|entries| - 1];
      ComputeVerboseEndsAtReset(next, entries[1..]);
    }
  }

  /** An empty entry forgets both the prior level and every entry before it. */
  lemma {:induction false} ComputeVerboseForgetsBeforeReset(level: int, entries: seq<string>, k: nat)
    requires k < |entries| && |entries[k]| == 0
    ensures ComputeVerbose(level, entries) == ComputeVerbose(0, entries[k + 1..])
    decreases k
  {
    if k > 0 {
      var next := if |entries[0]| == 0 then 0 else level + Atoi(entries[0]);
      assert entries[1..][k - 1..] == entries[k..];
      ComputeVerboseForgetsBeforeReset(next, entries[1..], k - 1);
      assert entries[1..][k..] == entries[k + 1..];
    }
  }

  /** The result is the sum of the entries after the last empty one. */
  lemma ComputeVerboseAfterLastReset(level: int, entries: seq<string>, k: nat)
    requires k < |entries| && |entries[k]| == 0
    requires forall j | k < j < |entries| :: |entries[j]| > 0
    ensures ComputeVerbose(level, entries) == SumAtoi(entries[k + 1..])
  {
    ComputeVerboseForgetsBeforeReset(level, entries, k);
    var tail := entries[k + 1..];
    forall i | 0 <= i < |tail| ensures |tail[i]| > 0 {
      assert tail[i] == entries[k + 1 + i];
    }
    ComputeVerboseAddsAll(0, tail);
  }

  /**
    The vectors `main` builds for the option: a vector of one empty string
    with "0" (the default) or "1" (the implicit value) appended.
   */
  const DefaultVerbose: seq<string> := ["", "0"]
  const ImplicitVerbose: seq<string> := ["", "1"]

  /** The default yields level 0 and the implicit value level 1, whatever the level was before. */
  lemma DefaultAndImplicitLevels(level: int)
    ensures ComputeVerbose(level, DefaultVerbose) == 0
    ensures ComputeVerbose(level, ImplicitVerbose) == 1
  {
    AtoiOfDecimalString(0, "");
    AtoiOfDecimalString(1, "");
    assert DecimalString(0) + "" == "0";
    assert DecimalString(1) + "" == "1";
    assert DefaultVerbose[1..] == ["0"];
    assert ImplicitVerbose[1..] == ["1"];
  }
}
