/** Decimal printing (%d) and parsing (strconv.ParseInt, strconv.Atoi) of int64 values. */
module Decimal {
  import opened Base
  import opened Int64

  predicate IsDigit(c: char) {
    '0' <= c <= '9'
  }

  predicate AllDigits(s: string) {
    forall i :: 0 <= i < |s| ==> IsDigit(s[i])
  }

  function DigitChar(d: int): (c: char)
    requires 0 <= d < 10
    ensures IsDigit(c) && DigitValue(c) == d
  {
    (d + 48) as char
  }

  function DigitValue(c: char): (d: int)
    requires IsDigit(c)
    ensures 0 <= d < 10
  {
    c as int - 48
  }

  function FormatNat(n: nat): (s: string)
    ensures |s| > 0 && AllDigits(s)
  {
    if n < 10 then [DigitChar(n)] else FormatNat(n / 10) + [DigitChar(n % 10)]
  }

  function Format(n: int): string {
    if n < 0 then "-" + FormatNat(-n) else FormatNat(n)
  }

  function NatValue(s: string): (n: int)
    requires AllDigits(s)
    ensures n >= 0
  {
    if s == "" then 0 else 10 * NatValue(s[..|s| - 1]) + DigitValue(s[|s| - 1])
  }

  /** strconv.ParseInt(s, 10, 64): an optional sign, at least one digit, and the int64 range. */
  function ParseInt64(s: string): Option<int64> {
    var signed := s != "" && (s[0] == '+' || s[0] == '-');
    var digits := if signed then s[1..] else s;
    if digits == "" || !AllDigits(digits) then
      None
    else
      var n := if signed && s[0] == '-' then -NatValue(digits) else NatValue(digits);
      if Fits(n) then Some(n) else None
  }

  lemma {:induction false} NatRoundTrip(n: nat)
    ensures NatValue(FormatNat(n)) == n
  {
    if n >= 10 {
      NatRoundTrip(n / 10);
      assert FormatNat(n)[..|FormatNat(n)| - 1] == FormatNat(n / 10);
    }
  }

  /** The value of a string of digits, each weighing ten times the one after it. */
  function Positional(s: string): (n: int)
    requires AllDigits(s)
  {
    if s == "" then 0 else (s[0] as int - '0' as int) * Tens(|s| - 1) + Positional(s[1..])
  }

  function Tens(n: nat): nat {
    if n == 0 then 1 else 10 * Tens(n - 1)
  }

  lemma {:induction false} NatValueIsPositional(s: string)
    requires AllDigits(s)
    ensures NatValue(s) == Positional(s)
  {
    if |s| == 1 {
      assert s[..0] == "" && s[1..] == "";
    } else if |s| > 1 {
      var init := s[..|s| - 1];
      NatValueIsPositional(init);
      PositionalSnoc(s);
    }
  }

  lemma {:induction false} PositionalSnoc(s: string)
    requires AllDigits(s) && s != ""
    ensures AllDigits(s[..|s| - 1])
    ensures Positional(s) == 10 * Positional(s[..|s| - 1]) + (s[|s| - 1] as int - '0' as int)
  {
    if |s| == 1 {
      assert s[..0] == "" && s[1..] == "";
    } else {
      PositionalSnoc(s[1..]);
      var init := s[..|s| - 1];
      assert s[1..][..|s| - 2] == init[1..];
      TimesTen(s[0] as int - '0' as int, Tens(|s| - 2));
    }
  }

  lemma TimesTen(d: int, t: int)
    ensures d * (10 * t) == 10 * (d * t)
  {
  }

  /** The value of the text of a number: an optional sign and at least one digit, and nothing else. */
  function Reads(s: string): Option<int> {
    if s != "" && s[0] == '+' then Magnitude(s[1..])
    else if s != "" && s[0] == '-' then
      var m := Magnitude(s[1..]);
      if m.Some? then Some(-m.value) else None
    else Magnitude(s)
  }

  function Magnitude(digits: string): Option<int> {
    if digits != "" && AllDigits(digits) then Some(Positional(digits)) else None
  }

  /** Exactly the text of numbers that fit an int64 is parsed, to their value. */
  lemma ParsedIff(s: string)
    ensures ParseInt64(s) == if Reads(s).Some? && Fits(Reads(s).value) then Some(Reads(s).value) else None
  {
    var digits := if s != "" && (s[0] == '+' || s[0] == '-') then s[1..] else s;
    if AllDigits(digits) {
      NatValueIsPositional(digits);
    }
  }

  /** Printing and parsing an int64 gives it back, negative values and the minimum included. */
  lemma RoundTrip(n: int64)
    ensures ParseInt64(Format(n)) == Some(n)
  {
    var m: int := n;
    if m >= 0 {
      NatRoundTrip(m);
    } else {
      NatRoundTrip(-m);
      assert Format(m)[1..] == FormatNat(-m);
    }
  }

  /** The printed form uses no character beyond the digits and a leading minus sign. */
  lemma FormatAlphabet(n: int)
    ensures Format(n) != ""
    ensures forall i :: 0 <= i < |Format(n)| ==> Format(n)[i] == '-' || IsDigit(Format(n)[i])
  {
  }
}
