/** Decimal numerals: how `strtol(s, &t, 10)` reads a whole atom, and the
    `%d` rendering used to build temporary names. */
module Decimal {
  import opened Results

  predicate IsDigit(c: char) {
    '0' <= c <= '9'
  }

  predicate AllDigits(s: string) {
    forall i | 0 <= i < |s| :: IsDigit(s[i])
  }

  /** The characters C's isspace accepts, which strtol skips before a numeral. */
  predicate IsSpace(c: char) {
    c == ' ' || c == '\t' || c == '\n' || c == '\U{B}' || c == '\U{C}' || c == '\r'
  }

  function DigitValue(c: char): (d: nat)
    requires IsDigit(c)
    ensures d < 10
  {
    (c as int) - ('0' as int)
  }

  function DigitChar(d: nat): (c: char)
    requires d < 10
    ensures IsDigit(c) && DigitValue(c) == d
  {
    ('0' as int + d) as char
  }

  /** The value of a string of decimal digits, most significant first. */
  function DigitsValue(s: string): nat
    requires AllDigits(s)
  {
    if s == [] then 0 else DigitsValue(s[..|s| - 1]) * 10 + DigitValue(s[|s| - 1])
  }

  /** `%d` on a natural number: no sign, no leading zeros. */
  function NatToString(n: nat): (s: string)
    ensures |s| > 0 && AllDigits(s)
  {
    if n < 10 then [DigitChar(n)] else NatToString(n / 10) + [DigitChar(n % 10)]
  }

  /** `%d` on any integer. */
  function IntToString(n: int): string {
    if n < 0 then "-" + NatToString(-n) else NatToString(n)
  }

  /** What strtol makes of the whole of `s`: Some(value) exactly when, after
      optional leading white space and an optional sign, the rest of `s` is a
      non-empty run of digits (so the end pointer lands on the terminating NUL);
      None when strtol would stop early or read no digits at all. The value is
      the mathematical one, before strtol saturates it. */
  function WholeNumeral(s: string): (r: Option<int>)
    ensures r.Some? ==> |s| > 0
    ensures |s| > 0 && AllDigits(s) ==> r == Some(DigitsValue(s) as int)
  {
    if s == [] then None
    else if IsSpace(s[0]) then WholeNumeral(s[1..])
    else if s[0] == '-' || s[0] == '+' then
      var digits := s[1..];
      if digits != [] && AllDigits(digits) then
        Some(if s[0] == '-' then 0 - DigitsValue(digits) else DigitsValue(digits) as int)
      else None
    else if AllDigits(s) then Some(DigitsValue(s))
    else None
  }

  lemma {:induction false} NatToStringRoundTrip(n: nat)
    ensures DigitsValue(NatToString(n)) == n
  {
    var s := NatToString(n);
    if n >= 10 {
      NatToStringRoundTrip(n / 10);
      assert s[..|s| - 1] == NatToString(n / 10);
    }
  }

  /** Distinct numbers print differently: the `%d` rendering is injective. */
  lemma NatToStringInjective(m: nat, n: nat)
    ensures NatToString(m) == NatToString(n) ==> m == n
  {
    NatToStringRoundTrip(m);
    NatToStringRoundTrip(n);
  }

  /** Reading back what `%d` wrote gives the number again. */
  lemma WholeNumeralOfIntToString(n: int)
    ensures WholeNumeral(IntToString(n)) == Some(n)
  {
    var s := IntToString(n);
    if n < 0 {
      NatToStringRoundTrip(-n);
      assert s[1..] == NatToString(-n);
    } else {
      NatToStringRoundTrip(n);
      assert !IsSpace(s[0]) && s[0] != '-' && s[0] != '+';
    }
  }

  /** An atom that strtol reads completely starts with a sign, a digit or
      white space; in particular no numeral begins with '#'. */
  lemma WholeNumeralFirstChar(s: string)
    requires WholeNumeral(s).Some?
    ensures IsSpace(s[0]) || s[0] == '-' || s[0] == '+' || IsDigit(s[0])
  {
  }
}
