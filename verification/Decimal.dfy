/** Decimal text of integers: printing, and parsing with an optional sign. */
module Decimal {
  import opened Wrappers

  predicate IsDigit(c: char) {
    '0' <= c <= '9'
  }

  function DigitChar(d: nat): (c: char)
    requires d < 10
    ensures IsDigit(c) && c as int - '0' as int == d
  {
    ('0' as int + d) as char
  }

  /** The digits of `n`, most significant first, without leading zeros. */
  function ToDecimal(n: nat): (s: string)
    ensures |s| > 0 && forall c :: c in s ==> IsDigit(c)
  {
    if n < 10 then [DigitChar(n)] else ToDecimal(n / 10) + [DigitChar(n % 10)]
  }

  predicate AllDigits(s: string) {
    forall i :: 0 <= i < |s| ==> IsDigit(s[i])
  }

  function DigitsValue(s: string): nat
    requires AllDigits(s)
  {
    if s == "" then 0
    else DigitsValue(s[..|s| - 1]) * 10 + (s[|s| - 1] as int - '0' as int)
  }

  /** Parses an optional sign followed by at least one digit. */
  function ParseInt(s: string): Option<int> {
    var signed := s != "" && (s[0] == '-' || s[0] == '+');
    var digits := if signed then s[1..] else s;
    if digits == "" || !AllDigits(digits) then None
    else if signed && s[0] == '-' then Some(-(DigitsValue(digits) as int))
    else Some(DigitsValue(digits))
  }

  lemma {:induction false} DigitsOfDecimal(n: nat)
    ensures AllDigits(ToDecimal(n)) && DigitsValue(ToDecimal(n)) == n
  {
    if n < 10 {
      assert ToDecimal(n)[..0] == "";
    } else {
      DigitsOfDecimal(n / 10);
      assert ToDecimal(n)[..|ToDecimal(n)| - 1] == ToDecimal(n / 10);
    }
  }

  /** Printing and parsing is the identity on natural numbers. */
  lemma ParsePrinted(n: nat)
    ensures ParseInt(ToDecimal(n)) == Some(n)
  {
    DigitsOfDecimal(n);
    assert ToDecimal(n)[0] in ToDecimal(n);
  }
}
