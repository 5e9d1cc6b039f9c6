/**
  Decimal rendering of integers, as a JavaScript template literal renders a whole
  number (`${n}`) of magnitude below 10^21: optional minus sign, then the digits
  without leading zeros. (From 10^21 on JavaScript switches to exponent notation,
  which this rendering does not follow; stock counts never come near it.) The
  parser is its inverse and is used to show that an error message carries the exact
  number it was built from.
 */
module Decimal {
  import opened Wrappers

  predicate IsDigit(c: char) {
    '0' <= c <= '9'
  }

  predicate AllDigits(s: string) {
    forall i :: 0 <= i < |s| ==> IsDigit(s[i])
  }

  function DigitChar(d: int): (c: char)
    requires 0 <= d < 10
    ensures IsDigit(c) && c as int - '0' as int == d
  {
    ('0' as int + d) as char
  }

  /** The decimal digits of `n`, most significant first. */
  function NatToDecimal(n: nat): (s: string)
    ensures |s| >= 1 && AllDigits(s)
    ensures (s[0] == '0') == (n == 0)
  {
    if n < 10 then [DigitChar(n)] else NatToDecimal(n / 10) + [DigitChar(n % 10)]
  }

  function IntToDecimal(n: int): (s: string)
    ensures |s| >= 1 && (s[0] == '-') == (n < 0)
    ensures AllDigits(if n < 0 then s[1..] else s)
  {
    if n < 0 then "-" + NatToDecimal(-n) else NatToDecimal(n)
  }

  /** The value of a string of digits, read left to right. */
  function DigitsValue(s: string): (v: nat)
    requires AllDigits(s)
    ensures |s| == 1 ==> v == s[0] as int - '0' as int
  {
    if s == [] then 0
    else DigitsValue(s[..|s| - 1]) * 10 + (s[|s| - 1] as int - '0' as int)
  }

  /** Reads an optional minus sign followed by at least one digit. */
  function ParseInt(s: string): (r: Option<int>) {
    if |s| >= 2 && s[0] == '-' && AllDigits(s[1..]) then Some(-(DigitsValue(s[1..]) as int))
    else if |s| >= 1 && AllDigits(s) then Some(DigitsValue(s))
    else None
  }

  lemma {:induction false} DigitsValueOfNatToDecimal(n: nat)
    ensures DigitsValue(NatToDecimal(n)) == n
  {
    if n >= 10 {
      var s := NatToDecimal(n);
      assert s[..|s| - 1] == NatToDecimal(n / 10);
      DigitsValueOfNatToDecimal(n / 10);
    }
  }

  /** Rendering and then reading back gives the same number, for every integer. */
  lemma ParseIntOfIntToDecimal(n: int)
    ensures ParseInt(IntToDecimal(n)) == Some(n)
  {
    var s := IntToDecimal(n);
    if n < 0 {
      var t := NatToDecimal(-n);
      assert s == "-" + t && s[1..] == t;
      DigitsValueOfNatToDecimal(-n);
      assert |s| >= 2 && s[0] == '-' && AllDigits(s[1..]);
    } else {
      DigitsValueOfNatToDecimal(n);
      assert IsDigit(s[0]);
    }
  }
}
