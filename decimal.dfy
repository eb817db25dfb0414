/**
 * Decimal text of integers, as written by a C++ `stringstream` (`ss << n`):
 * an optional '-' followed by the digits, without leading zeros.
 * Used for the endpoint labels of packet traces and for FIFO names.
 */
module Decimal {

  predicate IsDigit(c: char) {
    '0' <= c <= '9'
  }

  predicate AllDigits(s: string) {
    forall i :: 0 <= i < |s| ==> IsDigit(s[i])
  }

  function DigitChar(d: nat): (c: char)
    requires d < 10
    ensures IsDigit(c) && (c as int) - ('0' as int) == d
  {
    (d + '0' as int) as char
  }

  function DigitValue(c: char): nat
    requires IsDigit(c)
  {
    (c as int) - ('0' as int)
  }

  /** Decimal digits of `n`, most significant first. */
  function NatToString(n: nat): (s: string)
    ensures |s| >= 1 && AllDigits(s)
    ensures n >= 10 <==> |s| >= 2
    decreases n
  {
    if n < 10 then [DigitChar(n)] else NatToString(n / 10) + [DigitChar(n % 10)]
  }

  /** What `ss << n` writes for an `int`. */
  function IntToString(n: int): (s: string)
    ensures |s| >= 1
  {
    if n < 0 then "-" + NatToString(-n) else NatToString(n)
  }

  /** The value of a string of digits (the inverse of `NatToString`). */
  function DigitsValue(s: string): nat
    requires AllDigits(s)
    decreases |s|
  {
    if s == [] then 0 else 10 * DigitsValue(s[..|s| - 1]) + DigitValue(s[|s| - 1])
  }

  lemma {:induction false} DigitsValueOfNatToString(n: nat)
    ensures DigitsValue(NatToString(n)) == n
    decreases n
  {
    if n >= 10 {
      var s := NatToString(n);
      assert s[..|s| - 1] == NatToString(n / 10);
      DigitsValueOfNatToString(n / 10);
    }
  }

  /** After the sign comes the magnitude's digits; a non-negative number starts with a digit. */
  lemma Magnitude(n: int)
    ensures n < 0 ==> IntToString(n)[0] == '-' && IntToString(n)[1..] == NatToString(-n)
    ensures n >= 0 ==> IntToString(n) == NatToString(n) && IsDigit(IntToString(n)[0])
  {
    if n < 0 {
      assert ("-" + NatToString(-n))[1..] == NatToString(-n);
    }
  }

  /** The first character tells the sign. */
  lemma SignMark(n: int)
    ensures n < 0 <==> IntToString(n)[0] == '-'
  {
    Magnitude(n);
  }

  /** The sign and the digits after it give back the number. */
  lemma ReadBack(n: int)
    ensures IntToString(n)[0] == '-' <==> n < 0
    ensures n < 0 ==> AllDigits(IntToString(n)[1..]) && DigitsValue(IntToString(n)[1..]) == -n
    ensures n >= 0 ==> AllDigits(IntToString(n)) && DigitsValue(IntToString(n)) == n
  {
    Magnitude(n);
    DigitsValueOfNatToString(if n < 0 then -n else n);
  }

  /** Distinct integers are written as distinct strings. */
  lemma IntToStringInjective(a: int, b: int)
    requires IntToString(a) == IntToString(b)
    ensures a == b
  {
    ReadBack(a);
    ReadBack(b);
  }

  /** A one-digit number is written as its single digit character. */
  lemma SingleDigitString(n: int)
    requires 0 <= n < 10
    ensures IntToString(n) == [DigitChar(n)]
  {
  }
}
