/**
 * How the C library reads text: `isspace` in the "C" locale and `atoi`
 * (leading white space, an optional sign, then the longest run of digits;
 * 0 when there are none).
 */
module Text {
  import opened Decimal

  /** The six characters `isspace` accepts in the "C" locale. */
  predicate IsSpace(c: char) {
    c == ' ' || c == '\t' || c == '\n' || c == '\U{B}' || c == '\U{C}' || c == '\r'
  }

  /** `s` without its leading white space. */
  function SkipSpaces(s: string): (t: string)
    ensures |t| <= |s| && t == s[|s| - |t|..]
    ensures t == [] || !IsSpace(t[0])
    ensures forall i :: 0 <= i < |s| - |t| ==> IsSpace(s[i])
    decreases |s|
  {
    if s != [] && IsSpace(s[0]) then SkipSpaces(s[1..]) else s
  }

  /** The longest prefix of `s` made of digits. */
  function LeadingDigits(s: string): (d: string)
    ensures AllDigits(d) && d <= s
    ensures |d| == |s| || !IsDigit(s[|d|])
    decreases |s|
  {
    if s != [] && IsDigit(s[0]) then [s[0]] + LeadingDigits(s[1..]) else []
  }

  /** `atoi`, with unbounded integers. */
  function Atoi(s: string): (n: int)
    ensures n < 0 ==> SkipSpaces(s) != [] && SkipSpaces(s)[0] == '-'
    ensures AllDigits(s) ==> n == DigitsValue(s)
  {
    var t := SkipSpaces(s);
    var n := if t != [] && t[0] == '-' then -(DigitsValue(LeadingDigits(t[1..])) as int)
      else if t != [] && t[0] == '+' then DigitsValue(LeadingDigits(t[1..]))
      else DigitsValue(LeadingDigits(t));
    if AllDigits(s) && s != [] then NothingToSkip(s); LeadingDigitsOfDigits(s); n else n
  }

  lemma {:induction false} LeadingDigitsOfDigits(s: string)
    requires AllDigits(s)
    ensures LeadingDigits(s) == s
    decreases |s|
  {
    if s != [] {
      LeadingDigitsOfDigits(s[1..]);
    }
  }

  /** `atoi` reads back what `ss << n` writes. */
  lemma AtoiInvertsIntToString(n: int)
    ensures Atoi(IntToString(n)) == n
  {
    var s := IntToString(n);
    Magnitude(n);
    NothingToSkip(s);
    if n < 0 {
      LeadingDigitsOfDigits(NatToString(-n));
      DigitsValueOfNatToString(-n);
    } else {
      LeadingDigitsOfDigits(s);
      DigitsValueOfNatToString(n);
    }
  }

  /** Text that starts with a character other than white space is read from its start. */
  lemma NothingToSkip(s: string)
    requires s != [] && !IsSpace(s[0])
    ensures SkipSpaces(s) == s
  {
  }

  /** Text with no digit after the white space and sign reads as 0, as "terminate" does. */
  lemma AtoiOfWord(s: string)
    requires s != [] && !IsSpace(s[0]) && !IsDigit(s[0]) && s[0] != '-' && s[0] != '+'
    ensures Atoi(s) == 0
  {
  }
}
