/** Numbers written and read as decimal text, the way the C++ code does it. */
module Numbers {

  const DIGITS := "0123456789"
  const INT_MAX: int := 0x7FFF_FFFF

  function Decimal(n: nat): (r: string)
    ensures r != "" && forall i | 0 <= i < |r| :: r[i] in DIGITS
  {
    if n < 10 then [DIGITS[n]] else Decimal(n / 10) + [DIGITS[n % 10]]
  }

  function ConvertToString(n: int): string {
    if n < 0 then "-" + Decimal(-n) else Decimal(n)
  }

  /** Non-empty and made of digits only. */
  predicate IsNumerical(s: string) {
    s != "" && forall i | 0 <= i < |s| :: s[i] in DIGITS
  }

  function DigitValue(c: char): (d: nat)
    requires c in DIGITS
    ensures d < 10 && DIGITS[d] == c
  {
    c as int - '0' as int
  }

  function Value(s: string): nat
    requires forall i | 0 <= i < |s| :: s[i] in DIGITS
  {
    if s == "" then 0 else Value(s[..|s| - 1]) * 10 + DigitValue(s[|s| - 1])
  }

  /** A 32-bit signed number, or -1 where the text is not one. */
  function ConvertToInt(s: string): (r: int)
    ensures -INT_MAX - 1 <= r <= INT_MAX
  {
    if IsNumerical(s) then
      if Value(s) <= INT_MAX then Value(s) else -1
    else if s != "" && s[0] in "+-" && IsNumerical(s[1..]) then
      if s[0] == '+' && Value(s[1..]) <= INT_MAX then Value(s[1..])
      else if s[0] == '-' && Value(s[1..]) <= INT_MAX + 1 then 0 - Value(s[1..])
      else -1
    else -1
  }

  lemma ValueAppend(s: string, c: char)
    requires c in DIGITS && forall i | 0 <= i < |s| :: s[i] in DIGITS
    ensures Value(s + [c]) == Value(s) * 10 + DigitValue(c)
  {
    assert (s + [c])[..|s|] == s;
  }

  lemma {:induction false} ValueOfDecimal(n: nat)
    ensures Value(Decimal(n)) == n
  {
    if n >= 10 {
      ValueOfDecimal(n / 10);
      ValueAppend(Decimal(n / 10), DIGITS[n % 10]);
    } else {
      ValueAppend("", DIGITS[n]);
      assert "" + [DIGITS[n]] == [DIGITS[n]];
    }
  }

  lemma ReadsDigits(s: string)
    requires IsNumerical(s) && Value(s) <= INT_MAX
    ensures ConvertToInt(s) == Value(s)
  {
  }

  lemma ReadsMinus(digits: string)
    requires IsNumerical(digits) && Value(digits) <= INT_MAX + 1
    ensures ConvertToInt("-" + digits) == 0 - Value(digits)
  {
    var text := "-" + digits;
    assert text[0] == '-' && text[1..] == digits && !IsNumerical(text);
  }

  /** Writing a 32-bit number and reading it back. */
  lemma DecimalRoundTrip(n: int)
    requires -INT_MAX - 1 <= n <= INT_MAX
    ensures ConvertToInt(ConvertToString(n)) == n
  {
    if n < 0 {
      ValueOfDecimal(-n);
      ReadsMinus(Decimal(-n));
    } else {
      ValueOfDecimal(n);
      ReadsDigits(Decimal(n));
    }
  }

  lemma ReadsPlus(digits: string)
    requires IsNumerical(digits)
    ensures ConvertToInt("+" + digits) == if Value(digits) <= INT_MAX then Value(digits) else -1
  {
    var text := "+" + digits;
    assert text[0] == '+' && text[1..] == digits && !IsNumerical(text);
  }

  /** Numbers that 32 bits cannot hold, and text that is no number, read as -1. */
  lemma ReadsAsMinusOne(s: string, c: char)
    ensures IsNumerical(s) && Value(s) > INT_MAX ==> ConvertToInt(s) == -1
    ensures ConvertToInt("") == -1
    ensures c !in DIGITS && c !in "+-" ==> ConvertToInt([c] + s) == -1
  {
    assert ([c] + s)[0] == c;
  }

  /** Zeros in front do not count. */
  lemma {:induction false} LeadingZero(s: string)
    requires forall i | 0 <= i < |s| :: s[i] in DIGITS
    ensures forall i | 0 <= i < |s| + 1 :: ("0" + s)[i] in DIGITS
    ensures Value("0" + s) == Value(s)
  {
    assert DIGITS[0] == '0';
    if s == "" {
      ValueAppend("", '0');
      assert "" + ['0'] == "0" && "0" + s == "0";
    } else {
      LeadingZero(s[..|s| - 1]);
      assert ("0" + s)[..|s|] == "0" + s[..|s| - 1];
    }
  }
}
