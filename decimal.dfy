/**
  Decimal rendering of natural numbers, the two-digit field of Python's
  integer format specification `f'{n:02}'`, and the inverse parse of a digit
  string.

  The rendering functions carry no postconditions of their own; their shape
  is stated by the lemmas below, so that a formula mentioning a rendered
  string does not drag the whole rendering theory along with it.
*/
module Decimal {

  predicate IsDigit(c: char) {
    '0' <= c <= '9'
  }

  predicate AllDigits(s: string) {
    forall i :: 0 <= i < |s| ==> IsDigit(s[i])
  }

  function DigitChar(d: nat): (c: char)
    requires d < 10
    ensures IsDigit(c) && DigitValue(c) == d
  {
    (d + '0' as int) as char
  }

  function DigitValue(c: char): nat
    requires IsDigit(c)
  {
    c as int - '0' as int
  }

  /** The shortest decimal spelling of `n` (Python's `str(n)` for `n >= 0`). */
  function Digits(n: nat): string
    decreases n
  {
    if n < 10 then [DigitChar(n)] else Digits(n / 10) + [DigitChar(n % 10)]
  }

  /** The value of a string of decimal digits; leading zeros are allowed. */
  function ParseDigits(s: string): nat
    requires AllDigits(s)
    decreases |s|
  {
    if s == [] then 0 else ParseDigits(s[..|s| - 1]) * 10 + DigitValue(s[|s| - 1])
  }

  /**
    Python's `format(n, '02')` for an int: at least two digits, a leading
    zero for 0..9; a negative value is its sign followed by its digits, since
    the sign counts towards the width.
  */
  function Pad2(n: int): string {
    if n < 0 then "-" + Digits(-n)
    else if n < 10 then "0" + Digits(n)
    else Digits(n)
  }

  /** A spelling is non-empty, all digits, and one (two) characters long exactly below 10 (100). */
  lemma {:induction false} DigitsShape(n: nat)
    ensures |Digits(n)| >= 1 && AllDigits(Digits(n))
    ensures |Digits(n)| == 1 <==> n < 10
    ensures |Digits(n)| <= 2 <==> n < 100
    decreases n
  {
    if n >= 10 {
      DigitsShape(n / 10);
    }
  }

  lemma {:induction false} ParseDigitsOfDigits(n: nat)
    ensures AllDigits(Digits(n)) && ParseDigits(Digits(n)) == n
    decreases n
  {
    DigitsShape(n);
    var s := Digits(n);
    if n < 10 {
      assert s[..|s| - 1] == [];
    } else {
      assert s[..|s| - 1] == Digits(n / 10);
      ParseDigitsOfDigits(n / 10);
    }
  }

  /** A leading zero does not change the value of a digit string. */
  lemma {:induction false} LeadingZero(s: string)
    requires AllDigits(s)
    ensures AllDigits("0" + s) && ParseDigits("0" + s) == ParseDigits(s)
    decreases |s|
  {
    var z := "0" + s;
    if s == [] {
      assert z[..|z| - 1] == [];
    } else {
      assert z[..|z| - 1] == "0" + s[..|s| - 1];
      assert z[|z| - 1] == s[|s| - 1];
      LeadingZero(s[..|s| - 1]);
    }
  }

  /**
    The two-digit field of a non-negative value is all digits, reads back as
    the value, and is two characters long exactly below 100.
  */
  lemma {:induction false} Pad2RoundTrip(n: nat)
    ensures AllDigits(Pad2(n)) && ParseDigits(Pad2(n)) == n
    ensures |Pad2(n)| >= 2 && (|Pad2(n)| == 2 <==> n < 100)
  {
    DigitsShape(n);
    ParseDigitsOfDigits(n);
    if n < 10 {
      LeadingZero(Digits(n));
    }
  }
}
