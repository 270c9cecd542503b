/**
 * Python's `str(n)` on an integer: the decimal spelling used as the key of
 * a user in the `users` dictionary of the data file.
 */
module Decimal {

  /** The character of a single decimal digit. */
  function DigitChar(d: nat): (c: char)
    requires d < 10
    ensures '0' <= c <= '9'
    ensures c as int - '0' as int == d
  {
    ('0' as int + d) as char
  }

  /** The decimal digits of a natural number, most significant first, no leading zeros. */
  function Digits(n: nat): (s: string)
    ensures 1 <= |s|
    ensures n < 10 <==> |s| == 1
    ensures forall i :: 0 <= i < |s| ==> '0' <= s[i] <= '9'
    ensures s[0] == '0' ==> n == 0
    decreases n
  {
    if n < 10 then [DigitChar(n)] else Digits(n / 10) + [DigitChar(n % 10)]
  }

  /** `str(n)`: a minus sign for negative numbers, then the digits of the magnitude. */
  function Str(n: int): (s: string)
    ensures 1 <= |s|
    ensures s[0] == '-' <==> n < 0
  {
    if n < 0 then "-" + Digits(-n) else Digits(n)
  }

  /** The value a string of decimal digits denotes (the reading back of `Digits`). */
  function Value(s: string): (v: nat)
    requires forall i :: 0 <= i < |s| ==> '0' <= s[i] <= '9'
    decreases |s|
  {
    if s == [] then 0 else 10 * Value(s[..|s| - 1]) + (s[|s| - 1] as int - '0' as int)
  }

  /** Reading the digits of `n` back gives `n`. */
  lemma {:induction false} ValueOfDigits(n: nat)
    ensures Value(Digits(n)) == n
    decreases n
  {
    var s := Digits(n);
    if n >= 10 {
      assert s[..|s| - 1] == Digits(n / 10);
      ValueOfDigits(n / 10);
    }
  }

  /** Reading back `str(n)`: after the sign, the digits denote the magnitude of `n`. */
  lemma StrValue(n: int)
    ensures n < 0 ==> Str(n)[1..] == Digits(-n) && Value(Digits(-n)) == -n
    ensures n >= 0 ==> Str(n) == Digits(n) && Value(Digits(n)) == n
  {
    if n < 0 {
      ValueOfDigits(-n);
    } else {
      ValueOfDigits(n);
    }
  }

  /** Two integers with the same decimal spelling are equal: distinct users get distinct keys. */
  lemma StrInjective(a: int, b: int)
    requires Str(a) == Str(b)
    ensures a == b
  {
    StrValue(a);
    StrValue(b);
    assert a < 0 <==> b < 0;
  }
}
