/** Decimal digits of a natural number and back. */
module Decimal {
  predicate IsDigit(c: char) { '0' <= c <= '9' }

  function DigitChar(d: nat): char
    requires d < 10
  {
    ('0' as int + d) as char
  }

  function Digits(n: nat): (s: string)
    ensures s != [] && forall i :: 0 <= i < |s| ==> IsDigit(s[i])
    ensures s[0] == '0' ==> n == 0 && |s| == 1
  {
    if n < 10 then [DigitChar(n)] else Digits(n / 10) + [DigitChar(n % 10)]
  }

  function ToNat(digits: string): nat {
    if digits == [] then 0
    else
      var last := digits[|digits| - 1];
      10 * ToNat(digits[..|digits| - 1]) + (if IsDigit(last) then last as int - '0' as int else 0)
  }

  lemma {:induction false} DigitsRoundTrip(n: nat)
    ensures ToNat(Digits(n)) == n
  {
    if n < 10 {
      assert ToNat([DigitChar(n)]) == 10 * ToNat([DigitChar(n)][..0]) + n;
    } else {
      DigitsRoundTrip(n / 10);
      var s := Digits(n);
      assert s[..|s| - 1] == Digits(n / 10);
      assert s[|s| - 1] == DigitChar(n % 10);
    }
  }
}
