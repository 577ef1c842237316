/** Decimal numerals: `str(n)`, `int(s)` and `isdigit`, on the ASCII digits. Reading a printed
    number gives it back. */
module Decimal {

  const DIGITS := "0123456789"

  predicate IsDigit(c: char) {
    '0' <= c <= '9'
  }

  predicate AllDigits(s: string) {
    forall i :: 0 <= i < |s| ==> IsDigit(s[i])
  }

  /** `s.isdigit()`. */
  predicate IsDigits(s: string) {
    s != "" && AllDigits(s)
  }

  function ToDecimal(n: nat): string {
    if n < 10 then [DIGITS[n]] else ToDecimal(n / 10) + [DIGITS[n % 10]]
  }

  function FromDecimal(s: string): nat
    requires AllDigits(s)
  {
    if s == "" then 0 else 10 * FromDecimal(s[..|s| - 1]) + (s[|s| - 1] - '0') as nat
  }

  lemma DigitRoundTrip(d: nat)
    requires d < 10
    ensures IsDigit(DIGITS[d]) && (DIGITS[d] - '0') as nat == d
  {
  }

  lemma {:induction false} RoundTrip(n: nat)
    ensures IsDigits(ToDecimal(n)) && FromDecimal(ToDecimal(n)) == n
  {
    hide IsDigit;
    DigitRoundTrip(n % 10);
    if n >= 10 {
      RoundTrip(n / 10);
      assert ToDecimal(n)[..|ToDecimal(n)| - 1] == ToDecimal(n / 10);
    } else {
      assert ToDecimal(n)[..0] == "";
    }
  }
}
