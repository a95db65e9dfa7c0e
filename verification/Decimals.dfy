// Unbounded decimal numerals.
module Decimals {
  predicate IsDigit(c: char) {
    '0' <= c <= '9'
  }

  predicate AllDigits(s: string) {
    forall i | 0 <= i < |s| :: IsDigit(s[i])
  }

  // A numeral as SemVer writes it: digits without a leading zero.
  predicate Numeric(s: string) {
    s != "" && AllDigits(s) && (s == "0" || s[0] != '0')
  }

  function DigitValue(c: char): (v: nat)
    requires IsDigit(c)
    ensures v <= 9
  {
    (c - '0') as nat
  }

  function Value(s: string): nat
    requires AllDigits(s)
  {
    if s == "" then 0 else 10 * Value(s[..|s| - 1]) + DigitValue(s[|s| - 1])
  }

  // `u64` formatting.
  function Decimal(n: nat): (s: string)
    ensures Numeric(s) && (n > 0 ==> s[0] != '0')
  {
    if n < 10 then [('0' as int + n) as char]
    else Decimal(n / 10) + [('0' as int + n % 10) as char]
  }

  lemma {:induction false} DecimalValue(n: nat)
    ensures Value(Decimal(n)) == n
  {
    var s := Decimal(n);
    if n < 10 {
      assert s[..0] == "";
    } else {
      DecimalValue(n / 10);
      assert s[..|s| - 1] == Decimal(n / 10);
    }
  }

  lemma DecimalInjective(m: nat, n: nat)
    requires Decimal(m) == Decimal(n)
    ensures m == n
  {
    DecimalValue(m);
    DecimalValue(n);
  }

  function Pow10(n: nat): (r: nat)
    ensures r >= 1
  {
    if n == 0 then 1 else 10 * Pow10(n - 1)
  }

  lemma {:induction false} ValueBounds(s: string)
    requires AllDigits(s)
    ensures Value(s) < Pow10(|s|)
    ensures s != "" && s[0] != '0' ==> Value(s) >= Pow10(|s| - 1)
  {
    if s != "" {
      var rest := s[..|s| - 1];
      ValueBounds(rest);
      if rest != "" {
        assert rest[0] == s[0];
        assert Pow10(|s| - 1) == 10 * Pow10(|s| - 2);
      }
    }
  }

  lemma {:induction false} Pow10Monotone(m: nat, n: nat)
    requires m <= n
    ensures Pow10(m) <= Pow10(n)
    decreases n - m
  {
    if m < n {
      Pow10Monotone(m, n - 1);
    }
  }

  // A longer numeral without a leading zero is the larger number.
  lemma LongerIsLarger(a: string, b: string)
    requires Numeric(a) && Numeric(b) && |a| < |b|
    ensures Value(a) < Value(b)
  {
    ValueBounds(a);
    ValueBounds(b);
    Pow10Monotone(|a|, |b| - 1);
  }
}
