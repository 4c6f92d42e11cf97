/** Decimal numerals: what `str(int)` and Rust's integer formatting print, and reading them back. */
module Decimal {
  function Digit(d: nat): char
    requires d < 10
  {
    (d + '0' as int) as char
  }

  predicate IsDigit(c: char) {
    '0' <= c <= '9'
  }

  function DigitValue(c: char): (d: nat)
    requires IsDigit(c)
    ensures d < 10 && Digit(d) == c
  {
    c as int - '0' as int
  }

  function Print(n: nat): (s: string)
    ensures s != ""
  {
    if n < 10 then [Digit(n)] else Print(n / 10) + [Digit(n % 10)]
  }

  predicate AllDigits(s: string, n: nat)
    requires n <= |s|
  {
    n == 0 || (AllDigits(s, n - 1) && IsDigit(s[n - 1]))
  }

  /** The number that the first `n` characters denote. */
  function Value(s: string, n: nat): nat
    requires n <= |s| && AllDigits(s, n)
  {
    if n == 0 then 0 else 10 * Value(s, n - 1) + DigitValue(s[n - 1])
  }

  lemma {:induction false} ValuePrefix(s: string, c: char, n: nat)
    requires n <= |s| && AllDigits(s, n)
    ensures AllDigits(s + [c], n) && Value(s + [c], n) == Value(s, n)
  {
    if n > 0 {
      ValuePrefix(s, c, n - 1);
    }
  }

  /** Printed numbers read back as themselves. */
  lemma {:induction false} PrintReadsBack(n: nat)
    ensures AllDigits(Print(n), |Print(n)|) && Value(Print(n), |Print(n)|) == n
  {
    if n < 10 {
      var s := Print(n);
      assert AllDigits(s, 0) && Value(s, 0) == 0;
      assert DigitValue(s[0]) == n;
    } else {
      var s, c := Print(n / 10), Digit(n % 10);
      PrintReadsBack(n / 10);
      ValuePrefix(s, c, |s|);
      assert DigitValue(c) == n % 10;
    }
  }

  lemma PrintInjective(m: nat, n: nat)
    requires Print(m) == Print(n)
    ensures m == n
  {
    PrintReadsBack(m);
    PrintReadsBack(n);
  }
}
