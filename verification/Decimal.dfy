// Decimal numerals: the printer strconv uses, and the value of a digit string.
module Decimal {
  import opened Strings

  predicate IsDigit(c: char) { '0' <= c <= '9' }

  predicate AllDigits(s: string) { forall i | 0 <= i < |s| :: IsDigit(s[i]) }

  function DigitValue(c: char): (d: nat)
    requires IsDigit(c)
    ensures d < 10
  {
    c as int - '0' as int
  }

  function DigitChar(d: nat): (c: char)
    requires d < 10
    ensures IsDigit(c) && DigitValue(c) == d
  {
    '0' + d as char
  }

  /** The number a digit string denotes; the empty string denotes zero. */
  function NumeralValue(s: string): nat
    requires AllDigits(s)
  {
    if s == "" then 0
    else 10 * NumeralValue(s[..|s| - 1]) + DigitValue(s[|s| - 1])
  }

  /** Decimal without leading zeros. */
  function Numeral(n: nat): (s: string)
    ensures s != "" && AllDigits(s)
    ensures |s| > 1 ==> s[0] != '0'
    ensures n > 0 ==> s[0] != '0'
  {
    if n < 10 then [DigitChar(n)] else Numeral(n / 10) + [DigitChar(n % 10)]
  }

  /** Non-empty, all digits, no leading zero unless it is exactly "0". */
  predicate Canonical(s: string) {
    s != "" && AllDigits(s) && (|s| == 1 || s[0] != '0')
  }

  lemma {:induction false} ValueOfNumeral(n: nat)
    ensures NumeralValue(Numeral(n)) == n
  {
    if n >= 10 {
      ValueOfNumeral(n / 10);
      var s := Numeral(n / 10) + [DigitChar(n % 10)];
      assert s[..|s| - 1] == Numeral(n / 10);
    }
  }

  lemma {:induction false} NumeralOfValue(s: string)
    requires Canonical(s)
    ensures Numeral(NumeralValue(s)) == s
  {
    var front, last := s[..|s| - 1], s[|s| - 1];
    if front == "" {
      assert s == [last];
    } else {
      NumeralOfValue(front);
      assert NumeralValue(front) > 0;
      assert NumeralValue(s) / 10 == NumeralValue(front);
      assert DigitChar(NumeralValue(s) % 10) == last;
      assert s == front + [last];
    }
  }

  /** On digit strings of one length, bytewise order is numeric order. */
  lemma {:induction false} EqualLengthOrder(a: string, b: string)
    requires AllDigits(a) && AllDigits(b) && |a| == |b|
    ensures StringCompare(a, b) == Sign(NumeralValue(a), NumeralValue(b))
  {
    if a != "" {
      var fa, fb := a[..|a| - 1], b[..|b| - 1];
      EqualLengthOrder(fa, fb);
      CompareSnoc(fa, fb, a[|a| - 1], b[|b| - 1]);
      assert a == fa + [a[|a| - 1]] && b == fb + [b[|b| - 1]];
    }
  }

  /** A longer numeral without leading zero is larger. */
  lemma {:induction false} LongerIsLarger(a: string, b: string)
    requires AllDigits(a) && AllDigits(b) && |a| < |b| && b[0] != '0'
    ensures NumeralValue(a) < NumeralValue(b)
  {
    if |b| == 1 {
      assert b[..0] == "";
    } else if a == "" {
      LongerIsLarger("", b[..|b| - 1]);
    } else {
      LongerIsLarger(a[..|a| - 1], b[..|b| - 1]);
    }
  }
}
