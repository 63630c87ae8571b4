/** Decimal numerals as Python's `str(n)` prints them and `int(s)` reads them. */
module Decimals {

  predicate IsDigit(c: char) {
    '0' <= c <= '9'
  }

  predicate AllDigits(s: string) {
    forall i | 0 <= i < |s| :: IsDigit(s[i])
  }

  function Digit(d: nat): char
    requires d < 10
  {
    '0' + d as char
  }

  function Dec(n: nat): (s: string)
    ensures s != [] && AllDigits(s)
  {
    if n < 10 then [Digit(n)] else Dec(n / 10) + [Digit(n % 10)]
  }

  function Parse(s: string): nat
    requires AllDigits(s)
  {
    if s == [] then 0
    else Parse(s[..|s| - 1]) * 10 + (s[|s| - 1] as int - '0' as int)
  }

  /** Reading back a printed number gives that number. */
  lemma {:induction false} ParseDec(n: nat)
    ensures Parse(Dec(n)) == n
  {
    if n >= 10 {
      ParseDec(n / 10);
      assert Dec(n)[..|Dec(n)| - 1] == Dec(n / 10);
    }
  }

  lemma {:induction false} NotZero(digits: string)
    requires digits != "" && AllDigits(digits) && digits[0] != '0'
    ensures Parse(digits) > 0
  {
    var n := |digits| - 1;
    if n > 0 {
      NotZero(digits[..n]);
    }
  }

  lemma {:induction false} OneMoreDigit(m: nat, c: char)
    requires m > 0 && IsDigit(c)
    ensures Dec(m * 10 + (c as int - '0' as int)) == Dec(m) + [c]
  {
    var d := c as int - '0' as int;
    assert (m * 10 + d) / 10 == m && (m * 10 + d) % 10 == d;
  }

  /** The printed numeral is the only one without a leading zero that reads as its number. */
  lemma {:induction false} NumeralIsPrinted(digits: string)
    requires digits != "" && AllDigits(digits) && (|digits| == 1 || digits[0] != '0')
    ensures digits == Dec(Parse(digits))
  {
    var n, last := |digits| - 1, digits[|digits| - 1];
    if n == 0 {
      assert digits[..0] == "" && digits == [last];
    } else {
      NumeralIsPrinted(digits[..n]);
      NotZero(digits[..n]);
      OneMoreDigit(Parse(digits[..n]), last);
      assert digits == digits[..n] + [last];
    }
  }

  lemma {:induction false} DecInjective(m: nat, n: nat)
    requires Dec(m) == Dec(n)
    ensures m == n
  {
    ParseDec(m);
    ParseDec(n);
  }

  /** A numeral followed by a non-digit is at least as long as any numeral starting the text. */
  lemma {:induction false} NumeralIsLongest(m: nat, n: nat, a: string, b: string)
    requires Dec(m) + a == Dec(n) + b
    requires a == [] || !IsDigit(a[0])
    ensures |Dec(n)| <= |Dec(m)|
  {
    var s := Dec(m) + a;
    if a != [] {
      assert s[|Dec(m)|] == a[0];
    }
    assert forall i | 0 <= i < |Dec(n)| :: (Dec(n) + b)[i] == Dec(n)[i];
    assert forall i | 0 <= i < |Dec(n)| :: IsDigit(s[i]);
  }

  /** Numerals are pure digits, so what follows the first non-digit is determined. */
  lemma {:induction false} DecThenUnique(m: nat, n: nat, a: string, b: string)
    requires Dec(m) + a == Dec(n) + b
    requires a == [] || !IsDigit(a[0])
    requires b == [] || !IsDigit(b[0])
    ensures m == n && a == b
  {
    NumeralIsLongest(m, n, a, b);
    NumeralIsLongest(n, m, b, a);
    var s, k := Dec(m) + a, |Dec(m)|;
    assert Dec(m) == s[..k] && Dec(n) == (Dec(n) + b)[..k];
    assert a == s[k..] && b == (Dec(n) + b)[k..];
    DecInjective(m, n);
  }
}
