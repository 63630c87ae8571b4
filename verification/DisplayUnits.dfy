/** Won amounts in larger units. */
module DisplayUnits {
  import opened Wrappers
  import opened Decimals

  datatype Unit = Won | ThousandWon | MillionWon | HundredMillionWon | TrillionWon {
    /** How many decimal places the unit is shifted by. */
    function Places(): nat {
      match this
      case Won => 0
      case ThousandWon => 3
      case MillionWon => 6
      case HundredMillionWon => 8
      case TrillionWon => 12
    }

    function Name(): string {
      match this
      case Won => "원"
      case ThousandWon => "천원"
      case MillionWon => "백만원"
      case HundredMillionWon => "억원"
      case TrillionWon => "조원"
    }

    /** The precision shown when none is asked for. */
    function DefaultDecimals(): Option<nat> {
      match this
      case TrillionWon => Some(2)
      case HundredMillionWon => Some(1)
      case _ => None
    }
  }

  /** Python's decimal context keeps 28 digits: coefficients stay below 10^28. */
  const LIMIT: nat := 10_000_000_000_000_000_000_000_000_000

  /** The number `digits` / 10^`places`, with its sign. */
  datatype Fixed = Fixed(negative: bool, digits: nat, places: nat) {
    function Signed(): int {
      if negative then 0 - digits else digits
    }
  }

  function Pow10(n: nat): (p: nat)
    ensures p > 0
  {
    if n == 0 then 1 else 10 * Pow10(n - 1)
  }

  lemma {:induction false} Pow10Sum(a: nat, b: nat)
    ensures Pow10(a + b) == Pow10(a) * Pow10(b)
  {
    if b > 0 {
      Pow10Sum(a, b - 1);
      assert Pow10(a) * (10 * Pow10(b - 1)) == 10 * (Pow10(a) * Pow10(b - 1));
    }
  }

  /** Different powers of ten are at least a factor of ten apart. */
  lemma {:induction false} Pow10Apart(a: nat, b: nat)
    requires Pow10(a) < Pow10(b)
    ensures 10 * Pow10(a) <= Pow10(b)
  {
    if b <= a {
      Pow10Grows(b, a);
    } else {
      Pow10Grows(a + 1, b);
    }
  }

  lemma {:induction false} Pow10Grows(a: nat, b: nat)
    requires a <= b
    ensures Pow10(a) <= Pow10(b)
  {
    if a < b {
      Pow10Grows(a, b - 1);
    }
  }

  /* ---- Rounding ---- */

  /** `m` / `q` to the nearest integer, halves away from zero. */
  function HalfUp(m: nat, q: nat): nat
    requires q > 0
  {
    if 2 * (m % q) >= q then m / q + 1 else m / q
  }

  /** `m` / `q` to the nearest integer, halves to even. */
  function HalfEven(m: nat, q: nat): nat
    requires q > 0
  {
    if 2 * (m % q) > q || (2 * (m % q) == q && m / q % 2 == 1) then m / q + 1 else m / q
  }

  /** The place of the last digit that survives in the context, as an exponent of ten. */
  function Dropped(m: nat, k: nat): (j: nat)
    requires k == 0 || LIMIT * Pow10(k) <= 10 * m
    ensures m < LIMIT * Pow10(j)
    ensures j == 0 || LIMIT * Pow10(j) <= 10 * m
    decreases m - Pow10(k)
  {
    if m < LIMIT * Pow10(k) then k else Dropped(m, k + 1)
  }

  function LastDigit(m: nat): (u: nat)
    ensures u > 0 && m < LIMIT * u
    ensures u == 1 || LIMIT * u <= 10 * m
  {
    Pow10(Dropped(m, 0))
  }

  /** A magnitude rounded to the digits the context keeps, as every division is. */
  function Significant(m: nat): nat {
    HalfEven(m, LastDigit(m)) * LastDigit(m)
  }

  function Magnitude(n: int): nat {
    if n < 0 then -n else n
  }

  /** The amount in `unit` with `decimals` digits after the point; None where the context refuses so many digits. */
  function Convert(won: int, unit: Unit, decimals: nat): Option<Fixed> {
    var m, s := Significant(Magnitude(won)), unit.Places();
    var digits := if decimals >= s then m * Pow10(decimals - s) else HalfUp(m, Pow10(s - decimals));
    if digits >= LIMIT then None else Some(Fixed(won < 0 && digits > 0, digits, decimals))
  }

  /** The amount in `unit` as the division leaves it. */
  function Unrounded(won: int, unit: Unit): Fixed {
    Fixed(won < 0, Significant(Magnitude(won)), unit.Places())
  }

  /* ---- What is shown is the half-up rounding ---- */

  /** `digits` / 10^`d` is the multiple of 10^-`d` nearest to `m` / 10^`s`, the larger one of two. */
  predicate IsNearest(m: nat, s: nat, d: nat, digits: nat) {
    var shown, exact := digits * Pow10(s), m * Pow10(d);
    2 * shown <= 2 * exact + Pow10(s) && 2 * exact < 2 * shown + Pow10(s)
  }

  lemma {:induction false} Ordered(a: int, b: int, q: int)
    requires a <= b && q >= 0
    ensures a * q <= b * q
  {
  }

  lemma {:induction false} OneMore(a: int, q: int)
    ensures (a + 1) * q == a * q + q
  {
  }

  lemma {:induction false} HalfUpBounds(m: nat, q: nat)
    requires q > 0
    ensures var shown := HalfUp(m, q) * q; 2 * shown <= 2 * m + q && 2 * m < 2 * shown + q
  {
    assert m == m / q * q + m % q;
    OneMore(m / q, q);
  }

  lemma {:induction false} NearestIsUnique(m: nat, q: nat, a: nat, b: nat)
    requires q > 0
    requires 2 * (a * q) <= 2 * m + q && 2 * m < 2 * (a * q) + q
    requires 2 * (b * q) <= 2 * m + q && 2 * m < 2 * (b * q) + q
    ensures a == b
  {
    OneMore(a, q);
    OneMore(b, q);
    if a < b {
      Ordered(a + 1, b, q);
    } else if b < a {
      Ordered(b + 1, a, q);
    }
  }

  lemma {:induction false} Scaled(a: int, b: int, p: int)
    requires p > 0
    ensures a * p <= b * p <==> a <= b
    ensures a * p < b * p <==> a < b
  {
    if a < b {
      OneMore(a, p);
      Ordered(a + 1, b, p);
    } else {
      Ordered(b, a, p);
    }
    if b < a {
      OneMore(b, p);
      Ordered(b + 1, a, p);
    }
  }

  lemma {:induction false} Regroup(a: int, q: int, p: int)
    ensures a * (q * p) == (a * q) * p
  {
  }

  lemma {:induction false} ScaledWindow(x: int, y: int, q: int, p: int)
    requires p > 0
    ensures 2 * (x * p) <= 2 * (y * p) + q * p <==> 2 * x <= 2 * y + q
    ensures 2 * (y * p) < 2 * (x * p) + q * p <==> 2 * y < 2 * x + q
  {
    Scaled(2 * x, 2 * y + q, p);
    Scaled(2 * y, 2 * x + q, p);
    assert (2 * x) * p == 2 * (x * p) && (2 * y) * p == 2 * (y * p);
    assert (2 * y + q) * p == (2 * y) * p + q * p && (2 * x + q) * p == (2 * x) * p + q * p;
  }

  /** With fewer decimals than the unit shifts, nearness is about one integer quotient. */
  lemma {:induction false} NearestIsHalfUp(m: nat, s: nat, d: nat, digits: nat)
    requires d <= s
    ensures IsNearest(m, s, d, digits) <==> digits == HalfUp(m, Pow10(s - d))
  {
    var q, p := Pow10(s - d), Pow10(d);
    Pow10Sum(s - d, d);
    Regroup(digits, q, p);
    ScaledWindow(digits * q, m, q, p);
    HalfUpBounds(m, q);
    if IsNearest(m, s, d, digits) {
      NearestIsUnique(m, q, digits, HalfUp(m, q));
    }
  }

  /** With at least as many decimals as the unit shifts, nothing is rounded. */
  lemma {:induction false} WidenedIsNearest(m: nat, s: nat, d: nat)
    requires d >= s
    ensures m * Pow10(d - s) * Pow10(s) == m * Pow10(d)
    ensures IsNearest(m, s, d, m * Pow10(d - s))
  {
    Pow10Sum(d - s, s);
    Regroup(m, Pow10(d - s), Pow10(s));
  }

  lemma {:induction false} ShortIsKept(m: nat)
    requires m < LIMIT
    ensures LastDigit(m) == 1 && Significant(m) == m
  {
  }

  /** An amount of at most 28 digits is shown rounded half away from zero. */
  lemma {:induction false} ShownIsHalfUp(won: int, unit: Unit, decimals: nat)
    requires Magnitude(won) < LIMIT && Convert(won, unit, decimals).Some?
    ensures var f := Convert(won, unit, decimals).value;
            && f.places == decimals && IsNearest(Magnitude(won), unit.Places(), decimals, f.digits)
            && (f.negative <==> won < 0 && f.digits > 0)
  {
    var m, s := Magnitude(won), unit.Places();
    ShortIsKept(m);
    if decimals >= s {
      WidenedIsNearest(m, s, decimals);
    } else {
      NearestIsHalfUp(m, s, decimals, HalfUp(m, Pow10(s - decimals)));
    }
  }

  /* ---- Longer amounts are rounded twice ---- */

  lemma {:induction false} HalfEvenBounds(m: nat, q: nat)
    requires q > 0
    ensures var shown := HalfEven(m, q) * q; 2 * shown <= 2 * m + q && 2 * m <= 2 * shown + q
    ensures m / q <= HalfEven(m, q) <= m / q + 1
  {
    assert m == m / q * q + m % q;
    OneMore(m / q, q);
  }

  /** `m` and `p` lie on the same side of the midpoint above the multiple of `q` below `m`. */
  predicate SameSide(m: nat, p: nat, q: nat)
    requires q > 0
  {
    2 * (m % q) >= q <==> 2 * p >= 2 * (m / q * q) + q
  }

  /** Rounding a nearby amount gives the same result exactly when it is on the same side. */
  lemma {:induction false} NearbyRounding(m: nat, p: nat, q: nat)
    requires q > 0 && 2 * p <= 2 * m + q && 2 * m <= 2 * p + q
    ensures HalfUp(p, q) == HalfUp(m, q) <==> SameSide(m, p, q)
  {
    var k, h := m / q, HalfUp(p, q);
    assert m == k * q + m % q;
    HalfUpBounds(p, q);
    OneMore(k, q);
    OneMore(k + 1, q);
    OneMore(h, q);
    if h < k {
      Ordered(h + 1, k, q);
    } else if h > k + 1 {
      Ordered(k + 2, h, q);
    }
  }

  /** A long amount keeps at least a tenth of the context's range. */
  lemma {:induction false} LongIsLarge(m: nat)
    requires m >= LIMIT
    ensures HalfEven(m, LastDigit(m)) >= LIMIT / 10 && LastDigit(m) >= 10 && Significant(m) >= LIMIT
  {
    var u := LastDigit(m);
    Pow10Apart(0, Dropped(m, 0));
    HalfEvenBounds(m, u);
    assert m == m / u * u + m % u;
    if m / u < LIMIT / 10 {
      OneMore(m / u, u);
      Ordered(m / u + 1, LIMIT / 10, u);
    }
    Ordered(LIMIT / 10, HalfEven(m, u), u);
  }

  /** The arithmetic of `KeptDigitIsCoarse`: `e` digits of size `u` do not fit below the limit in digits
      of a tenth of that size. */
  lemma {:induction false} CoarseEnough(e: int, u: int, h: int, q: int)
    requires e >= LIMIT / 10 && h < LIMIT && 0 < q && 10 * q <= u
    ensures 2 * (h * q) + q <= 2 * (e * u)
  {
    Ordered(LIMIT / 10, e, u);
    Ordered(h + 1, LIMIT, q);
    OneMore(h, q);
  }

  /** An amount too long for the context is refused unless the digit kept is at least the last digit dropped. */
  lemma {:induction false} KeptDigitIsCoarse(m: nat, q: nat, a: nat)
    requires m >= LIMIT && q == Pow10(a) && HalfUp(Significant(m), q) < LIMIT
    ensures LastDigit(m) <= q
  {
    LongIsLarge(m);
    HalfUpBounds(Significant(m), q);
    if q < LastDigit(m) {
      Pow10Apart(a, Dropped(m, 0));
      CoarseEnough(HalfEven(m, LastDigit(m)), LastDigit(m), HalfUp(Significant(m), q), q);
    }
  }

  /** For amounts of any length: what is shown is the half-up rounding of the amount exactly when dropping
      digits first did not carry it over a midpoint. */
  lemma {:induction false} ShownIsHalfUpExactlyWhen(won: int, unit: Unit, decimals: nat)
    requires Convert(won, unit, decimals).Some?
    ensures var m, s, digits := Magnitude(won), unit.Places(), Convert(won, unit, decimals).value.digits;
            IsNearest(m, s, decimals, digits)
            <==> m < LIMIT || SameSide(m, Significant(m), Pow10(if decimals < s then s - decimals else 0))
  {
    var m, s := Magnitude(won), unit.Places();
    if m < LIMIT {
      ShownIsHalfUp(won, unit, decimals);
    } else {
      LongIsLarge(m);
      if decimals >= s {
        TooWide(Significant(m), decimals - s);
      }
      var q := Pow10(s - decimals);
      KeptDigitIsCoarse(m, q, s - decimals);
      HalfEvenBounds(m, LastDigit(m));
      NearbyRounding(m, Significant(m), q);
      NearestIsHalfUp(m, s, decimals, HalfUp(Significant(m), q));
    }
  }

  lemma {:induction false} TooWide(p: nat, k: nat)
    requires p >= LIMIT
    ensures p * Pow10(k) >= LIMIT
  {
    Ordered(1, Pow10(k), p);
    assert p * Pow10(k) == Pow10(k) * p;
  }

  /** An amount of 29 digits that is shown too large. */
  lemma {:induction false} RoundedTwice()
    ensures var won := LIMIT + 4_999_999;
            && Convert(won, HundredMillionWon, 1) == Some(Fixed(false, 1_000_000_000_000_000_000_001, 1))
            && !IsNearest(won, 8, 1, 1_000_000_000_000_000_000_001)
  {
    var m := LIMIT + 4_999_999;
    assert Pow10(1) == 10 && Pow10(7) == 10_000_000 by {
      assert Pow10(2) == 100 && Pow10(3) == 1000 && Pow10(4) == 10_000 && Pow10(5) == 100_000 && Pow10(6) == 1_000_000;
    }
    assert Dropped(m, 1) == 1 && Dropped(m, 0) == 1;
    assert Significant(m) == LIMIT + 5_000_000;
    NearestIsHalfUp(m, 8, 1, 1_000_000_000_000_000_000_001);
  }

  /* ---- Larger amounts never show smaller values ---- */

  lemma {:induction false} QuotientsOrdered(m: nat, n: nat, q: nat)
    requires m <= n && q > 0
    ensures m / q <= n / q && (m / q == n / q ==> m % q <= n % q)
  {
    assert m == m / q * q + m % q && n == n / q * q + n % q;
    OneMore(n / q, q);
    if n / q < m / q {
      Ordered(n / q + 1, m / q, q);
    }
  }

  lemma {:induction false} HalfUpOrdered(m: nat, n: nat, q: nat)
    requires m <= n && q > 0
    ensures HalfUp(m, q) <= HalfUp(n, q)
  {
    QuotientsOrdered(m, n, q);
  }

  lemma {:induction false} HalfEvenOrdered(m: nat, n: nat, q: nat)
    requires m <= n && q > 0
    ensures HalfEven(m, q) <= HalfEven(n, q)
  {
    QuotientsOrdered(m, n, q);
  }

  lemma {:induction false} HalfEvenStaysBelow(m: nat, u: nat)
    requires u > 0 && m < LIMIT * u
    ensures HalfEven(m, u) <= LIMIT
  {
    HalfEvenBounds(m, u);
    assert m == m / u * u + m % u;
    if m / u >= LIMIT {
      Ordered(LIMIT, m / u, u);
    }
  }

  lemma {:induction false} SignificantOrdered(m: nat, n: nat)
    requires m <= n
    ensures Significant(m) <= Significant(n)
  {
    var u, v := LastDigit(m), LastDigit(n);
    if u == v {
      HalfEvenOrdered(m, n, u);
      Ordered(HalfEven(m, u), HalfEven(n, u), u);
    } else {
      if v < u {
        Pow10Apart(Dropped(n, 0), Dropped(m, 0));
      }
      assert u < v;
      Pow10Apart(Dropped(m, 0), Dropped(n, 0));
      HalfEvenStaysBelow(m, u);
      Ordered(HalfEven(m, u), LIMIT, u);
      LongIsLarge(n);
      Ordered(LIMIT / 10, HalfEven(n, v), v);
    }
  }

  lemma {:induction false} MagnitudesOrdered(m: nat, n: nat, s: nat, d: nat)
    requires m <= n
    ensures d >= s ==> Significant(m) * Pow10(d - s) <= Significant(n) * Pow10(d - s)
    ensures d < s ==> HalfUp(Significant(m), Pow10(s - d)) <= HalfUp(Significant(n), Pow10(s - d))
  {
    SignificantOrdered(m, n);
    if d >= s {
      Ordered(Significant(m), Significant(n), Pow10(d - s));
    } else {
      HalfUpOrdered(Significant(m), Significant(n), Pow10(s - d));
    }
  }

  /** A larger amount, of any length and either sign, never shows a smaller value in the same unit. */
  lemma {:induction false} LargerShowsNoLess(a: int, b: int, unit: Unit, decimals: nat)
    requires a <= b && Convert(a, unit, decimals).Some? && Convert(b, unit, decimals).Some?
    ensures Convert(a, unit, decimals).value.Signed() <= Convert(b, unit, decimals).value.Signed()
  {
    if 0 <= a {
      MagnitudesOrdered(a, b, unit.Places(), decimals);
    } else if b < 0 {
      MagnitudesOrdered(-b, -a, unit.Places(), decimals);
    }
  }

  /* ---- Printing ---- */

  /** `n` in exactly `k` digits. */
  function Padded(n: nat, k: nat): (s: string)
    ensures |s| == k && AllDigits(s)
  {
    if k == 0 then "" else Padded(n / 10, k - 1) + [Digit(n % 10)]
  }

  /** Digits in groups of three from the right. */
  function Grouped(n: nat): string {
    if n < 1000 then Dec(n) else Grouped(n / 1000) + "," + Padded(n % 1000, 3)
  }

  function Sign(negative: bool): string {
    if negative then "-" else ""
  }

  function Fraction(digits: nat, places: nat): string {
    if places == 0 then "" else "." + Padded(digits, places)
  }

  /** Whole part and remainder. */
  function Split(n: nat, p: nat): (r: (nat, nat))
    requires p > 0
    ensures n == r.0 * p + r.1 && r.1 < p
  {
    (n / p, n % p)
  }

  /** A converted amount with all its decimals. */
  function FormatFixed(f: Fixed): string {
    var (whole, rest) := Split(f.digits, Pow10(f.places));
    Sign(f.negative) + Grouped(whole) + Fraction(rest, f.places)
  }

  /** The same number without zeros at its end. */
  function Stripped(f: Fixed): Fixed
    decreases f.places
  {
    if f.places > 0 && f.digits % 10 == 0 then Stripped(Fixed(f.negative, f.digits / 10, f.places - 1)) else f
  }

  /** `format_display_unit`; None where the decimal context raises. */
  function FormatDisplayUnit(won: int, unit: Unit, decimals: Option<nat>): Option<string> {
    if unit == Won then Some(Sign(won < 0) + Grouped(Magnitude(won)) + unit.Name()) else
    match (if decimals.Some? then decimals else unit.DefaultDecimals())
    case None => Some(FormatFixed(Stripped(Unrounded(won, unit))) + unit.Name())
    case Some(d) =>
      match Convert(won, unit, d)
      case None => None
      case Some(f) => Some(FormatFixed(f) + unit.Name())
  }

  /* ---- Reading back ---- */

  /** The first place of `c`, or the length. */
  function FirstAt(s: string, c: char): (i: nat)
    ensures i <= |s|
  {
    if s == "" || s[0] == c then 0 else 1 + FirstAt(s[1..], c)
  }

  function WithoutCommas(s: string): string {
    Filter((c: char) => c != ',', s)
  }

  /** Digits with at most one point. */
  function ReadDigits(negative: bool, body: string): Option<Fixed> {
    var i := FirstAt(body, '.');
    var whole, rest := body[..i], if i < |body| then body[i + 1..] else "";
    if AllDigits(whole + rest) then Some(Fixed(negative, Parse(whole + rest), |rest|)) else None
  }

  /** A reader of printed numbers: commas dropped, an optional sign, then digits. */
  function ReadBack(text: string): Option<Fixed> {
    var s := WithoutCommas(text);
    if s != "" && s[0] == '-' then ReadDigits(true, s[1..]) else ReadDigits(false, s)
  }

  lemma {:induction false} ParseAppend(a: string, b: string)
    requires AllDigits(a) && AllDigits(b)
    ensures AllDigits(a + b) && Parse(a + b) == Parse(a) * Pow10(|b|) + Parse(b)
  {
    if b == "" {
      assert a + b == a;
    } else {
      var init, last := b[..|b| - 1], b[|b| - 1];
      ParseAppend(a, init);
      assert (a + b)[..|a + b| - 1] == a + init && (a + b)[|a + b| - 1] == last;
      assert Parse(a) * Pow10(|init|) * 10 == Parse(a) * Pow10(|b|) by {
        Regroup(Parse(a), Pow10(|init|), 10);
      }
    }
  }

  lemma {:induction false} ParsePadded(n: nat, k: nat)
    requires n < Pow10(k)
    ensures Parse(Padded(n, k)) == n
  {
    if k > 0 {
      ParsePadded(n / 10, k - 1);
      assert Padded(n, k)[..k - 1] == Padded(n / 10, k - 1);
    }
  }

  lemma {:induction false} DigitsHaveNo(s: string, c: char)
    requires AllDigits(s) && !IsDigit(c)
    ensures c !in s
  {
  }

  lemma {:induction false} WithoutCommasDigits(s: string)
    requires AllDigits(s)
    ensures WithoutCommas(s) == s
  {
    DigitsHaveNo(s, ',');
    FilterAll((c: char) => c != ',', s);
  }

  /** Dropping the commas of a grouped number leaves digits that read back as the number. */
  lemma {:induction false} GroupedReads(n: nat)
    ensures AllDigits(WithoutCommas(Grouped(n))) && WithoutCommas(Grouped(n)) != "" && Parse(WithoutCommas(Grouped(n))) == n
  {
    if n < 1000 {
      WithoutCommasDigits(Dec(n));
      ParseDec(n);
    } else {
      var keep, tail := (c: char) => c != ',', Padded(n % 1000, 3);
      GroupedReads(n / 1000);
      assert Grouped(n) == Grouped(n / 1000) + ("," + tail);
      FilterAppend(keep, Grouped(n / 1000), "," + tail);
      assert ("," + tail)[1..] == tail;
      WithoutCommasDigits(tail);
      assert WithoutCommas(Grouped(n)) == WithoutCommas(Grouped(n / 1000)) + tail;
      ParseAppend(WithoutCommas(Grouped(n / 1000)), tail);
      assert Pow10(3) == 1000 by { assert Pow10(1) == 10 && Pow10(2) == 100; }
      ParsePadded(n % 1000, 3);
    }
  }

  lemma {:induction false} FirstAfter(a: string, c: char, b: string)
    requires c !in a && (b == "" || b[0] == c)
    ensures FirstAt(a + b, c) == |a|
  {
    if a == "" {
      assert a + b == b;
    } else {
      assert (a + b)[0] == a[0] && (a + b)[1..] == a[1..] + b;
      FirstAfter(a[1..], c, b);
    }
  }

  lemma {:induction false} ReadsAround(negative: bool, whole: string, tail: string)
    requires AllDigits(whole) && AllDigits(tail)
    ensures ReadDigits(negative, whole + "." + tail) == Some(Fixed(negative, Parse(whole + tail), |tail|))
    ensures ReadDigits(negative, whole) == Some(Fixed(negative, Parse(whole), 0))
  {
    var body := whole + "." + tail;
    DigitsHaveNo(whole, '.');
    assert body == whole + ("." + tail);
    FirstAfter(whole, '.', "." + tail);
    assert body[..|whole|] == whole && body[|whole| + 1..] == tail;
    FirstAfter(whole, '.', "");
    assert whole + "" == whole && whole[..|whole|] == whole;
  }

  lemma {:induction false} BodyReads(negative: bool, whole: string, digits: nat, places: nat)
    requires AllDigits(whole) && digits < Pow10(places)
    ensures ReadDigits(negative, whole + Fraction(digits, places))
         == Some(Fixed(negative, Parse(whole) * Pow10(places) + digits, places))
  {
    var tail := Padded(digits, places);
    ParsePadded(digits, places);
    TailReads(negative, whole, tail, digits, places);
  }

  lemma {:induction false} TailReads(negative: bool, whole: string, tail: string, digits: nat, places: nat)
    requires AllDigits(whole) && AllDigits(tail) && |tail| == places && Parse(tail) == digits < Pow10(places)
    ensures ReadDigits(negative, whole + if places == 0 then "" else "." + tail)
         == Some(Fixed(negative, Parse(whole) * Pow10(places) + digits, places))
  {
    if places == 0 {
      NoFractionReads(negative, whole, digits);
    } else {
      FractionReads(negative, whole, tail);
    }
  }

  lemma {:induction false} NoFractionReads(negative: bool, whole: string, digits: nat)
    requires AllDigits(whole) && digits < Pow10(0)
    ensures ReadDigits(negative, whole + "") == Some(Fixed(negative, Parse(whole) * Pow10(0) + digits, 0))
  {
    ReadsAround(negative, whole, "");
    assert whole + "" == whole;
  }

  lemma {:induction false} FractionReads(negative: bool, whole: string, tail: string)
    requires AllDigits(whole) && AllDigits(tail)
    ensures ReadDigits(negative, whole + ("." + tail))
         == Some(Fixed(negative, Parse(whole) * Pow10(|tail|) + Parse(tail), |tail|))
  {
    ReadsAround(negative, whole, tail);
    assert whole + ("." + tail) == whole + "." + tail;
    ParseAppend(whole, tail);
  }

  lemma {:induction false} SignReads(negative: bool, body: string, text: string)
    requires WithoutCommas(text) == Sign(negative) + body && body != "" && body[0] != '-'
    ensures ReadBack(text) == ReadDigits(negative, body)
  {
    var s := WithoutCommas(text);
    assert s == if negative then "-" + body else body;
    assert ("-" + body)[1..] == body;
  }

  /** What the reader sees of a sign, digits and a fraction. */
  lemma {:induction false} ReadsParts(negative: bool, grouped: string, digits: nat, places: nat)
    requires AllDigits(WithoutCommas(grouped)) && WithoutCommas(grouped) != "" && digits < Pow10(places)
    ensures ReadBack(Sign(negative) + grouped + Fraction(digits, places))
         == Some(Fixed(negative, Parse(WithoutCommas(grouped)) * Pow10(places) + digits, places))
  {
    var whole, fraction := WithoutCommas(grouped), Fraction(digits, places);
    PrintedWithoutCommas(negative, grouped, digits, places);
    BodyReads(negative, whole, digits, places);
    assert IsDigit(whole[0]) && (whole + fraction)[0] == whole[0];
    assert Sign(negative) + (whole + fraction) == Sign(negative) + whole + fraction;
    SignReads(negative, whole + fraction, Sign(negative) + grouped + fraction);
  }

  lemma {:induction false} PrintedWithoutCommas(negative: bool, grouped: string, digits: nat, places: nat)
    ensures WithoutCommas(Sign(negative) + grouped + Fraction(digits, places))
         == Sign(negative) + WithoutCommas(grouped) + Fraction(digits, places)
  {
    var keep, tail := (c: char) => c != ',', Padded(digits, places);
    FilterAppend(keep, Sign(negative) + grouped, Fraction(digits, places));
    FilterAppend(keep, Sign(negative), grouped);
    WithoutCommasDigits(tail);
    FilterAll(keep, Sign(negative));
    DigitsHaveNo(tail, ',');
    FilterAll(keep, Fraction(digits, places));
  }

  lemma {:induction false} PrintedParts(f: Fixed, whole: nat, rest: nat)
    requires (whole, rest) == Split(f.digits, Pow10(f.places))
    ensures whole * Pow10(f.places) + rest == f.digits && rest < Pow10(f.places)
    ensures FormatFixed(f) == Sign(f.negative) + Grouped(whole) + Fraction(rest, f.places)
  {
  }

  /** The printed text reads back as exactly the rounded value with exactly the requested decimals. */
  lemma {:induction false} PrintedReadsBack(f: Fixed)
    ensures ReadBack(FormatFixed(f)) == Some(f)
  {
    var (whole, rest) := Split(f.digits, Pow10(f.places));
    PrintedParts(f, whole, rest);
    GroupedReads(whole);
    ReadsParts(f.negative, Grouped(whole), rest, f.places);
  }

  lemma {:induction false} StrippedIsEqual(f: Fixed)
    ensures var t := Stripped(f);
            && t.negative == f.negative && t.places <= f.places && t.digits * Pow10(f.places - t.places) == f.digits
            && (t.places > 0 ==> t.digits % 10 != 0)
    decreases f.places
  {
    if f.places > 0 && f.digits % 10 == 0 {
      var g := Fixed(f.negative, f.digits / 10, f.places - 1);
      StrippedIsEqual(g);
      var t := Stripped(f);
      Regroup(t.digits, Pow10(g.places - t.places), 10);
    }
  }

  /** Every text shown reads back: in won as the amount itself, with decimals as the converted value, and
      otherwise as the same number in lowest decimal terms. */
  lemma {:induction false} ShownTextReadsBack(won: int, unit: Unit, decimals: Option<nat>)
    requires FormatDisplayUnit(won, unit, decimals).Some?
    ensures var text, wanted := FormatDisplayUnit(won, unit, decimals).value, if decimals.Some? then decimals else unit.DefaultDecimals();
            var n := |text| - |unit.Name()|;
            && 0 <= n && text[n..] == unit.Name() && ReadBack(text[..n]).Some?
            && var f := ReadBack(text[..n]).value;
               if unit == Won then f.Signed() == won && f.places == 0
               else if wanted.Some? then Convert(won, unit, wanted.value) == Some(f)
               else f == Stripped(Unrounded(won, unit))
  {
    var m, name := Magnitude(won), unit.Name();
    if unit == Won {
      var f := Fixed(won < 0, m, 0);
      assert m / 1 == m && m % 1 == 0;
      PrintedReadsBack(f);
      assert FormatFixed(f) == Sign(won < 0) + Grouped(m);
      NumberThenName(FormatFixed(f), name);
    } else {
      var wanted := if decimals.Some? then decimals else unit.DefaultDecimals();
      var f := if wanted.Some? then Convert(won, unit, wanted.value).value else Stripped(Unrounded(won, unit));
      PrintedReadsBack(f);
      NumberThenName(FormatFixed(f), name);
    }
  }

  lemma {:induction false} NumberThenName(number: string, name: string)
    ensures var text := number + name; text[..|text| - |name|] == number && text[|text| - |name|..] == name
  {
  }

  /** A zero never shows a minus sign. */
  lemma {:induction false} ZeroHasNoSign(won: int, unit: Unit, decimals: nat)
    requires Convert(won, unit, decimals).Some? && Convert(won, unit, decimals).value.digits == 0
    ensures FormatFixed(Convert(won, unit, decimals).value)[0] != '-'
  {
    GroupedStartsWithDigit(0);
  }

  lemma {:induction false} GroupedStartsWithDigit(n: nat)
    ensures Grouped(n) != "" && IsDigit(Grouped(n)[0])
  {
    if n >= 1000 {
      GroupedStartsWithDigit(n / 1000);
    }
  }

  /* ---- All requested units together ---- */

  datatype Rendering = Text(s: string) | Nothing | Raised

  /** How one requested unit is shown. */
  function PartOf(won: int, rounding: map<Unit, nat>): Unit -> Option<string> {
    (unit: Unit) => FormatDisplayUnit(won, unit, if unit in rounding then Some(rounding[unit]) else None)
  }

  function Parts(part: Unit -> Option<string>, units: seq<Unit>): Option<seq<string>> {
    if units == [] then Some([]) else
    match Parts(part, units[..|units| - 1])
    case None => None
    case Some(earlier) =>
      match part(units[|units| - 1])
      case None => None
      case Some(text) => Some(earlier + [text])
  }

  function Joined(parts: seq<string>): string {
    if parts == [] then ""
    else if |parts| == 1 then parts[0]
    else parts[0] + ", " + Joined(parts[1..])
  }

  /** The first part, then the others in parentheses. */
  function Bracketed(parts: seq<string>): string
    requires parts != []
  {
    if |parts| == 1 then parts[0] else parts[0] + "(" + Joined(parts[1..]) + ")"
  }

  /** `render_display_units` of an integral amount. */
  function Render(won: int, units: seq<Unit>, rounding: map<Unit, nat>): Rendering {
    match Parts(PartOf(won, rounding), units)
    case None => Raised
    case Some(parts) => if parts == [] then Nothing else Text(Bracketed(parts))
  }

  /** No requested unit is dropped, and each is shown as it is alone. */
  lemma {:induction false} NoUnitIsDropped(part: Unit -> Option<string>, units: seq<Unit>)
    ensures Parts(part, units).Some? <==> forall i | 0 <= i < |units| :: part(units[i]).Some?
    ensures Parts(part, units).Some? ==>
              |Parts(part, units).value| == |units|
              && forall i | 0 <= i < |units| :: part(units[i]) == Some(Parts(part, units).value[i])
  {
    if units != [] {
      NoUnitIsDropped(part, units[..|units| - 1]);
    }
  }

  /* ---- Reading all units back ---- */

  /** The pieces between spaces, without the comma before each. */
  function Pieces(s: string): seq<string> {
    var i := FirstAt(s, ' ');
    if i == 0 || i == |s| then [s] else [s[..i - 1]] + Pieces(s[i + 1..])
  }

  /** What stands before the parenthesis, and the pieces inside it. */
  function ReadRendering(s: string): seq<string> {
    var i := FirstAt(s, '(');
    if i == |s| then [s] else [s[..i]] + Pieces(s[i + 1..if i + 1 < |s| then |s| - 1 else |s|])
  }

  predicate IsPlain(part: string) {
    ' ' !in part && '(' !in part
  }

  lemma {:induction false} JoinedReads(parts: seq<string>)
    requires parts != [] && forall i | 0 <= i < |parts| :: IsPlain(parts[i])
    ensures Pieces(Joined(parts)) == parts
  {
    if |parts| == 1 {
      FirstAfter(parts[0], ' ', "");
      assert parts[0] + "" == parts[0] && parts == [parts[0]];
    } else {
      var rest := Joined(parts[1..]);
      JoinedReads(parts[1..]);
      PiecesNext(parts[0], rest);
      assert parts == [parts[0]] + parts[1..];
    }
  }

  lemma {:induction false} PiecesNext(part: string, rest: string)
    requires IsPlain(part)
    ensures Pieces(part + ", " + rest) == [part] + Pieces(rest)
  {
    var s := part + ", " + rest;
    assert s == (part + ",") + (" " + rest);
    FirstAfter(part + ",", ' ', " " + rest);
    assert s[..|part|] == part && s[|part| + 2..] == rest;
  }

  lemma {:induction false} BracketedReads(parts: seq<string>)
    requires parts != [] && forall i | 0 <= i < |parts| :: IsPlain(parts[i])
    ensures ReadRendering(Bracketed(parts)) == parts
  {
    var first := parts[0];
    if |parts| == 1 {
      FirstAfter(first, '(', "");
      assert first + "" == first && parts == [first];
    } else {
      var inner := Joined(parts[1..]);
      var s := first + "(" + inner + ")";
      JoinedReads(parts[1..]);
      assert s == first + ("(" + inner + ")");
      FirstAfter(first, '(', "(" + inner + ")");
      assert s[..|first|] == first && s[|first| + 1..|s| - 1] == inner;
      assert parts == [first] + parts[1..];
    }
  }

  lemma {:induction false} GroupedIsPlain(n: nat)
    ensures IsPlain(Grouped(n))
  {
    if n >= 1000 {
      GroupedIsPlain(n / 1000);
    }
  }

  lemma {:induction false} PartIsPlain(won: int, unit: Unit, decimals: Option<nat>)
    requires FormatDisplayUnit(won, unit, decimals).Some?
    ensures IsPlain(FormatDisplayUnit(won, unit, decimals).value)
  {
    GroupedIsPlain(Magnitude(won));
    forall f: Fixed
      ensures IsPlain(FormatFixed(f))
    {
      GroupedIsPlain(Split(f.digits, Pow10(f.places)).0);
    }
  }

  /** The whole text: it raises exactly when some unit does, there is none exactly for no units, and
      otherwise it reads back as the units' own texts, in order and none missing. */
  lemma {:induction false} RenderingReadsBack(won: int, units: seq<Unit>, rounding: map<Unit, nat>)
    ensures var part, r := PartOf(won, rounding), Render(won, units, rounding);
            && (r.Raised? <==> exists i | 0 <= i < |units| :: part(units[i]).None?)
            && (r.Nothing? <==> units == [])
            && (r.Text? ==>
                  && |ReadRendering(r.s)| == |units|
                  && forall i | 0 <= i < |units| :: part(units[i]) == Some(ReadRendering(r.s)[i]))
  {
    var part := PartOf(won, rounding);
    NoUnitIsDropped(part, units);
    if Render(won, units, rounding).Text? {
      var parts := Parts(part, units).value;
      forall i | 0 <= i < |parts|
        ensures IsPlain(parts[i])
      {
        assert part(units[i]) == Some(parts[i]);
        PartIsPlain(won, units[i], if units[i] in rounding then Some(rounding[units[i]]) else None);
      }
      BracketedReads(parts);
    }
  }
}
