/** The amounts and texts shown, in plain numbers. */
module DisplayMeaning {
  import opened Wrappers
  import opened Decimals
  import opened DisplayUnits

  /* ---- Units ---- */

  /** How many won one of the unit is. */
  function WonIn(unit: Unit): nat {
    match unit
    case Won => 1
    case ThousandWon => 1000
    case MillionWon => 1_000_000
    case HundredMillionWon => 100_000_000
    case TrillionWon => 1_000_000_000_000
  }

  function Suffix(unit: Unit): string {
    match unit
    case Won => "원"
    case ThousandWon => "천원"
    case MillionWon => "백만원"
    case HundredMillionWon => "억원"
    case TrillionWon => "조원"
  }

  lemma {:induction false} Powers()
    ensures Pow10(3) == 1000 && Pow10(6) == 1_000_000 && Pow10(8) == 100_000_000 && Pow10(12) == 1_000_000_000_000
  {
    assert Pow10(1) == 10 && Pow10(2) == 100 && Pow10(4) == 10_000 && Pow10(5) == 100_000 && Pow10(7) == 10_000_000;
    assert Pow10(9) == 1_000_000_000 && Pow10(10) == 10_000_000_000 && Pow10(11) == 100_000_000_000;
  }

  lemma {:induction false} UnitsAreThese(unit: Unit)
    ensures Pow10(unit.Places()) == WonIn(unit) && unit.Name() == Suffix(unit)
  {
    Powers();
  }

  /* ---- Amounts ---- */

  /** An amount of at most 28 digits is shown, in its unit, as the nearest number with the asked decimals, the larger one of
      two in magnitude; it is refused exactly when that number needs more than 28 digits. */
  lemma {:induction false} ShownIsNearest(won: int, unit: Unit, decimals: nat)
    requires -10_000_000_000_000_000_000_000_000_000 < won < 10_000_000_000_000_000_000_000_000_000
    ensures var m, q, shown := Magnitude(won), WonIn(unit), Convert(won, unit, decimals);
            && (shown.Some? ==>
                  && shown.value.places == decimals && (shown.value.negative <==> won < 0 && shown.value.digits > 0)
                  && 2 * (shown.value.digits * q) <= 2 * (m * Pow10(decimals)) + q
                  && 2 * (m * Pow10(decimals)) < 2 * (shown.value.digits * q) + q
                  && shown.value.digits < 10_000_000_000_000_000_000_000_000_000)
            && (shown.None? ==>
                  2 * (m * Pow10(decimals)) + q >= 2 * (10_000_000_000_000_000_000_000_000_000 * q))
  {
    var m, s := Magnitude(won), unit.Places();
    UnitsAreThese(unit);
    ShortIsKept(m);
    if Convert(won, unit, decimals).Some? {
      ShownIsHalfUp(won, unit, decimals);
    } else {
      var digits := if decimals >= s then m * Pow10(decimals - s) else HalfUp(m, Pow10(s - decimals));
      if decimals >= s {
        WidenedIsNearest(m, s, decimals);
      } else {
        NearestIsHalfUp(m, s, decimals, digits);
      }
      assert IsNearest(m, s, decimals, digits) && digits >= LIMIT;
      Ordered(LIMIT, digits, Pow10(s));
    }
  }

  /** Longer amounts first lose their last digits, as few as leave 28, to the nearest and to the even one of two. */
  lemma {:induction false} LongAmountsAreCut(m: nat) returns (u: nat, kept: nat)
    ensures Significant(m) == kept * u && (exists j: nat :: u == Pow10(j)) && kept <= 10_000_000_000_000_000_000_000_000_000
    ensures m < 10_000_000_000_000_000_000_000_000_000 * u && (u == 1 || 10_000_000_000_000_000_000_000_000_000 * u <= 10 * m)
    ensures 2 * (kept * u) <= 2 * m + u && 2 * m <= 2 * (kept * u) + u
    ensures 2 * (kept * u) == 2 * m + u || 2 * m == 2 * (kept * u) + u ==> kept % 2 == 0
  {
    u, kept := LastDigit(m), HalfEven(m, LastDigit(m));
    assert u == Pow10(Dropped(m, 0));
    HalfEvenBounds(m, u);
    TiesAreEven(m, u);
    KeptFits(m, u);
  }

  lemma {:induction false} TiesAreEven(m: nat, q: nat)
    requires q > 0
    ensures var shown := HalfEven(m, q) * q;
            2 * shown == 2 * m + q || 2 * m == 2 * shown + q ==> HalfEven(m, q) % 2 == 0
  {
    var k, r := m / q, m % q;
    assert m == k * q + r;
    assert (k + 1) * q == k * q + q;
  }

  lemma {:induction false} KeptFits(m: nat, u: nat)
    requires u > 0 && m < LIMIT * u
    ensures HalfEven(m, u) <= LIMIT
  {
    HalfEvenBounds(m, u);
    assert m == m / u * u + m % u;
    if m / u >= LIMIT {
      Ordered(LIMIT, m / u, u);
    }
  }

  /* ---- Texts ---- */

  /** Counting from the right, every fourth character is a comma and no other one is. */
  lemma {:induction false} CommasEveryThree(n: nat, k: nat)
    requires k < |Grouped(n)|
    ensures Grouped(n)[|Grouped(n)| - 1 - k] == ',' <==> k % 4 == 3
    ensures Grouped(n)[|Grouped(n)| - 1 - k] != ',' ==> IsDigit(Grouped(n)[|Grouped(n)| - 1 - k])
    ensures Grouped(n)[0] != ','
    decreases n
  {
    var s := Grouped(n);
    if n < 1000 {
      DecShort(n);
    } else {
      var head, tail := Grouped(n / 1000), Padded(n % 1000, 3);
      assert s == head + "," + tail && |tail| == 3;
      CommasEveryThree(n / 1000, if k >= 4 then k - 4 else 0);
      if k < 3 {
        assert s[|s| - 1 - k] == tail[2 - k];
      } else if k > 3 {
        assert s[|s| - 1 - k] == head[|head| - 1 - (k - 4)];
      }
    }
  }

  lemma {:induction false} DecShort(n: nat)
    requires n < 1000
    ensures |Dec(n)| <= 3
  {
    assert n >= 10 ==> Dec(n) == Dec(n / 10) + [Digit(n % 10)];
    assert n >= 100 ==> Dec(n / 10) == Dec(n / 100) + [Digit(n / 10 % 10)];
  }

  /** The texts, unit by unit: won without decimals, asked decimals kept to the last zero, two for trillions and one for
      hundreds of millions when none are asked, and otherwise as many as the amount has. */
  lemma {:induction false} TextsAre(won: int, unit: Unit, decimals: Option<nat>)
    ensures var text := FormatDisplayUnit(won, unit, decimals);
            match (if unit == Won then None else if decimals.Some? then decimals
                   else match unit
                        case TrillionWon => Some(2)
                        case HundredMillionWon => Some(1)
                        case _ => None)
            case Some(d) =>
              (text.None? <==> Convert(won, unit, d).None?)
              && (text.Some? ==> text.value == FormatFixed(Convert(won, unit, d).value) + Suffix(unit))
            case None =>
              text == Some((if unit == Won then (if won < 0 then "-" else "") + Grouped(Magnitude(won))
                            else FormatFixed(Stripped(Unrounded(won, unit)))) + Suffix(unit))
  {
    UnitsAreThese(unit);
  }
}
