/** The proleptic Gregorian calendar as Python's `datetime` module counts it.

    A calendar date is its ordinal: 0001-01-01 is day 1 (a Monday) and
    9999-12-31, the last date Python can represent, is day 3652059. A
    timestamp (`order_date`) is a whole number of seconds counted from
    midnight before day 0, so its calendar date is the quotient by 86400.
    Sub-second precision and time zones are not modelled. */
module Calendar {
  import opened Digits

  const MAX_ORDINAL: int := 3652059
  const SECONDS_PER_DAY: int := 86400

  /** A calendar date Python can represent, as its ordinal. */
  type Date = n: int | 1 <= n <= MAX_ORDINAL witness 1

  /** A timestamp Python can represent, in seconds. */
  type Instant = t: int | SECONDS_PER_DAY <= t < (MAX_ORDINAL + 1) * SECONDS_PER_DAY
    witness SECONDS_PER_DAY

  datatype Civil = Civil(year: int, month: int, day: int)

  // ---------------------------------------------------------------------
  // Years

  predicate IsLeap(y: int) {
    y % 4 == 0 && (y % 100 != 0 || y % 400 == 0)
  }

  function DaysInYear(y: int): int {
    if IsLeap(y) then 366 else 365
  }

  /** Number of days in the years before year `y` (day 0 is 0000-12-31). */
  function DaysBeforeYear(y: int): int {
    var p := y - 1;
    365 * p + p / 4 - p / 100 + p / 400
  }

  lemma DaysBeforeYearStep(y: int)
    ensures DaysBeforeYear(y + 1) == DaysBeforeYear(y) + DaysInYear(y)
  {
    var p := y - 1;
    var a4, a100, a400 := y / 4 - p / 4, y / 100 - p / 100, y / 400 - p / 400;
    assert a4 == (if y % 4 == 0 then 1 else 0) by {
      QuotientStep(y, 4);
    }
    assert a100 == (if y % 100 == 0 then 1 else 0) by {
      QuotientStep(y, 100);
    }
    assert a400 == (if y % 400 == 0 then 1 else 0) by {
      QuotientStep(y, 400);
    }
    assert (y % 400 == 0 ==> y % 100 == 0) && (y % 100 == 0 ==> y % 4 == 0) by {
      DivisibilityChain(y);
    }
    assert DaysBeforeYear(y + 1) - DaysBeforeYear(y) == 365 + a4 - a100 + a400;
  }

  /** Multiples of 400 are multiples of 100, and those are multiples of 4. */
  lemma DivisibilityChain(y: int)
    ensures y % 400 == 0 ==> y % 100 == 0
    ensures y % 100 == 0 ==> y % 4 == 0
  {
    if y % 400 == 0 {
      QuotientUnique(y, 100, 4 * (y / 400), 0);
    }
    if y % 100 == 0 {
      QuotientUnique(y, 4, 25 * (y / 100), 0);
    }
  }

  /** Stepping back one from `y` lowers the quotient by `d` exactly when `d`
      divides `y`. */
  lemma QuotientStep(y: int, d: int)
    requires d > 0
    ensures y / d - (y - 1) / d == (if y % d == 0 then 1 else 0)
  {
    var q, m := y / d, y % d;
    assert y == d * q + m && 0 <= m < d;
    if m == 0 {
      QuotientUnique(y - 1, d, q - 1, d - 1);
    } else {
      QuotientUnique(y - 1, d, q, m - 1);
    }
  }

  /** Euclidean division has one quotient and one remainder. */
  lemma QuotientUnique(x: int, d: int, q: int, m: int)
    requires d > 0 && 0 <= m < d && x == d * q + m
    ensures x / d == q && x % d == m
  {
    var q', m' := x / d, x % d;
    assert x == d * q' + m' && 0 <= m' < d;
    if q' < q {
      assert d * q >= d * (q' + 1) by {
        MultiplyMonotone(d, q' + 1, q);
      }
    } else if q' > q {
      assert d * q' >= d * (q + 1) by {
        MultiplyMonotone(d, q + 1, q');
      }
    }
  }

  lemma MultiplyMonotone(d: int, a: int, b: int)
    requires d > 0 && a <= b
    ensures d * a <= d * b
  {
    assert d * b - d * a == d * (b - a);
  }

  lemma {:induction false} DaysBeforeYearMonotone(y1: int, y2: int)
    requires y1 < y2
    ensures DaysBeforeYear(y1) + DaysInYear(y1) <= DaysBeforeYear(y2)
    decreases y2 - y1
  {
    DaysBeforeYearStep(y1);
    if y1 + 1 < y2 {
      DaysBeforeYearMonotone(y1 + 1, y2);
    }
  }

  /** The days before year `400a + 100b + 4c + d + 1`, counted cycle by cycle. */
  lemma DaysBeforeYearCycles(a: int, b: int, c: int, d: int)
    requires 0 <= b <= 3 && 0 <= c <= 24 && 0 <= d <= 3
    ensures DaysBeforeYear(400 * a + 100 * b + 4 * c + d + 1)
         == 146097 * a + 36524 * b + 1461 * c + 365 * d
  {
    var p := 400 * a + 100 * b + 4 * c + d;
    assert p == 4 * (100 * a + 25 * b + c) + d;
    assert p / 4 == 100 * a + 25 * b + c;
    assert p == 100 * (4 * a + b) + (4 * c + d);
    assert p / 100 == 4 * a + b;
    assert p == 400 * a + (100 * b + 4 * c + d);
    assert p / 400 == a;
  }

  /** The year of day `n`: split the days before it into 400-, 100-, 4- and
      1-year cycles; the last day of a 4-year or 400-year cycle belongs to
      the year before the one the quotients point at. */
  function YearOf(n: int): int {
    var k := n - 1;
    var n400 := k / 146097;
    var r400 := k % 146097;
    var n100 := r400 / 36524;
    var r100 := r400 % 36524;
    var n4 := r100 / 1461;
    var r4 := r100 % 1461;
    var n1 := r4 / 365;
    var y := 400 * n400 + 100 * n100 + 4 * n4 + n1 + 1;
    if n100 == 4 || n1 == 4 then y - 1 else y
  }

  /** Day `n` lies inside the year `YearOf(n)`. */
  lemma YearOfBounds(n: int)
    ensures DaysBeforeYear(YearOf(n)) < n <= DaysBeforeYear(YearOf(n)) + DaysInYear(YearOf(n))
  {
    var k := n - 1;
    var n400, r400 := k / 146097, k % 146097;
    var n100, r100 := r400 / 36524, r400 % 36524;
    var n4, r4 := r100 / 1461, r100 % 1461;
    var n1, r1 := r4 / 365, r4 % 365;
    assert k == 146097 * n400 + r400 && 0 <= r400 < 146097;
    assert r400 == 36524 * n100 + r100 && 0 <= r100 < 36524;
    assert r100 == 1461 * n4 + r4 && 0 <= r4 < 1461;
    assert r4 == 365 * n1 + r1 && 0 <= r1 < 365;
    CycleYear(k, n400, n100, n4, n1, r1);
  }

  /** The year-recovery arithmetic of `YearOf`, once the quotients and
      remainders of the cycle split are known. */
  lemma CycleYear(k: int, a: int, b: int, c: int, d: int, r: int)
    requires 0 <= 36524 * b + 1461 * c + 365 * d + r < 146097
    requires 0 <= 1461 * c + 365 * d + r < 36524
    requires 0 <= 365 * d + r < 1461
    requires 0 <= r < 365
    requires k == 146097 * a + 36524 * b + 1461 * c + 365 * d + r
    ensures var y := 400 * a + 100 * b + 4 * c + d + 1;
      var y' := if b == 4 || d == 4 then y - 1 else y;
      DaysBeforeYear(y') < k + 1 <= DaysBeforeYear(y') + DaysInYear(y')
  {
    if b == 4 {
      LastDayOf400Cycle(k, a, c, d, r);
    } else if d == 4 {
      LastDayOf4Cycle(k, a, b, c, r);
    } else {
      DaysBeforeYearCycles(a, b, c, d);
    }
  }

  /** Day 146097 of a 400-year cycle is December 31 of its leap year 400. */
  lemma LastDayOf400Cycle(k: int, a: int, c: int, d: int, r: int)
    requires 0 <= 36524 * 4 + 1461 * c + 365 * d + r < 146097
    requires 0 <= 1461 * c && 0 <= 365 * d && 0 <= r
    requires k == 146097 * a + 36524 * 4 + 1461 * c + 365 * d + r
    ensures var y := 400 * (a + 1);
      DaysBeforeYear(y) < k + 1 <= DaysBeforeYear(y) + DaysInYear(y)
  {
    assert k == 146097 * a + 146096;
    DaysBeforeYearCycles(a, 3, 24, 3);
    var y := 400 * (a + 1);
    assert 400 * a + 100 * 3 + 4 * 24 + 3 + 1 == y;
    assert IsLeap(y) by {
      QuotientUnique(y, 400, a + 1, 0);
      QuotientUnique(y, 4, 100 * (a + 1), 0);
    }
  }

  /** Day 1461 of a 4-year cycle is December 31 of its leap year 4. */
  lemma LastDayOf4Cycle(k: int, a: int, b: int, c: int, r: int)
    requires 0 <= b <= 3
    requires 0 <= 1461 * c + 365 * 4 + r < 36524
    requires 0 <= 365 * 4 + r < 1461
    requires 0 <= r
    requires k == 146097 * a + 36524 * b + 1461 * c + 365 * 4 + r
    ensures var y := 400 * a + 100 * b + 4 * c + 4;
      DaysBeforeYear(y) < k + 1 <= DaysBeforeYear(y) + DaysInYear(y)
  {
    assert r == 0;
    assert 0 <= c <= 23;
    DaysBeforeYearCycles(a, b, c, 3);
    FourthYearIsLeap(a, b, c);
  }

  /** The fourth year of a 4-year cycle that is not the last of its century is a leap year. */
  lemma FourthYearIsLeap(a: int, b: int, c: int)
    requires 0 <= b <= 3 && 0 <= c <= 23
    ensures IsLeap(400 * a + 100 * b + 4 * c + 4)
  {
    var y := 400 * a + 100 * b + 4 * c + 4;
    assert y == 4 * (100 * a + 25 * b + c + 1) + 0;
    assert y % 4 == 0;
    assert y == 100 * (4 * a + b) + (4 * c + 4);
    assert y % 100 == 4 * c + 4;
  }

  /** A year is determined by any day inside it. */
  lemma YearOfUnique(n: int, y: int)
    requires DaysBeforeYear(y) < n <= DaysBeforeYear(y) + DaysInYear(y)
    ensures YearOf(n) == y
  {
    var y' := YearOf(n);
    YearOfBounds(n);
    if y' < y {
      DaysBeforeYearMonotone(y', y);
    } else if y < y' {
      DaysBeforeYearMonotone(y, y');
    }
  }

  // ---------------------------------------------------------------------
  // Months

  function DaysInMonth(y: int, m: int): int
    requires 1 <= m <= 12
  {
    if m == 2 then (if IsLeap(y) then 29 else 28)
    else if m == 4 || m == 6 || m == 9 || m == 11 then 30
    else 31
  }

  /** Days of year `y` before the first of month `m`. */
  function DaysBeforeMonth(y: int, m: int): int
    requires 1 <= m <= 12
  {
    var base := [0, 31, 59, 90, 120, 151, 181, 212, 243, 273, 304, 334][m - 1];
    if m > 2 && IsLeap(y) then base + 1 else base
  }

  lemma MonthStep(y: int, m: int)
    requires 1 <= m <= 12
    ensures m < 12 ==> DaysBeforeMonth(y, m + 1) == DaysBeforeMonth(y, m) + DaysInMonth(y, m)
    ensures m == 12 ==> DaysBeforeMonth(y, m) + DaysInMonth(y, m) == DaysInYear(y)
  {
  }

  lemma {:induction false} DaysBeforeMonthMonotone(y: int, m1: int, m2: int)
    requires 1 <= m1 < m2 <= 12
    ensures DaysBeforeMonth(y, m1) + DaysInMonth(y, m1) <= DaysBeforeMonth(y, m2)
    decreases m2 - m1
  {
    MonthStep(y, m1);
    if m1 + 1 < m2 {
      DaysBeforeMonthMonotone(y, m1 + 1, m2);
    }
  }

  /** The first month from `m` on whose last day is not before day-of-year `doy`. */
  function MonthFrom(y: int, doy: int, m: int): (r: int)
    requires 1 <= m <= 12
    ensures m <= r <= 12
    decreases 12 - m
  {
    if m == 12 || doy <= DaysBeforeMonth(y, m) + DaysInMonth(y, m) then m
    else MonthFrom(y, doy, m + 1)
  }

  lemma {:induction false} MonthFromBounds(y: int, doy: int, m: int)
    requires 1 <= m <= 12
    requires DaysBeforeMonth(y, m) < doy <= DaysInYear(y)
    ensures var r := MonthFrom(y, doy, m);
      DaysBeforeMonth(y, r) < doy <= DaysBeforeMonth(y, r) + DaysInMonth(y, r)
    decreases 12 - m
  {
    MonthStep(y, m);
    if m < 12 && doy > DaysBeforeMonth(y, m) + DaysInMonth(y, m) {
      MonthFromBounds(y, doy, m + 1);
    }
  }

  lemma {:induction false} MonthFromUnique(y: int, doy: int, m0: int, m: int)
    requires 1 <= m0 <= m <= 12
    requires DaysBeforeMonth(y, m) < doy <= DaysBeforeMonth(y, m) + DaysInMonth(y, m)
    ensures MonthFrom(y, doy, m0) == m
    decreases m - m0
  {
    if m0 < m {
      DaysBeforeMonthMonotone(y, m0, m);
      MonthFromUnique(y, doy, m0 + 1, m);
    }
  }

  // ---------------------------------------------------------------------
  // Ordinals and civil dates

  predicate ValidCivil(c: Civil) {
    1 <= c.month <= 12 && 1 <= c.day <= DaysInMonth(c.year, c.month)
  }

  /** Python's `date(y, m, d).toordinal()`. */
  function ToOrdinal(c: Civil): int
    requires ValidCivil(c)
  {
    DaysBeforeYear(c.year) + DaysBeforeMonth(c.year, c.month) + c.day
  }

  /** Python's `date.fromordinal(n)` as year, month and day. */
  function FromOrdinal(n: int): Civil {
    var y := YearOf(n);
    var doy := n - DaysBeforeYear(y);
    var m := MonthFrom(y, doy, 1);
    Civil(y, m, doy - DaysBeforeMonth(y, m))
  }

  /** Every day number names a valid date, and that date's ordinal is the number. */
  lemma FromOrdinalRoundTrip(n: int)
    ensures ValidCivil(FromOrdinal(n))
    ensures ToOrdinal(FromOrdinal(n)) == n
  {
    var y := YearOf(n);
    var doy := n - DaysBeforeYear(y);
    YearOfBounds(n);
    MonthFromBounds(y, doy, 1);
  }

  /** Every valid date comes back from its ordinal unchanged. */
  lemma ToOrdinalRoundTrip(c: Civil)
    requires ValidCivil(c)
    ensures FromOrdinal(ToOrdinal(c)) == c
  {
    var n := ToOrdinal(c);
    MonthStep(c.year, c.month);
    if c.month < 12 {
      DaysBeforeMonthMonotone(c.year, c.month, 12);
      MonthStep(c.year, 12);
    }
    YearOfUnique(n, c.year);
    MonthFromUnique(c.year, n - DaysBeforeYear(c.year), 1, c.month);
  }

  /** Representable dates are exactly the years 1 to 9999. */
  lemma DateYearRange(d: Date)
    ensures 1 <= FromOrdinal(d).year <= 9999
  {
    var y := YearOf(d);
    YearOfBounds(d);
    assert DaysBeforeYear(1) == 0;
    assert DaysBeforeYear(10000) == MAX_ORDINAL;
    if y < 1 {
      DaysBeforeYearMonotone(y, 1);
    } else if y > 9999 {
      DaysBeforeYearMonotone(10000, y);
    }
  }

  // ---------------------------------------------------------------------
  // Timestamps, weekdays, week and month starts

  function DateOf(t: Instant): Date {
    t / SECONDS_PER_DAY
  }

  /** The first instant of a date: how a `date` bound compares to a timestamp. */
  function Midnight(d: Date): Instant {
    d * SECONDS_PER_DAY
  }

  /** Python's `date.weekday()`: Monday is 0, Sunday is 6. */
  function Weekday(d: Date): (w: int)
    ensures 0 <= w < 7
  {
    (d + 6) % 7
  }

  /** The Monday on or before `d`: the start of the Monday-to-Sunday week
      that pandas' `to_period("W")` assigns to `d`. */
  function WeekStart(d: Date): (r: Date)
    ensures Weekday(r) == 0
    ensures r <= d < r + 7
  {
    d - Weekday(d)
  }

  /** The first day of the month containing `d`. */
  function MonthStart(d: Date): (r: Date)
    ensures FromOrdinal(r) == Civil(FromOrdinal(d).year, FromOrdinal(d).month, 1)
    ensures r <= d
  {
    var c := FromOrdinal(d);
    FromOrdinalRoundTrip(d);
    ToOrdinalRoundTrip(Civil(c.year, c.month, 1));
    DateYearRange(d);
    DaysBeforeYearNonNegative(c.year);
    ToOrdinal(Civil(c.year, c.month, 1))
  }

  lemma DaysBeforeYearNonNegative(y: int)
    requires y >= 1
    ensures DaysBeforeYear(y) >= 0
  {
    assert DaysBeforeYear(1) == 0;
    if y > 1 {
      DaysBeforeYearMonotone(1, y);
    }
  }

  // ---------------------------------------------------------------------
  // Rendering

  /** `date.isoformat()`: `YYYY-MM-DD`, the full-date form of section 5.6 of RFC 3339. */
  function IsoDate(d: Date): (s: string)
    ensures |s| == 10 && s[4] == '-' && s[7] == '-'
  {
    var c := FromOrdinal(d);
    FromOrdinalRoundTrip(d);
    DateYearRange(d);
    var yyyy, mm, dd := PadDigits(c.year, 4), PadDigits(c.month, 2), PadDigits(c.day, 2);
    yyyy + "-" + mm + "-" + dd
  }

  /** Two dates render to the same ISO string only if they are the same date. */
  lemma IsoDateInjective(a: Date, b: Date)
    ensures IsoDate(a) == IsoDate(b) <==> a == b
  {
    if IsoDate(a) == IsoDate(b) {
      var ca, cb := FromOrdinal(a), FromOrdinal(b);
      IsoDateFields(a);
      IsoDateFields(b);
      assert Pow10(2) == 100 && Pow10(4) == 10000;
      PadDigitsInjective(ca.year, cb.year, 4);
      PadDigitsInjective(ca.month, cb.month, 2);
      PadDigitsInjective(ca.day, cb.day, 2);
      assert ca == cb;
      FromOrdinalRoundTrip(a);
      FromOrdinalRoundTrip(b);
    }
  }

  /** Where the year, month and day sit in an ISO date. */
  lemma IsoDateFields(d: Date)
    ensures var c, s := FromOrdinal(d), IsoDate(d);
      && 1 <= c.year < 10000 && 1 <= c.month < 100 && 1 <= c.day < 100
      && s[0..4] == PadDigits(c.year, 4)
      && s[5..7] == PadDigits(c.month, 2)
      && s[8..10] == PadDigits(c.day, 2)
  {
    FromOrdinalRoundTrip(d);
    DateYearRange(d);
  }

}
