/** The helpers of app/core/utils.py: the order-number generator, the
    date-range enumerator and the percentage-change formula. The clock and
    the random generator are parameters. */
module Utils {
  import opened Wrappers
  import opened Digits
  import opened Calendar
  import Analytics

  // ---------------------------------------------------------------------
  // Order numbers

  /** `string.ascii_uppercase + string.digits`, the alphabet of the random part. */
  const ORDER_ALPHABET: string := "ABCDEFGHIJKLMNOPQRSTUVWXYZ0123456789"

  predicate InAlphabet(c: char) {
    c in ORDER_ALPHABET
  }

  /** The fields an order number is assembled from. */
  datatype OrderParts = OrderParts(yy: int, mm: int, dd: int, suffix: string)

  predicate ValidParts(p: OrderParts) {
    && 0 <= p.yy < 100 && 0 <= p.mm < 100 && 0 <= p.dd < 100
    && |p.suffix| == 4
    && forall i :: 0 <= i < 4 ==> InAlphabet(p.suffix[i])
  }

  /** `f"ORD-{yy:02d}{mm:02d}{dd:02d}-{suffix}"`. */
  function RenderOrderNumber(p: OrderParts): (s: string)
    requires ValidParts(p)
    ensures |s| == 15 && s[..4] == "ORD-" && s[10] == '-'
  {
    "ORD-" + PadDigits(p.yy, 2) + PadDigits(p.mm, 2) + PadDigits(p.dd, 2) + "-" + p.suffix
  }

  /** The inverse of the rendering: the fields of a well-formed order number. */
  function ParseOrderNumber(s: string): (r: Option<OrderParts>)
    ensures r.Some? ==> ValidParts(r.value)
    ensures r.Some? <==>
      (&& |s| == 15 && s[..4] == "ORD-" && AllDigits(s[4..10]) && s[10] == '-'
       && forall i :: 11 <= i < 15 ==> InAlphabet(s[i]))
  {
    if |s| == 15 && s[..4] == "ORD-" && AllDigits(s[4..10]) && s[10] == '-'
       && (forall i :: 11 <= i < 15 ==> InAlphabet(s[i]))
    then
      var d := s[4..10];
      SixDigits(d);
      assert forall i :: 0 <= i < 4 ==> InAlphabet(s[11..][i]) by {
        assert forall i :: 0 <= i < 4 ==> s[11..][i] == s[11 + i];
      }
      Some(OrderParts(Value(d[0..2]), Value(d[2..4]), Value(d[4..6]), s[11..]))
    else None
  }

  /** `generate_order_number`: `ORD-`, the two-digit year, month and day of
      `today`, a dash and four symbols picked at random from the alphabet.
      The random picks are positions in the alphabet. */
  function GenerateOrderNumber(today: Date, picks: seq<int>): (s: string)
    requires |picks| == 4 && forall i :: 0 <= i < 4 ==> 0 <= picks[i] < |ORDER_ALPHABET|
    ensures |s| == 15 && s[..4] == "ORD-" && s[10] == '-'
    ensures forall i :: 0 <= i < 4 ==> s[11 + i] == ORDER_ALPHABET[picks[i]]
  {
    var c := FromOrdinal(today);
    FromOrdinalRoundTrip(today);
    var suffix := seq(4, i requires 0 <= i < 4 => ORDER_ALPHABET[picks[i]]);
    var s := RenderOrderNumber(OrderParts(c.year % 100, c.month, c.day, suffix));
    assert s[11..] == suffix;
    s
  }

  /** Parsing undoes rendering. */
  lemma ParseRender(p: OrderParts)
    requires ValidParts(p)
    ensures ParseOrderNumber(RenderOrderNumber(p)) == Some(p)
  {
    var s := RenderOrderNumber(p);
    var yy, mm, dd := PadDigits(p.yy, 2), PadDigits(p.mm, 2), PadDigits(p.dd, 2);
    assert s[4..10] == yy + mm + dd;
    assert (yy + mm + dd)[0..2] == yy && (yy + mm + dd)[2..4] == mm && (yy + mm + dd)[4..6] == dd;
    assert Pow10(2) == 100;
    PadDigitsValue(p.yy, 2);
    PadDigitsValue(p.mm, 2);
    PadDigitsValue(p.dd, 2);
    assert s[11..] == p.suffix;
  }

  /** Six digits are the three two-digit renderings of their pairs. */
  lemma SixDigits(d: string)
    requires |d| == 6 && AllDigits(d)
    ensures AllDigits(d[0..2]) && AllDigits(d[2..4]) && AllDigits(d[4..6])
    ensures Value(d[0..2]) < 100 && Value(d[2..4]) < 100 && Value(d[4..6]) < 100
    ensures PadDigits(Value(d[0..2]), 2) + PadDigits(Value(d[2..4]), 2) + PadDigits(Value(d[4..6]), 2) == d
  {
    var a, b, c := d[0..2], d[2..4], d[4..6];
    assert d == a + b + c && AllDigits(a) && AllDigits(b) && AllDigits(c) by {
      PairsOfSix(d);
    }
    TwoDigits(a);
    TwoDigits(b);
    TwoDigits(c);
  }

  lemma PairsOfSix(d: string)
    requires |d| == 6 && AllDigits(d)
    ensures d == d[0..2] + d[2..4] + d[4..6]
    ensures AllDigits(d[0..2]) && AllDigits(d[2..4]) && AllDigits(d[4..6])
  {
    assert forall i :: 0 <= i < 2 ==> d[0..2][i] == d[i] && d[2..4][i] == d[2 + i] && d[4..6][i] == d[4 + i];
  }

  /** Two digits are the two-digit rendering of a number below 100. */
  lemma TwoDigits(e: string)
    requires |e| == 2 && AllDigits(e)
    ensures Value(e) < 100 && PadDigits(Value(e), 2) == e
  {
    ValuePadDigits(e);
    assert Pow10(2) == 100;
  }

  /** Rendering undoes parsing: a well-formed order number is the rendering
      of its own fields. */
  lemma RenderParse(s: string)
    requires ParseOrderNumber(s).Some?
    ensures RenderOrderNumber(ParseOrderNumber(s).value) == s
  {
    var d := s[4..10];
    assert RenderOrderNumber(ParseOrderNumber(s).value) == "ORD-" + d + "-" + s[11..] by {
      var p := ParseOrderNumber(s).value;
      assert p == OrderParts(Value(d[0..2]), Value(d[2..4]), Value(d[4..6]), s[11..]);
      SixDigits(d);
    }
    assert s == s[..4] + d + [s[10]] + s[11..];
  }

  /** The order number carries the day it was generated (year modulo 100)
      and the random picks, and nothing else. */
  lemma OrderNumberFields(today: Date, picks: seq<int>)
    requires |picks| == 4 && forall i :: 0 <= i < 4 ==> 0 <= picks[i] < |ORDER_ALPHABET|
    ensures var c, p := FromOrdinal(today), ParseOrderNumber(GenerateOrderNumber(today, picks));
      && p.Some?
      && p.value.yy == c.year % 100 && p.value.mm == c.month && p.value.dd == c.day
      && forall i :: 0 <= i < 4 ==> p.value.suffix[i] == ORDER_ALPHABET[picks[i]]
  {
    var c := FromOrdinal(today);
    FromOrdinalRoundTrip(today);
    var suffix := seq(4, i requires 0 <= i < 4 => ORDER_ALPHABET[picks[i]]);
    ParseRender(OrderParts(c.year % 100, c.month, c.day, suffix));
  }

  /** Two order numbers generated on days of the same century collide only
      when the days are equal and the random picks agree. */
  lemma OrderNumberCollision(a: Date, b: Date, pa: seq<int>, pb: seq<int>)
    requires |pa| == 4 && forall i :: 0 <= i < 4 ==> 0 <= pa[i] < |ORDER_ALPHABET|
    requires |pb| == 4 && forall i :: 0 <= i < 4 ==> 0 <= pb[i] < |ORDER_ALPHABET|
    requires FromOrdinal(a).year / 100 == FromOrdinal(b).year / 100
    requires GenerateOrderNumber(a, pa) == GenerateOrderNumber(b, pb)
    ensures a == b
    ensures forall i :: 0 <= i < 4 ==> ORDER_ALPHABET[pa[i]] == ORDER_ALPHABET[pb[i]]
  {
    OrderNumberFields(a, pa);
    OrderNumberFields(b, pb);
    var ca, cb := FromOrdinal(a), FromOrdinal(b);
    assert ca == cb;
    FromOrdinalRoundTrip(a);
    FromOrdinalRoundTrip(b);
  }

  /** Days a hundred years apart share the date part: 2024-01-05 (day
      738890) and 1924-01-05 (day 702365) give the same order number for
      the same picks. */
  lemma OrderNumberCentury(picks: seq<int>)
    requires |picks| == 4 && forall i :: 0 <= i < 4 ==> 0 <= picks[i] < |ORDER_ALPHABET|
    ensures FromOrdinal(738890) == Civil(2024, 1, 5) && FromOrdinal(702365) == Civil(1924, 1, 5)
    ensures GenerateOrderNumber(738890, picks) == GenerateOrderNumber(702365, picks)
  {
    assert ToOrdinal(Civil(2024, 1, 5)) == 738890;
    assert ToOrdinal(Civil(1924, 1, 5)) == 702365;
    ToOrdinalRoundTrip(Civil(2024, 1, 5));
    ToOrdinalRoundTrip(Civil(1924, 1, 5));
  }

  // ---------------------------------------------------------------------
  // Date ranges

  /** The step of `date_range` in days: a day, a week, 30 days or 365 days;
      any other interval name falls back to a day. */
  function IntervalDays(interval: string): (d: int)
    ensures d == 1 || d == 7 || d == 30 || d == 365
    ensures interval == "week" ==> d == 7
    ensures interval == "month" ==> d == 30
    ensures interval == "year" ==> d == 365
    ensures interval !in {"week", "month", "year"} ==> d == 1
  {
    if interval == "day" then 1
    else if interval == "week" then 7
    else if interval == "month" then 30
    else if interval == "year" then 365
    else 1
  }

  /** The first instant past the last representable one (year 9999 ends). */
  const INSTANT_LIMIT: int := (MAX_ORDINAL + 1) * SECONDS_PER_DAY

  /** How many steps of `step` fit from `start` up to and including `end`. */
  function RangeLength(start: int, end: int, step: int): nat
    requires step > 0
    decreases end - start
  {
    if start > end then 0 else 1 + RangeLength(start + step, end, step)
  }

  /** `date_range`: every `start + k * step` up to `end`. Stepping past the
      last representable instant raises `OverflowError` in Python, which
      is `None` here, even when the offending value would not be kept. */
  method DateRange(start: Instant, end: Instant, interval: string) returns (r: Option<seq<Instant>>)
    ensures var step := IntervalDays(interval) * SECONDS_PER_DAY; var n := RangeLength(start, end, step);
      && (r.None? <==> n > 0 && start + n * step >= INSTANT_LIMIT)
      && (r.Some? ==> |r.value| == n && forall k :: 0 <= k < n ==> r.value[k] == start + k * step)
  {
    var step := IntervalDays(interval) * SECONDS_PER_DAY;
    var dates: seq<Instant> := [];
    var current: int := start;
    while current <= end
      invariant current == start + |dates| * step
      invariant current < INSTANT_LIMIT
      invariant |dates| + RangeLength(current, end, step) == RangeLength(start, end, step)
      invariant forall k :: 0 <= k < |dates| ==> dates[k] == start + k * step
      decreases end - current
    {
      dates := dates + [current];
      if current + step >= INSTANT_LIMIT {
        assert RangeLength(current + step, end, step) == 0;
        return None;
      }
      current := current + step;
    }
    return Some(dates);
  }

  /** The range is exactly the steps that do not pass the end: the last one
      is at or before it and one more step would pass it. */
  lemma {:induction false} RangeCovers(start: int, end: int, step: int)
    requires step > 0 && start <= end
    ensures var n := RangeLength(start, end, step);
      && n >= 1
      && start + (n - 1) * step <= end < start + n * step
    decreases end - start
  {
    var n := RangeLength(start, end, step);
    if start + step <= end {
      RangeCovers(start + step, end, step);
      var m := RangeLength(start + step, end, step);
      assert n == m + 1;
      assert start + step + (m - 1) * step == start + (n - 1) * step;
      assert start + step + m * step == start + n * step;
    }
  }

  // ---------------------------------------------------------------------
  // Percentage change

  /** `calculate_percentage_change`: infinity for growth from zero, zero for
      no growth from zero, and otherwise the change relative to the old
      value, times 100. Unlike the comparator's formula, a negative old
      value is divided by. */
  function CalculatePercentageChange(oldValue: real, newValue: real): (p: Analytics.Pct)
    ensures oldValue == 0.0 ==> (p.PosInf? <==> newValue > 0.0) && (p.Finite? ==> p.value == 0.0)
    ensures oldValue != 0.0 ==> p.Finite? && p.value * oldValue == (newValue - oldValue) * 100.0
  {
    if oldValue == 0.0 then
      if newValue > 0.0 then Analytics.PosInf else Analytics.Finite(0.0)
    else
      var q := (newValue - oldValue) / oldValue;
      assert q * oldValue == newValue - oldValue;
      Analytics.Finite(q * 100.0)
  }

  /** On a positive old value the helper and the revenue comparator agree,
      and on zero they agree too. */
  lemma PercentageAgreesWithComparator(previous: int, current: int)
    requires previous >= 0
    ensures CalculatePercentageChange(previous as real, current as real) == Analytics.PercentChange(previous, current)
  {
  }

  /** On a negative old value they part: from -100 to 50 the helper answers
      -150 where the comparator answers infinity. */
  lemma PercentageNegativeOld()
    ensures CalculatePercentageChange(-100.0, 50.0) == Analytics.Finite(-150.0)
    ensures Analytics.PercentChange(-100, 50) == Analytics.PosInf
  {
    assert (50.0 - -100.0) / -100.0 == -1.5;
  }
}
