/** Sales and revenue analytics (app/crud/crud.py): the sales summary, the
    revenue-by-period summary and the comparison of two revenue windows.

    Each query is given twice: once the way the code computes it (a window
    query, then a second pass over the rows it returned), and once as a
    one-step reference predicate over the whole sales table. The contracts
    connect the two. */
module Analytics {
  import opened Wrappers
  import opened Digits
  import opened Calendar
  import opened Lists
  import opened Grouping
  import opened Models
  import opened Schemas

  // ---------------------------------------------------------------------
  // Shared filters

  /** A timestamp compared with two `date` bounds: each bound stands for its
      midnight, so of the end day only its first instant is inside. */
  predicate InWindow(t: Instant, start: Date, end: Date) {
    Midnight(start) <= t <= Midnight(end)
  }

  /** The window read in days: from the start day on, and up to the end day,
      of which only midnight itself is inside. */
  lemma InWindowByDay(t: Instant, start: Date, end: Date)
    ensures InWindow(t, start, end) <==> start <= DateOf(t) && (DateOf(t) < end || t == Midnight(end))
  {
    var d, r := t / SECONDS_PER_DAY, t % SECONDS_PER_DAY;
    assert t == SECONDS_PER_DAY * d + r && 0 <= r < SECONDS_PER_DAY;
    if start <= d {
      assert Midnight(start) == SECONDS_PER_DAY * start <= SECONDS_PER_DAY * d;
    } else {
      assert SECONDS_PER_DAY * d + SECONDS_PER_DAY <= SECONDS_PER_DAY * start;
    }
    if d < end {
      assert SECONDS_PER_DAY * d + SECONDS_PER_DAY <= SECONDS_PER_DAY * end;
    } else if t != Midnight(end) {
      assert SECONDS_PER_DAY * end <= SECONDS_PER_DAY * d;
    }
  }

  /** A timestamp inside the window falls on a day between the two bounds. */
  lemma InWindowDays(t: Instant, start: Date, end: Date)
    requires InWindow(t, start, end)
    ensures start <= DateOf(t) <= end
  {
    InWindowByDay(t, start, end);
  }

  /** `if platform:` then `Sale.platform == platform`. */
  predicate PlatformMatches(s: Sale, platform: Option<string>) {
    !TruthyText(platform) || s.platform == platform.value
  }

  /** The sum of the stored order totals. */
  function Revenue(sales: seq<Sale>): int {
    if |sales| == 0 then 0 else Revenue(sales[..|sales| - 1]) + sales[|sales| - 1].totalAmount
  }

  /** One entry per sale: its bucket key and its order total. */
  function SaleEntries(sales: seq<Sale>, key: Sale -> string): (es: seq<Entry<string>>)
    ensures |es| == |sales|
  {
    seq(|sales|, i requires 0 <= i < |sales| => Entry(key(sales[i]), sales[i].totalAmount))
  }

  function KeyIs(key: Sale -> string, k: string): Sale -> bool {
    (s: Sale) => key(s) == k
  }

  /** The entry keys are the sales' keys. */
  lemma SaleEntryKeys(sales: seq<Sale>, key: Sale -> string)
    ensures EntryKeys(SaleEntries(sales, key)) == set i | 0 <= i < |sales| :: key(sales[i])
  {
    var es := SaleEntries(sales, key);
    assert forall i :: 0 <= i < |sales| ==> es[i].key == key(sales[i]);
  }

  /** The entries' amounts add up to the sales' revenue. */
  lemma {:induction false} SaleEntriesTotal(sales: seq<Sale>, key: Sale -> string)
    ensures Total(SaleEntries(sales, key)) == Revenue(sales)
  {
    if |sales| > 0 {
      var es, init := SaleEntries(sales, key), sales[..|sales| - 1];
      SaleEntriesTotal(init, key);
      assert es[..|es| - 1] == SaleEntries(init, key);
    }
  }


  /** Per key, the entries count exactly the sales with that key. */
  lemma {:induction false} SaleEntriesCount(sales: seq<Sale>, key: Sale -> string, k: string)
    ensures CountOf(SaleEntries(sales, key), k) == |Filter(sales, KeyIs(key, k))|
  {
    if |sales| > 0 {
      var es, init := SaleEntries(sales, key), sales[..|sales| - 1];
      SaleEntriesCount(init, key, k);
      assert es[..|es| - 1] == SaleEntries(init, key);
      FilterSnoc(sales, KeyIs(key, k));
    }
  }

  /** Per key, the entries sum exactly the totals of the sales with that key. */
  lemma {:induction false} SaleEntriesSum(sales: seq<Sale>, key: Sale -> string, k: string)
    ensures SumOf(SaleEntries(sales, key), k) == Revenue(Filter(sales, KeyIs(key, k)))
  {
    if |sales| > 0 {
      var es, init, last := SaleEntries(sales, key), sales[..|sales| - 1], sales[|sales| - 1];
      SaleEntriesSum(init, key, k);
      SaleEntriesPrefix(sales, key);
      FilterSnoc(sales, KeyIs(key, k));
      if key(last) == k {
        RevenueSnoc(Filter(init, KeyIs(key, k)), last);
      }
    }
  }

  lemma SaleEntriesPrefix(sales: seq<Sale>, key: Sale -> string)
    requires |sales| > 0
    ensures SaleEntries(sales, key)[..|sales| - 1] == SaleEntries(sales[..|sales| - 1], key)
  {
  }

  lemma RevenueSnoc(sales: seq<Sale>, s: Sale)
    ensures Revenue(sales + [s]) == Revenue(sales) + s.totalAmount
  {
    assert (sales + [s])[..|sales|] == sales;
  }


  // ---------------------------------------------------------------------
  // Sales summary

  /** The day a sale falls on, as `order_date.date().isoformat()`. */
  function DayKey(s: Sale): string {
    IsoDate(DateOf(s.orderDate))
  }

  /** The line-item rule of the sales summary: an item selects its sale when
      it is the requested product, or when its product is in the requested
      category. */
  predicate ItemMatchesEither(db: Db, item: SaleItem, productId: Option<int>, categoryId: Option<int>) {
    (TruthyInt(productId) && item.productId == productId.value)
    || (TruthyInt(categoryId) && CategoryOf(db, item.productId) == Some(categoryId.value))
  }

  /** One-step reference: does the sales summary count sale `s`? */
  predicate SalesQueryKeeps(db: Db, params: SalesAnalyticsParams, s: Sale) {
    && InWindow(s.orderDate, params.startDate, params.endDate)
    && PlatformMatches(s, params.platform)
    && (TruthyInt(params.productId) || TruthyInt(params.categoryId) ==>
          exists i :: 0 <= i < |s.items| && ItemMatchesEither(db, s.items[i], params.productId, params.categoryId))
  }

  function SalesQuery(db: Db, params: SalesAnalyticsParams): Sale -> bool {
    (s: Sale) => SalesQueryKeeps(db, params, s)
  }

  /** The sales the summary counts, in table order. */
  function MatchingSales(db: Db, params: SalesAnalyticsParams): seq<Sale> {
    Filter(db.sales, SalesQuery(db, params))
  }

  /** The window query: date range and platform. */
  function SalesWindow(params: SalesAnalyticsParams): Sale -> bool {
    (s: Sale) => InWindow(s.orderDate, params.startDate, params.endDate) && PlatformMatches(s, params.platform)
  }

  /** The second pass over the window's rows. */
  function SalesItemPass(db: Db, params: SalesAnalyticsParams): Sale -> bool {
    (s: Sale) => exists i :: 0 <= i < |s.items| && ItemMatchesEither(db, s.items[i], params.productId, params.categoryId)
  }

  /** `total_revenue / total_sales`, or 0 when there are no sales. */
  function AverageOrderValue(total: int, count: nat): (avg: real)
    ensures count > 0 ==> avg * count as real == total as real
    ensures count == 0 ==> avg == 0.0
  {
    if count > 0 then total as real / count as real else 0.0
  }

  /** The window query followed by the item pass selects exactly the sales
      the one-step reference keeps, the early return on an empty window
      included. */
  lemma SalesTwoPhase(db: Db, params: SalesAnalyticsParams)
    ensures var windowed := Filter(db.sales, SalesWindow(params));
      MatchingSales(db, params)
        == if |windowed| == 0 then []
           else if TruthyInt(params.productId) || TruthyInt(params.categoryId) then Filter(windowed, SalesItemPass(db, params))
           else windowed
  {
    var windowed := Filter(db.sales, SalesWindow(params));
    if TruthyInt(params.productId) || TruthyInt(params.categoryId) {
      FilterFilter(db.sales, SalesWindow(params), SalesItemPass(db, params), SalesQuery(db, params));
    } else {
      FilterExt(db.sales, SalesWindow(params), SalesQuery(db, params));
    }
  }

  /** `get_sales_analytics`: the window query, the early return when it is
      empty, the item pass when a product or category is given, then the
      totals and the per-day fold. */
  function SalesAnalytics(db: Db, params: SalesAnalyticsParams): (r: SalesAnalyticsResponse)
    ensures var m := MatchingSales(db, params);
      && r.totalSales == |m|
      && r.totalRevenue == Revenue(m)
      && r.salesByDate == GroupBy(SaleEntries(m, DayKey))
    ensures r.averageOrderValue == AverageOrderValue(r.totalRevenue, r.totalSales)
    ensures r.totalSales == 0 ==> r.salesByDate == [] && r.totalRevenue == 0
  {
    var windowed := Filter(db.sales, SalesWindow(params));
    SalesTwoPhase(db, params);
    if |windowed| == 0 then
      SalesAnalyticsResponse(0, 0, 0.0, [])
    else
      var kept :=
        if TruthyInt(params.productId) || TruthyInt(params.categoryId)
        then Filter(windowed, SalesItemPass(db, params))
        else windowed;
      var total := Revenue(kept);
      SalesAnalyticsResponse(|kept|, total, AverageOrderValue(total, |kept|), GroupBy(SaleEntries(kept, DayKey)))
  }

  /** `sales_by_date` has one entry per day on which a counted sale falls,
      each day holding the number of counted sales on it and the sum of
      their totals; together the days account for every counted sale. */
  lemma SalesByDateCorrect(db: Db, params: SalesAnalyticsParams)
    ensures var r := SalesAnalytics(db, params);
      var m := MatchingSales(db, params);
      && DistinctKeys(r.salesByDate)
      && NonEmptyGroups(r.salesByDate)
      && GroupKeys(r.salesByDate) == (set i | 0 <= i < |m| :: DayKey(m[i]))
      && SumCounts(r.salesByDate) == r.totalSales
      && SumTotals(r.salesByDate) == r.totalRevenue
      && (forall k :: Lookup(r.salesByDate, k).count == |Filter(m, KeyIs(DayKey, k))|)
      && (forall k :: Lookup(r.salesByDate, k).total == Revenue(Filter(m, KeyIs(DayKey, k))))
  {
    var m := MatchingSales(db, params);
    SalesByDateKeys(db, params);
    DayGroupsShape(m);
    forall k
      ensures Lookup(GroupBy(SaleEntries(m, DayKey)), k).count == |Filter(m, KeyIs(DayKey, k))|
      ensures Lookup(GroupBy(SaleEntries(m, DayKey)), k).total == Revenue(Filter(m, KeyIs(DayKey, k)))
    {
      DayGroup(m, k);
    }
  }

  lemma DayGroupsShape(m: seq<Sale>)
    ensures var gs := GroupBy(SaleEntries(m, DayKey));
      && DistinctKeys(gs) && NonEmptyGroups(gs)
      && SumCounts(gs) == |m| && SumTotals(gs) == Revenue(m)
  {
    GroupByCorrect(SaleEntries(m, DayKey));
    SaleEntriesTotal(m, DayKey);
  }

  lemma DayGroup(m: seq<Sale>, k: string)
    ensures Lookup(GroupBy(SaleEntries(m, DayKey)), k).count == |Filter(m, KeyIs(DayKey, k))|
    ensures Lookup(GroupBy(SaleEntries(m, DayKey)), k).total == Revenue(Filter(m, KeyIs(DayKey, k)))
  {
    GroupByCorrect(SaleEntries(m, DayKey));
    SaleEntriesCount(m, DayKey, k);
    SaleEntriesSum(m, DayKey, k);
  }


  /** Every day listed in `sales_by_date` lies within the requested dates. */
  lemma SalesByDateInWindow(db: Db, params: SalesAnalyticsParams)
    ensures forall k :: k in GroupKeys(SalesAnalytics(db, params).salesByDate) ==>
      exists d: Date :: params.startDate <= d <= params.endDate && k == IsoDate(d)
  {
    var m := MatchingSales(db, params);
    SalesByDateKeys(db, params);
    forall k | k in GroupKeys(SalesAnalytics(db, params).salesByDate)
      ensures exists d: Date :: params.startDate <= d <= params.endDate && k == IsoDate(d)
    {
      var i :| 0 <= i < |m| && DayKey(m[i]) == k;
      MatchingSaleInWindow(db, params, i);
    }
  }

  lemma SalesByDateKeys(db: Db, params: SalesAnalyticsParams)
    ensures var m := MatchingSales(db, params);
      GroupKeys(SalesAnalytics(db, params).salesByDate) == set i | 0 <= i < |m| :: DayKey(m[i])
  {
    var m := MatchingSales(db, params);
    GroupByCorrect(SaleEntries(m, DayKey));
    SaleEntryKeys(m, DayKey);
  }

  lemma MatchingSaleInWindow(db: Db, params: SalesAnalyticsParams, i: int)
    requires 0 <= i < |MatchingSales(db, params)|
    ensures var t := MatchingSales(db, params)[i].orderDate;
      params.startDate <= DateOf(t) <= params.endDate
  {
    var s := MatchingSales(db, params)[i];
    assert SalesQuery(db, params)(s);
    InWindowDays(s.orderDate, params.startDate, params.endDate);
  }



  // ---------------------------------------------------------------------
  // Revenue by period

  datatype Granularity = Day | Week | Month | Year

  /** `str.lower()` on the characters that can lower-case into a letter of
      "day", "week", "month" or "year": ASCII capitals, and the Kelvin sign,
      which lower-cases to 'k'. Every other character is left alone; it can
      never take part in a match either way. */
  function LowerChar(c: char): char {
    if 'A' <= c <= 'Z' then (c as int + 32) as char
    else if c == '\U{212A}' then 'k'
    else c
  }

  function Lower(s: string): (r: string)
    ensures |r| == |s|
  {
    seq(|s|, i requires 0 <= i < |s| => LowerChar(s[i]))
  }

  /** `group_by.lower()`, falling back to "day" for anything unknown. */
  function ParseGroupBy(groupBy: string): (g: Granularity)
    ensures g == Week <==> Lower(groupBy) == "week"
    ensures g == Month <==> Lower(groupBy) == "month"
    ensures g == Year <==> Lower(groupBy) == "year"
    ensures g == Day <==> Lower(groupBy) !in {"week", "month", "year"}
  {
    var l := Lower(groupBy);
    if l == "day" then Day
    else if l == "week" then Week
    else if l == "month" then Month
    else if l == "year" then Year
    else Day
  }

  /** The granularity ignores case, and unknown names mean days. */
  lemma ParseGroupByCases(s: string)
    ensures ParseGroupBy(Lower(s)) == ParseGroupBy(s)
    ensures ParseGroupBy("WEEK") == Week && ParseGroupBy("Month") == Month && ParseGroupBy("yEaR") == Year
    ensures ParseGroupBy("quarter") == Day && ParseGroupBy("") == Day
  {
    assert Lower(Lower(s)) == Lower(s);
    assert Lower("WEEK") == "week";
    assert Lower("Month") == "month";
    assert Lower("yEaR") == "year";
  }

  /** The period label of a timestamp: its day, the Monday starting its week,
      the first of its month (each as an ISO date), or its year number. */
  function BucketKey(g: Granularity, t: Instant): string {
    var d := DateOf(t);
    match g
    case Day => IsoDate(d)
    case Week => IsoDate(WeekStart(d))
    case Month => IsoDate(MonthStart(d))
    case Year =>
      DateYearRange(d);
      NatToString(FromOrdinal(d).year)
  }

  /** Reference: when two timestamps share a period. Weeks are counted in
      whole weeks from 0001-01-01, which is a Monday. */
  predicate SamePeriod(g: Granularity, t1: Instant, t2: Instant) {
    var d1, d2 := DateOf(t1), DateOf(t2);
    match g
    case Day => d1 == d2
    case Week => (d1 - 1) / 7 == (d2 - 1) / 7
    case Month => FromOrdinal(d1).year == FromOrdinal(d2).year && FromOrdinal(d1).month == FromOrdinal(d2).month
    case Year => FromOrdinal(d1).year == FromOrdinal(d2).year
  }

  lemma WeekStartWholeWeeks(d: Date)
    ensures WeekStart(d) == 1 + 7 * ((d - 1) / 7)
  {
    assert (d + 6) % 7 == (d - 1) % 7;
  }

  /** Two timestamps get the same period label exactly when they share a period. */
  lemma BucketKeyExact(g: Granularity, t1: Instant, t2: Instant)
    ensures BucketKey(g, t1) == BucketKey(g, t2) <==> SamePeriod(g, t1, t2)
  {
    var d1, d2 := DateOf(t1), DateOf(t2);
    match g
    case Day =>
      IsoDateInjective(d1, d2);
    case Week =>
      IsoDateInjective(WeekStart(d1), WeekStart(d2));
      WeekStartWholeWeeks(d1);
      WeekStartWholeWeeks(d2);
    case Month =>
      var m1, m2 := MonthStart(d1), MonthStart(d2);
      IsoDateInjective(m1, m2);
      if FromOrdinal(m1) == FromOrdinal(m2) {
        FromOrdinalRoundTrip(m1);
        FromOrdinalRoundTrip(m2);
      }
    case Year =>
      DateYearRange(d1);
      DateYearRange(d2);
      if BucketKey(g, t1) == BucketKey(g, t2) {
        NatToStringInjective(FromOrdinal(d1).year, FromOrdinal(d2).year);
      }
  }

  /** The join filters of the revenue query, read as one line item that
      satisfies every filter given. */
  predicate RevenueItemMatches(db: Db, params: RevenueAnalyticsParams, item: SaleItem) {
    && (!TruthyInt(params.productId) || item.productId == params.productId.value)
    && (!TruthyInt(params.categoryId) || CategoryOf(db, item.productId) == Some(params.categoryId.value))
  }

  /** Does the revenue query return sale `s`? A sale is returned once, however
      many of its items match. */
  predicate RevenueQueryKeeps(db: Db, params: RevenueAnalyticsParams, s: Sale) {
    && InWindow(s.orderDate, params.startDate, params.endDate)
    && PlatformMatches(s, params.platform)
    && (TruthyInt(params.productId) || TruthyInt(params.categoryId) ==>
          exists i :: 0 <= i < |s.items| && RevenueItemMatches(db, params, s.items[i]))
  }

  function RevenueQuery(db: Db, params: RevenueAnalyticsParams): Sale -> bool {
    (s: Sale) => RevenueQueryKeeps(db, params, s)
  }

  function RevenueSales(db: Db, params: RevenueAnalyticsParams): seq<Sale> {
    Filter(db.sales, RevenueQuery(db, params))
  }

  function PeriodKey(g: Granularity): Sale -> string {
    (s: Sale) => BucketKey(g, s.orderDate)
  }

  /** `df.groupby("period")["total_amount"].sum()`, one group per period. */
  function RevenueBuckets(db: Db, params: RevenueAnalyticsParams): seq<Group<string>> {
    GroupBy(SaleEntries(RevenueSales(db, params), PeriodKey(ParseGroupBy(params.groupBy))))
  }

  /** The groups as a dictionary from period label to summed revenue. */
  function AsMap(gs: seq<Group<string>>): map<string, int> {
    map k | k in GroupKeys(gs) :: Lookup(gs, k).total
  }

  /** `get_revenue_analytics`: the total of the returned sales, and per
      period label the total of the returned sales in that period. */
  function RevenueAnalytics(db: Db, params: RevenueAnalyticsParams): (r: RevenueAnalyticsResponse)
    ensures var m := RevenueSales(db, params);
      var g := ParseGroupBy(params.groupBy);
      && r.totalRevenue == Revenue(m)
      && r.revenueByPeriod.Keys == (set i | 0 <= i < |m| :: BucketKey(g, m[i].orderDate))
      && forall k :: k in r.revenueByPeriod ==> r.revenueByPeriod[k] == Revenue(Filter(m, KeyIs(PeriodKey(g), k)))
  {
    var sales := RevenueSales(db, params);
    RevenueMap(sales, ParseGroupBy(params.groupBy));
    if |sales| == 0 then
      RevenueAnalyticsResponse(0, map[])
    else
      RevenueAnalyticsResponse(Revenue(sales), AsMap(RevenueBuckets(db, params)))
  }

  /** The period dictionary of a list of sales: its labels are the sales'
      period labels, and each label maps to the revenue of its sales. */
  lemma RevenueMap(sales: seq<Sale>, g: Granularity)
    ensures var gs := GroupBy(SaleEntries(sales, PeriodKey(g)));
      && AsMap(gs).Keys == (set i | 0 <= i < |sales| :: BucketKey(g, sales[i].orderDate))
      && forall k :: k in AsMap(gs) ==> AsMap(gs)[k] == Revenue(Filter(sales, KeyIs(PeriodKey(g), k)))
  {
    var gs := GroupBy(SaleEntries(sales, PeriodKey(g)));
    RevenueMapKeys(sales, g);
    forall k | k in AsMap(gs) ensures AsMap(gs)[k] == Revenue(Filter(sales, KeyIs(PeriodKey(g), k))) {
      RevenueMapAt(sales, g, k);
    }
  }

  lemma RevenueMapKeys(sales: seq<Sale>, g: Granularity)
    ensures AsMap(GroupBy(SaleEntries(sales, PeriodKey(g)))).Keys
         == (set i | 0 <= i < |sales| :: BucketKey(g, sales[i].orderDate))
  {
    var es := SaleEntries(sales, PeriodKey(g));
    assert AsMap(GroupBy(es)).Keys == GroupKeys(GroupBy(es)) by {
      AsMapFacts(GroupBy(es));
    }
    assert GroupKeys(GroupBy(es)) == EntryKeys(es) by {
      GroupByCorrect(es);
    }
    assert EntryKeys(es) == set i | 0 <= i < |sales| :: PeriodKey(g)(sales[i]) by {
      SaleEntryKeys(sales, PeriodKey(g));
    }
    assert (set i | 0 <= i < |sales| :: PeriodKey(g)(sales[i]))
        == (set i | 0 <= i < |sales| :: BucketKey(g, sales[i].orderDate));
  }

  lemma RevenueMapAt(sales: seq<Sale>, g: Granularity, k: string)
    requires k in AsMap(GroupBy(SaleEntries(sales, PeriodKey(g))))
    ensures AsMap(GroupBy(SaleEntries(sales, PeriodKey(g))))[k] == Revenue(Filter(sales, KeyIs(PeriodKey(g), k)))
  {
    var es := SaleEntries(sales, PeriodKey(g));
    AsMapFacts(GroupBy(es));
    GroupByLookup(es, k);
    SaleEntriesSum(sales, PeriodKey(g), k);
  }

  lemma GroupByLookup(es: seq<Entry<string>>, k: string)
    ensures Lookup(GroupBy(es), k).total == SumOf(es, k)
  {
    GroupByCorrect(es);
  }


  lemma AsMapFacts(gs: seq<Group<string>>)
    ensures AsMap(gs).Keys == GroupKeys(gs)
    ensures forall k :: k in AsMap(gs) ==> AsMap(gs)[k] == Lookup(gs, k).total
  {
  }

  lemma SaleEntriesPerKeyAll(sales: seq<Sale>, key: Sale -> string)
    ensures forall k :: SumOf(SaleEntries(sales, key), k) == Revenue(Filter(sales, KeyIs(key, k)))
    ensures EntryKeys(SaleEntries(sales, key)) == set i | 0 <= i < |sales| :: key(sales[i])
    ensures Total(SaleEntries(sales, key)) == Revenue(sales)
  {
    forall k ensures SumOf(SaleEntries(sales, key), k) == Revenue(Filter(sales, KeyIs(key, k))) {
      SaleEntriesSum(sales, key, k);
    }
    SaleEntryKeys(sales, key);
    SaleEntriesTotal(sales, key);
  }

  /** The period groups have distinct labels, their totals add up to the
      total revenue, and the dictionary holds exactly those groups. */
  lemma RevenueBucketsPartition(db: Db, params: RevenueAnalyticsParams)
    ensures var r := RevenueAnalytics(db, params);
      var gs := RevenueBuckets(db, params);
      && DistinctKeys(gs)
      && SumTotals(gs) == r.totalRevenue
      && r.revenueByPeriod == AsMap(gs)
  {
    var sales := RevenueSales(db, params);
    var g := ParseGroupBy(params.groupBy);
    GroupByCorrect(SaleEntries(sales, PeriodKey(g)));
    SaleEntriesPerKeyAll(sales, PeriodKey(g));
    if |sales| == 0 {
      GroupByEmpty(SaleEntries(sales, PeriodKey(g)));
    }
  }

  /** Two returned sales share a period entry exactly when they share a period. */
  lemma RevenuePeriodsExact(db: Db, params: RevenueAnalyticsParams, i: int, j: int)
    requires 0 <= i < |RevenueSales(db, params)| && 0 <= j < |RevenueSales(db, params)|
    ensures var m := RevenueSales(db, params);
      var g := ParseGroupBy(params.groupBy);
      BucketKey(g, m[i].orderDate) == BucketKey(g, m[j].orderDate) <==> SamePeriod(g, m[i].orderDate, m[j].orderDate)
  {
    var m := RevenueSales(db, params);
    BucketKeyExact(ParseGroupBy(params.groupBy), m[i].orderDate, m[j].orderDate);
  }

  // ---------------------------------------------------------------------
  // Comparing two windows

  /** A percent change: a finite ratio, or `float("inf")`. */
  datatype Pct = Finite(value: real) | PosInf

  /** `((current - previous) / previous) * 100` when the previous total is
      positive; otherwise infinity for a positive current total and 0 if not. */
  function PercentChange(previous: int, current: int): (p: Pct)
    ensures p.PosInf? <==> previous <= 0 && current > 0
    ensures previous <= 0 && current <= 0 ==> p == Finite(0.0)
    ensures previous > 0 ==> p.Finite?
  {
    if previous > 0 then Finite(((current - previous) as real / previous as real) * 100.0)
    else if current > 0 then PosInf
    else Finite(0.0)
  }

  /** Applying a finite percent change to the previous total gives back
      the current one. */
  lemma PercentChangeInverse(previous: int, current: int)
    requires previous > 0
    ensures PercentChange(previous, current).value * previous as real == (current - previous) as real * 100.0
  {
    var q, c := previous as real, (current - previous) as real;
    assert (c / q) * 100.0 * q == c * 100.0;
  }

  /** The percent change has the sign of the absolute change, and is zero
      exactly when nothing changed. */
  lemma PercentChangeSign(previous: int, current: int)
    requires previous > 0
    ensures var p := PercentChange(previous, current);
      && (p.value > 0.0 <==> current > previous)
      && (p.value == 0.0 <==> current == previous)
      && (p.value < 0.0 <==> current < previous)
  {
    var p := PercentChange(previous, current);
    var q := previous as real;
    PercentChangeInverse(previous, current);
    if p.value > 0.0 { assert p.value * q > 0.0; }
    if p.value < 0.0 { assert p.value * q < 0.0; }
  }

  datatype PeriodReport = PeriodReport(
    startDate: string,
    endDate: string,
    totalRevenue: int,
    revenueByPeriod: map<string, int>)

  datatype Comparison = Comparison(
    current: PeriodReport,
    previous: PeriodReport,
    absoluteChange: int,
    percentChange: Pct)

  /** `compare_revenue_periods`: the revenue summary of each window under the
      same filters, passed through with the window's ISO dates, and the
      change from the previous total to the current one. */
  function CompareRevenuePeriods(
    db: Db,
    currentStart: Date, currentEnd: Date,
    previousStart: Date, previousEnd: Date,
    groupBy: string, productId: Option<int>, categoryId: Option<int>, platform: Option<string>): (r: Comparison)
    ensures var cur := RevenueAnalytics(db, RevenueAnalyticsParams(currentStart, currentEnd, groupBy, productId, categoryId, platform));
      var prev := RevenueAnalytics(db, RevenueAnalyticsParams(previousStart, previousEnd, groupBy, productId, categoryId, platform));
      && r.current == PeriodReport(IsoDate(currentStart), IsoDate(currentEnd), cur.totalRevenue, cur.revenueByPeriod)
      && r.previous == PeriodReport(IsoDate(previousStart), IsoDate(previousEnd), prev.totalRevenue, prev.revenueByPeriod)
    ensures r.previous.totalRevenue + r.absoluteChange == r.current.totalRevenue
    ensures r.percentChange == PercentChange(r.previous.totalRevenue, r.current.totalRevenue)
  {
    var cur := RevenueAnalytics(db, RevenueAnalyticsParams(currentStart, currentEnd, groupBy, productId, categoryId, platform));
    var prev := RevenueAnalytics(db, RevenueAnalyticsParams(previousStart, previousEnd, groupBy, productId, categoryId, platform));
    Comparison(
      PeriodReport(IsoDate(currentStart), IsoDate(currentEnd), cur.totalRevenue, cur.revenueByPeriod),
      PeriodReport(IsoDate(previousStart), IsoDate(previousEnd), prev.totalRevenue, prev.revenueByPeriod),
      cur.totalRevenue - prev.totalRevenue,
      PercentChange(prev.totalRevenue, cur.totalRevenue))
  }

  /** A window compared with itself shows no change at all. */
  lemma CompareSameWindow(db: Db, s: Date, e: Date, groupBy: string, productId: Option<int>, categoryId: Option<int>, platform: Option<string>)
    ensures var r := CompareRevenuePeriods(db, s, e, s, e, groupBy, productId, categoryId, platform);
      r.absoluteChange == 0 && r.percentChange == Finite(0.0) && r.current == r.previous
  {
    var r := CompareRevenuePeriods(db, s, e, s, e, groupBy, productId, categoryId, platform);
    var t := r.previous.totalRevenue;
    if t > 0 {
      PercentChangeSign(t, t);
    }
  }

  /** Swapping the windows negates the absolute change. */
  lemma CompareSwapped(db: Db, cs: Date, ce: Date, ps: Date, pe: Date, groupBy: string, productId: Option<int>, categoryId: Option<int>, platform: Option<string>)
    ensures CompareRevenuePeriods(db, ps, pe, cs, ce, groupBy, productId, categoryId, platform).absoluteChange
         == - CompareRevenuePeriods(db, cs, ce, ps, pe, groupBy, productId, categoryId, platform).absoluteChange
  {
  }
}
