/** The dashboard summary (app/api/dashboard.py): the current and previous
    windows ending today, the sales, revenue and inventory figures taken
    from the analytics, the five best-selling products and the revenue per
    platform. Today's date is a parameter. */
module Dashboard {
  import opened Wrappers
  import opened Calendar
  import opened Lists
  import opened Grouping
  import opened Sorting
  import opened Models
  import opened Schemas
  import opened Analytics
  import opened StockReports

  const DEFAULT_PERIOD_DAYS: int := 30
  const MAX_PERIOD_DAYS: int := 365

  /** Why no summary is produced: the query parameter is outside 1..365
      (the framework answers 422), or the window arithmetic leaves the
      calendar (Python raises `OverflowError`). */
  datatype DashboardError = PeriodOutOfRange | DateOutOfRange

  /** The windows the summary reads, as day numbers. */
  datatype Windows = Windows(start: Date, end: Date, previousStart: Date, previousEnd: Date)

  /** `start = today - period_days`; the previous window is the current one
      shifted back by `period_days`. */
  function DashboardWindows(today: Date, periodDays: int): (r: Result<Windows, DashboardError>)
    ensures r.Failure? <==> !(1 <= periodDays <= MAX_PERIOD_DAYS) || today - 2 * periodDays < 1
    ensures r.Failure? && !(1 <= periodDays <= MAX_PERIOD_DAYS) ==> r.error == PeriodOutOfRange
    ensures r.Success? ==>
      && r.value.end == today
      && r.value.end - r.value.start == periodDays
      && r.value.previousEnd == r.value.start
      && r.value.previousEnd - r.value.previousStart == r.value.end - r.value.start
  {
    if !(1 <= periodDays <= MAX_PERIOD_DAYS) then Failure(PeriodOutOfRange)
    else if today - 2 * periodDays < 1 then Failure(DateOutOfRange)
    else
      var start: Date := today - periodDays;
      Success(Windows(start, today, start - periodDays, today - periodDays))
  }

  /** The two windows share their boundary: an order placed at midnight of
      the current start day is counted in both. */
  lemma WindowsShareBoundary(today: Date, periodDays: int, t: Instant)
    requires DashboardWindows(today, periodDays).Success?
    ensures var w := DashboardWindows(today, periodDays).value;
      t == Midnight(w.start) ==> InWindow(t, w.start, w.end) && InWindow(t, w.previousStart, w.previousEnd)
  {
  }

  // ---------------------------------------------------------------------
  // Orders in the window

  function SaleInWindow(start: Date, end: Date): Sale -> bool {
    (s: Sale) => InWindow(s.orderDate, start, end)
  }

  function WindowSales(db: Db, start: Date, end: Date): seq<Sale> {
    Filter(db.sales, SaleInWindow(start, end))
  }

  /** The line items of a list of orders, order by order. */
  function Lines(sales: seq<Sale>): (lines: seq<SaleItem>)
    ensures forall item :: item in lines ==> exists s :: s in sales && item in s.items
  {
    if |sales| == 0 then []
    else
      var init, last := sales[..|sales| - 1], sales[|sales| - 1];
      var front := Lines(init);
      assert forall s :: s in init ==> s in sales;
      front + last.items
  }

  // ---------------------------------------------------------------------
  // Top products

  datatype TopProduct = TopProduct(id: int, name: string, totalSold: int, totalRevenue: int)

  function TotalSold(p: TopProduct): int {
    p.totalSold
  }

  function LineKnown(db: Db): SaleItem -> bool {
    (item: SaleItem) => FindProduct(db, item.productId).Some?
  }

  /** The in-window lines the product join keeps: those of existing products. */
  function TopLines(db: Db, start: Date, end: Date): seq<SaleItem> {
    Filter(Lines(WindowSales(db, start, end)), LineKnown(db))
  }

  /** Reference: the units of a product sold on the given lines. */
  function UnitsSold(lines: seq<SaleItem>, productId: int): int {
    if |lines| == 0 then 0
    else UnitsSold(lines[..|lines| - 1], productId)
         + (if lines[|lines| - 1].productId == productId then lines[|lines| - 1].quantity else 0)
  }

  /** Reference: a product's line revenue, price times quantity less the discount, summed. */
  function ProductRevenue(lines: seq<SaleItem>, productId: int): int {
    if |lines| == 0 then 0
    else ProductRevenue(lines[..|lines| - 1], productId)
         + (if lines[|lines| - 1].productId == productId then LineRevenue(lines[|lines| - 1]) else 0)
  }

  function QuantityEntries(lines: seq<SaleItem>): (es: seq<Entry<int>>)
    ensures |es| == |lines|
  {
    seq(|lines|, i requires 0 <= i < |lines| => Entry(lines[i].productId, lines[i].quantity))
  }

  function RevenueEntries(lines: seq<SaleItem>): (es: seq<Entry<int>>)
    ensures |es| == |lines|
  {
    seq(|lines|, i requires 0 <= i < |lines| => Entry(lines[i].productId, LineRevenue(lines[i])))
  }

  /** The product's name, for a product id the join found. */
  function NameOf(db: Db, productId: int): string {
    match FindProduct(db, productId)
    case Some(p) => p.name
    case None => ""
  }

  /** One row per product sold, in first-seen order. */
  function ProductRows(db: Db, lines: seq<SaleItem>): (rows: seq<TopProduct>)
    ensures |rows| == |GroupBy(QuantityEntries(lines))|
  {
    var sold, revenue := GroupBy(QuantityEntries(lines)), GroupBy(RevenueEntries(lines));
    seq(|sold|, i requires 0 <= i < |sold| =>
      TopProduct(sold[i].key, NameOf(db, sold[i].key), sold[i].total, Lookup(revenue, sold[i].key).total))
  }

  /** The top-products table: products ordered by units sold, at most five,
      with no product left out that sold more units than one kept. */
  function TopProducts(db: Db, start: Date, end: Date): (r: seq<TopProduct>)
    ensures |r| <= 5
    ensures |r| == 5 || |r| == |ProductRows(db, TopLines(db, start, end))|
    ensures SortedDesc(r, TotalSold)
    ensures multiset(r) <= multiset(ProductRows(db, TopLines(db, start, end)))
    ensures var rows := ProductRows(db, TopLines(db, start, end));
      forall x :: x in multiset(rows) - multiset(r) ==> forall i :: 0 <= i < |r| ==> x.totalSold <= r[i].totalSold
  {
    TopN(ProductRows(db, TopLines(db, start, end)), TotalSold, 5)
  }

  lemma {:induction false} QuantityEntriesSum(lines: seq<SaleItem>, productId: int)
    ensures SumOf(QuantityEntries(lines), productId) == UnitsSold(lines, productId)
  {
    if |lines| > 0 {
      var init := lines[..|lines| - 1];
      assert QuantityEntries(lines)[..|lines| - 1] == QuantityEntries(init);
      QuantityEntriesSum(init, productId);
    }
  }

  lemma {:induction false} RevenueEntriesSum(lines: seq<SaleItem>, productId: int)
    ensures SumOf(RevenueEntries(lines), productId) == ProductRevenue(lines, productId)
  {
    if |lines| > 0 {
      var init := lines[..|lines| - 1];
      assert RevenueEntries(lines)[..|lines| - 1] == RevenueEntries(init);
      RevenueEntriesSum(init, productId);
    }
  }

  lemma EntryKeysOfLines(lines: seq<SaleItem>)
    ensures EntryKeys(QuantityEntries(lines)) == set i | 0 <= i < |lines| :: lines[i].productId
  {
    var es := QuantityEntries(lines);
    assert forall i :: 0 <= i < |lines| ==> es[i].key == lines[i].productId;
  }

  /** Each product row carries a product that was sold, the units sold
      and the line revenue of exactly that product; no product has two rows. */
  lemma ProductRowsCorrect(db: Db, lines: seq<SaleItem>, i: int)
    requires 0 <= i < |ProductRows(db, lines)|
    ensures var rows := ProductRows(db, lines);
      && rows[i].totalSold == UnitsSold(lines, rows[i].id)
      && rows[i].totalRevenue == ProductRevenue(lines, rows[i].id)
      && (exists k :: 0 <= k < |lines| && lines[k].productId == rows[i].id)
      && forall j :: 0 <= j < |rows| && j != i ==> rows[j].id != rows[i].id
  {
    var rows := ProductRows(db, lines);
    var sold, revenue := GroupBy(QuantityEntries(lines)), GroupBy(RevenueEntries(lines));
    var id := sold[i].key;
    GroupByCorrect(QuantityEntries(lines));
    GroupByCorrect(RevenueEntries(lines));
    LookupOwnKey(sold, i);
    QuantityEntriesSum(lines, id);
    RevenueEntriesSum(lines, id);
    EntryKeysOfLines(lines);
    assert id in GroupKeys(sold);
  }

  /** The table is right row by row: each listed product's units and
      revenue are those of its in-window lines, and no product is listed twice. */
  lemma TopProductsCorrect(db: Db, start: Date, end: Date, i: int)
    requires 0 <= i < |TopProducts(db, start, end)|
    ensures var r, lines := TopProducts(db, start, end), TopLines(db, start, end);
      && r[i].totalSold == UnitsSold(lines, r[i].id)
      && r[i].totalRevenue == ProductRevenue(lines, r[i].id)
      && (exists k :: 0 <= k < |lines| && lines[k].productId == r[i].id)
  {
    var r, lines := TopProducts(db, start, end), TopLines(db, start, end);
    var rows := ProductRows(db, lines);
    assert r[i] in multiset(rows);
    var j :| 0 <= j < |rows| && rows[j] == r[i];
    ProductRowsCorrect(db, lines, j);
  }

  /** A product sold in the window but missing from the table sold no more
      units than any listed product. */
  lemma TopProductsRanked(db: Db, start: Date, end: Date, productId: int, i: int)
    requires var lines := TopLines(db, start, end);
      exists k :: 0 <= k < |lines| && lines[k].productId == productId
    requires forall j :: 0 <= j < |TopProducts(db, start, end)| ==> TopProducts(db, start, end)[j].id != productId
    requires 0 <= i < |TopProducts(db, start, end)|
    ensures UnitsSold(TopLines(db, start, end), productId) <= TopProducts(db, start, end)[i].totalSold
  {
    var r, lines := TopProducts(db, start, end), TopLines(db, start, end);
    var rows := ProductRows(db, lines);
    var j := SoldProductRow(db, lines, productId);
    assert rows[j] in multiset(rows) - multiset(r) by {
      assert forall m :: 0 <= m < |r| ==> r[m] != rows[j];
      assert rows[j] !in multiset(r);
      assert rows[j] in multiset(rows);
    }
  }

  /** Every product some line sold has a row, carrying its units sold. */
  lemma SoldProductRow(db: Db, lines: seq<SaleItem>, productId: int) returns (j: nat)
    requires exists k :: 0 <= k < |lines| && lines[k].productId == productId
    ensures var rows := ProductRows(db, lines);
      j < |rows| && rows[j].id == productId && rows[j].totalSold == UnitsSold(lines, productId)
  {
    var sold := GroupBy(QuantityEntries(lines));
    GroupByCorrect(QuantityEntries(lines));
    EntryKeysOfLines(lines);
    var k :| 0 <= k < |lines| && lines[k].productId == productId;
    assert productId in GroupKeys(sold);
    j :| 0 <= j < |sold| && sold[j].key == productId;
    ProductRowsCorrect(db, lines, j);
  }

  // ---------------------------------------------------------------------
  // Platform distribution

  function PlatformOf(s: Sale): string {
    s.platform
  }

  function GroupTotal(g: Group<string>): int {
    g.total
  }

  /** The platform table: per platform, its number of orders and their
      summed totals, ordered by that sum, largest first. */
  function PlatformDistribution(db: Db, start: Date, end: Date): (r: seq<Group<string>>)
    ensures SortedDesc(r, GroupTotal)
    ensures multiset(r) == multiset(GroupBy(SaleEntries(WindowSales(db, start, end), PlatformOf)))
  {
    SortDesc(GroupBy(SaleEntries(WindowSales(db, start, end), PlatformOf)), GroupTotal)
  }

  /** The order counts add up to the number of orders in the window and the
      revenues to their total; each platform appears once, with exactly its
      own orders. */
  lemma PlatformDistributionCorrect(db: Db, start: Date, end: Date)
    ensures var r, m := PlatformDistribution(db, start, end), WindowSales(db, start, end);
      && SumCounts(r) == |m|
      && SumTotals(r) == Revenue(m)
      && forall i :: 0 <= i < |r| ==>
           r[i].count == |Filter(m, KeyIs(PlatformOf, r[i].key))|
           && r[i].total == Revenue(Filter(m, KeyIs(PlatformOf, r[i].key)))
  {
    var r, m := PlatformDistribution(db, start, end), WindowSales(db, start, end);
    var gs := GroupBy(SaleEntries(m, PlatformOf));
    GroupByCorrect(SaleEntries(m, PlatformOf));
    SaleEntriesTotal(m, PlatformOf);
    SumsPermutation(r, gs);
    forall i | 0 <= i < |r|
      ensures r[i].count == |Filter(m, KeyIs(PlatformOf, r[i].key))|
      ensures r[i].total == Revenue(Filter(m, KeyIs(PlatformOf, r[i].key)))
    {
      assert r[i] in multiset(gs);
      var j :| 0 <= j < |gs| && gs[j] == r[i];
      LookupOwnKey(gs, j);
      SaleEntriesCount(m, PlatformOf, r[i].key);
      SaleEntriesSum(m, PlatformOf, r[i].key);
    }
  }

  // ---------------------------------------------------------------------
  // The summary

  datatype Summary = Summary(
    startDate: string,
    endDate: string,
    days: int,
    totalOrders: nat,
    averageOrderValue: real,
    totalRevenue: int,
    revenueChangePercent: Pct,
    totalProducts: nat,
    outOfStock: nat,
    lowStockAlerts: nat,
    topProducts: seq<TopProduct>,
    platformDistribution: seq<Group<string>>)

  /** `GET /dashboard/summary`. */
  function DashboardSummary(db: Db, today: Date, periodDays: int): (r: Result<Summary, DashboardError>)
    requires LowRowsKnown(db, db.inventories)
    ensures r.Failure? <==> DashboardWindows(today, periodDays).Failure?
    ensures r.Success? ==>
      var w := DashboardWindows(today, periodDays).value;
      var sales := SalesAnalytics(db, SalesAnalyticsParams(w.start, w.end));
      var inventory := InventoryAnalytics(db, InventoryAnalyticsParams(true, None));
      && r.value.startDate == IsoDate(w.start) && r.value.endDate == IsoDate(today) && r.value.days == periodDays
      && r.value.totalOrders == sales.totalSales
      && r.value.averageOrderValue == sales.averageOrderValue
      && r.value.totalRevenue == RevenueAnalytics(db, RevenueAnalyticsParams(w.start, w.end, "day")).totalRevenue
      && r.value.revenueChangePercent
         == CompareRevenuePeriods(db, w.start, w.end, w.previousStart, w.previousEnd, "day", None, None, None).percentChange
      && r.value.totalProducts == inventory.totalProducts
      && r.value.outOfStock == inventory.outOfStockProducts
      && r.value.lowStockAlerts == |inventory.lowStockAlerts|
      && r.value.topProducts == TopProducts(db, w.start, w.end)
      && r.value.platformDistribution == PlatformDistribution(db, w.start, w.end)
  {
    match DashboardWindows(today, periodDays)
    case Failure(e) => Failure(e)
    case Success(w) =>
      var sales := SalesAnalytics(db, SalesAnalyticsParams(w.start, w.end));
      var revenue := RevenueAnalytics(db, RevenueAnalyticsParams(w.start, w.end, "day"));
      var inventory := InventoryAnalytics(db, InventoryAnalyticsParams(true, None));
      var comparison := CompareRevenuePeriods(db, w.start, w.end, w.previousStart, w.previousEnd, "day", None, None, None);
      Success(Summary(
        IsoDate(w.start), IsoDate(w.end), periodDays,
        sales.totalSales, sales.averageOrderValue,
        revenue.totalRevenue, comparison.percentChange,
        inventory.totalProducts, inventory.outOfStockProducts, |inventory.lowStockAlerts|,
        TopProducts(db, w.start, w.end), PlatformDistribution(db, w.start, w.end)))
  }

  /** The summary's revenue change is the percent change from the previous
      window's revenue to the current one, and its low-stock figure counts
      every inventory row at or below its own threshold. */
  lemma DashboardFigures(db: Db, today: Date, periodDays: int)
    requires LowRowsKnown(db, db.inventories)
    requires DashboardSummary(db, today, periodDays).Success?
    ensures var w := DashboardWindows(today, periodDays).value;
      var r := DashboardSummary(db, today, periodDays).value;
      var current := RevenueSales(db, RevenueAnalyticsParams(w.start, w.end, "day"));
      var previous := RevenueSales(db, RevenueAnalyticsParams(w.previousStart, w.previousEnd, "day"));
      && r.totalRevenue == Revenue(current)
      && r.revenueChangePercent == PercentChange(Revenue(previous), Revenue(current))
      && r.lowStockAlerts == |Filter(db.inventories, IsLowStock)|
  {
    var inventory := InventoryAnalytics(db, InventoryAnalyticsParams(true, None));
    assert InventoryRows(db, None) == db.inventories;
  }
}
