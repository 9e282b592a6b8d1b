/** Stock reporting (app/crud/crud.py): the inventory summary, the
    low-stock alert listing, and the paged inventory and sales listings. */
module StockReports {
  import opened Wrappers
  import opened Calendar
  import opened Lists
  import opened Sorting
  import opened Models
  import opened Schemas
  import opened Analytics

  /** A row at or below its own threshold. */
  predicate IsLowStock(inv: Inventory) {
    inv.quantity <= inv.lowStockThreshold
  }

  predicate IsOutOfStock(inv: Inventory) {
    inv.quantity == 0
  }

  /** The inner join with `Product` filtered on the product's category. */
  function InCategory(db: Db, categoryId: int): Inventory -> bool {
    (inv: Inventory) => CategoryOf(db, inv.productId) == Some(categoryId)
  }

  /** Every row's product is on record, so its name can be read. */
  predicate ProductsKnown(db: Db, rows: seq<Inventory>) {
    forall inv :: inv in rows ==> FindProduct(db, inv.productId).Some?
  }

  /** The alert record of a row: its product's id and name, its quantity,
      and always the row's own threshold. */
  function AlertFor(db: Db, inv: Inventory): (a: LowStockAlert)
    requires FindProduct(db, inv.productId).Some?
    ensures a.productId == inv.productId && a.currentQuantity == inv.quantity
    ensures a.threshold == inv.lowStockThreshold
    ensures a.productName == FindProduct(db, inv.productId).value.name
  {
    LowStockAlert(inv.productId, FindProduct(db, inv.productId).value.name, inv.quantity, inv.lowStockThreshold)
  }

  /** Reference: the alert record of each row, in order. */
  function AlertsFor(db: Db, rows: seq<Inventory>): (alerts: seq<LowStockAlert>)
    requires ProductsKnown(db, rows)
    ensures |alerts| == |rows|
  {
    seq(|rows|, i requires 0 <= i < |rows| => AlertFor(db, rows[i]))
  }

  /** Every row at or below its own threshold has its product on record:
      those are the only rows whose product name the summary reads. */
  predicate LowRowsKnown(db: Db, rows: seq<Inventory>) {
    forall inv :: inv in rows && IsLowStock(inv) ==> FindProduct(db, inv.productId).Some?
  }

  lemma LowRowsKnownPrefix(db: Db, rows: seq<Inventory>)
    requires |rows| > 0 && LowRowsKnown(db, rows)
    ensures LowRowsKnown(db, rows[..|rows| - 1])
  {
    assert forall i :: 0 <= i < |rows| - 1 ==> rows[..|rows| - 1][i] == rows[i];
  }

  lemma AlertsForSnoc(db: Db, rows: seq<Inventory>, inv: Inventory)
    requires ProductsKnown(db, rows) && FindProduct(db, inv.productId).Some?
    ensures ProductsKnown(db, rows + [inv])
    ensures AlertsFor(db, rows + [inv]) == AlertsFor(db, rows) + [AlertFor(db, inv)]
  {
    assert forall x :: x in rows + [inv] ==> x in rows || x == inv;
  }

  // ---------------------------------------------------------------------
  // Inventory summary

  /** The rows the inventory summary reads: all of them, or those whose
      product is in the category when one is given. */
  function InventoryRows(db: Db, categoryId: Option<int>): seq<Inventory> {
    if TruthyInt(categoryId) then Filter(db.inventories, InCategory(db, categoryId.value)) else db.inventories
  }

  /** The alert loop of `get_inventory_analytics`, including its
      `low_stock_only` skip. */
  function CollectAlerts(db: Db, rows: seq<Inventory>, lowStockOnly: bool): seq<LowStockAlert>
    requires LowRowsKnown(db, rows)
  {
    if |rows| == 0 then []
    else
      var init, inv := rows[..|rows| - 1], rows[|rows| - 1];
      assert forall i :: 0 <= i < |init| ==> init[i] == rows[i];
      var acc := CollectAlerts(db, init, lowStockOnly);
      if lowStockOnly && inv.quantity > inv.lowStockThreshold then acc
      else if IsLowStock(inv) then acc + [AlertFor(db, inv)]
      else acc
  }

  /** The loop emits exactly the alerts of the low-stock rows, in row order,
      whatever `low_stock_only` says. */
  lemma {:induction false} CollectAlertsFilters(db: Db, rows: seq<Inventory>, lowStockOnly: bool)
    requires LowRowsKnown(db, rows)
    ensures CollectAlerts(db, rows, lowStockOnly) == AlertsFor(db, Filter(rows, IsLowStock))
  {
    if |rows| > 0 {
      var init, inv := rows[..|rows| - 1], rows[|rows| - 1];
      LowRowsKnownPrefix(db, rows);
      CollectAlertsFilters(db, init, lowStockOnly);
      FilterSnoc(rows, IsLowStock);
      if IsLowStock(inv) {
        AlertsForSnoc(db, Filter(init, IsLowStock), inv);
      }
    }
  }


  /** `get_inventory_analytics`: the number of rows, how many are out of
      stock, and an alert for every row at or below its own threshold. */
  function InventoryAnalytics(db: Db, params: InventoryAnalyticsParams): (r: InventoryAnalyticsResponse)
    requires LowRowsKnown(db, InventoryRows(db, params.categoryId))
    ensures var rows := InventoryRows(db, params.categoryId);
      && r.totalProducts == |rows|
      && r.outOfStockProducts == |Filter(rows, IsOutOfStock)|
      && r.lowStockAlerts == AlertsFor(db, Filter(rows, IsLowStock))
    ensures forall i :: 0 <= i < |r.lowStockAlerts| ==> r.lowStockAlerts[i].currentQuantity <= r.lowStockAlerts[i].threshold
  {
    var rows := InventoryRows(db, params.categoryId);
    CollectAlertsFilters(db, rows, params.lowStockOnly);
    InventoryAnalyticsResponse(|rows|, Count(rows, IsOutOfStock), CollectAlerts(db, rows, params.lowStockOnly))
  }

  /** The `low_stock_only` flag never changes the summary. */
  lemma LowStockOnlyIrrelevant(db: Db, categoryId: Option<int>)
    requires LowRowsKnown(db, InventoryRows(db, categoryId))
    ensures InventoryAnalytics(db, InventoryAnalyticsParams(true, categoryId))
         == InventoryAnalytics(db, InventoryAnalyticsParams(false, categoryId))
  {
  }

  /** When no threshold is negative, every out-of-stock row is also alerted,
      so there are at least as many alerts as out-of-stock rows. */
  lemma OutOfStockIsAlerted(db: Db, params: InventoryAnalyticsParams)
    requires LowRowsKnown(db, InventoryRows(db, params.categoryId))
    requires forall inv :: inv in db.inventories ==> inv.lowStockThreshold >= 0
    ensures var r := InventoryAnalytics(db, params);
      r.outOfStockProducts <= |r.lowStockAlerts| <= r.totalProducts
  {
    var rows := InventoryRows(db, params.categoryId);
    assert forall i :: 0 <= i < |rows| ==> rows[i] in db.inventories;
    CountMonotone(rows, IsOutOfStock, IsLowStock);
  }

  // ---------------------------------------------------------------------
  // Low-stock alert listing

  /** The alert line: an override that is set and non-zero replaces every
      row's threshold; otherwise each row uses its own. */
  predicate UnderAlertLine(inv: Inventory, thresholdOverride: Option<int>) {
    if TruthyInt(thresholdOverride) then inv.quantity <= thresholdOverride.value else IsLowStock(inv)
  }

  /** The rows the inner join keeps: their product is on record and they
      are under the alert line. */
  function Joinable(db: Db, thresholdOverride: Option<int>): Inventory -> bool {
    (inv: Inventory) => FindProduct(db, inv.productId).Some? && UnderAlertLine(inv, thresholdOverride)
  }

  /** The join evaluated row by row: each inventory row whose product is on
      record and that is under the alert line gives one alert. */
  function JoinLoop(db: Db, rows: seq<Inventory>, thresholdOverride: Option<int>): (r: seq<LowStockAlert>)
    ensures |r| <= |rows|
  {
    if |rows| == 0 then []
    else
      var init, inv := rows[..|rows| - 1], rows[|rows| - 1];
      var acc := JoinLoop(db, init, thresholdOverride);
      match FindProduct(db, inv.productId)
      case Some(p) =>
        if UnderAlertLine(inv, thresholdOverride)
        then acc + [LowStockAlert(inv.productId, p.name, inv.quantity, inv.lowStockThreshold)]
        else acc
      case None => acc
  }

  /** Every joinable row has its product on record. */
  lemma JoinedKnown(db: Db, rows: seq<Inventory>, thresholdOverride: Option<int>)
    ensures ProductsKnown(db, Filter(rows, Joinable(db, thresholdOverride)))
  {
  }

  /** The row-by-row join is the alert of each joinable row, in row order. */
  lemma {:induction false} JoinLoopExact(db: Db, rows: seq<Inventory>, thresholdOverride: Option<int>)
    ensures ProductsKnown(db, Filter(rows, Joinable(db, thresholdOverride)))
    ensures JoinLoop(db, rows, thresholdOverride) == AlertsFor(db, Filter(rows, Joinable(db, thresholdOverride)))
  {
    JoinedKnown(db, rows, thresholdOverride);
    if |rows| > 0 {
      var init, inv := rows[..|rows| - 1], rows[|rows| - 1];
      JoinLoopExact(db, init, thresholdOverride);
      FilterSnoc(rows, Joinable(db, thresholdOverride));
      if Joinable(db, thresholdOverride)(inv) {
        AlertsForSnoc(db, Filter(init, Joinable(db, thresholdOverride)), inv);
      }
    }
  }

  /** The alerts of a list of known rows are exactly the alerts of its members. */
  lemma AlertsForMembers(db: Db, rows: seq<Inventory>)
    requires ProductsKnown(db, rows)
    ensures forall a :: a in AlertsFor(db, rows) ==> exists inv :: inv in rows && a == AlertFor(db, inv)
    ensures forall inv :: inv in rows ==> AlertFor(db, inv) in AlertsFor(db, rows)
  {
    var alerts := AlertsFor(db, rows);
    forall inv | inv in rows ensures AlertFor(db, inv) in alerts {
      var i :| 0 <= i < |rows| && rows[i] == inv;
      assert alerts[i] == AlertFor(db, inv);
    }
    forall a | a in alerts ensures exists inv :: inv in rows && a == AlertFor(db, inv) {
      var i :| 0 <= i < |alerts| && alerts[i] == a;
      assert rows[i] in rows;
    }
  }

  /** The inner join of products with inventory rows, filtered on the alert
      line: one alert per joined row, in row order, so a row is never
      reported twice nor left out. */
  function JoinAlerts(db: Db, rows: seq<Inventory>, thresholdOverride: Option<int>): (r: seq<LowStockAlert>)
    ensures var joined := Filter(rows, Joinable(db, thresholdOverride));
      && ProductsKnown(db, joined)
      && r == AlertsFor(db, joined)
    ensures |r| <= |rows|
    ensures forall a :: a in r ==>
      exists inv :: inv in rows && FindProduct(db, inv.productId).Some? && UnderAlertLine(inv, thresholdOverride)
                 && a == AlertFor(db, inv)
    ensures forall inv :: inv in rows && FindProduct(db, inv.productId).Some? && UnderAlertLine(inv, thresholdOverride) ==>
      AlertFor(db, inv) in r
  {
    var joined := Filter(rows, Joinable(db, thresholdOverride));
    JoinLoopExact(db, rows, thresholdOverride);
    AlertsForMembers(db, joined);
    JoinLoop(db, rows, thresholdOverride)
  }

  /** `get_low_stock_alerts`: one alert per inventory row with a product that
      is at or below the alert line; the reported threshold is the row's own
      even when an override decided the selection. */
  function LowStockAlerts(db: Db, thresholdOverride: Option<int>): (r: seq<LowStockAlert>)
    ensures var joined := Filter(db.inventories, Joinable(db, thresholdOverride));
      && ProductsKnown(db, joined)
      && r == AlertsFor(db, joined)
    ensures |r| <= |db.inventories|
    ensures forall a :: a in r ==>
      exists inv :: inv in db.inventories && FindProduct(db, inv.productId).Some? && UnderAlertLine(inv, thresholdOverride)
                 && a == AlertFor(db, inv)
    ensures forall inv :: inv in db.inventories && FindProduct(db, inv.productId).Some? && UnderAlertLine(inv, thresholdOverride) ==>
      AlertFor(db, inv) in r
  {
    JoinAlerts(db, db.inventories, thresholdOverride)
  }

  /** An override of 0 is falsy, so it behaves as no override at all. */
  lemma ZeroOverrideIsNoOverride(db: Db, rows: seq<Inventory>)
    ensures JoinAlerts(db, rows, Some(0)) == JoinAlerts(db, rows, None)
  {
    FilterExt(rows, Joinable(db, Some(0)), Joinable(db, None));
  }

  /** Without an override, the alert listing and the inventory summary's
      alerts are the same list. */
  lemma JoinAlertsMatchesSummary(db: Db, rows: seq<Inventory>)
    requires LowRowsKnown(db, rows)
    ensures JoinAlerts(db, rows, None) == AlertsFor(db, Filter(rows, IsLowStock))
  {
    FilterExt(rows, Joinable(db, None), IsLowStock);
  }

  lemma LowStockAlertsMatchSummary(db: Db)
    requires LowRowsKnown(db, db.inventories)
    ensures LowStockAlerts(db, None) == LowStockAlerts(db, Some(0))
    ensures LowStockAlerts(db, None) == InventoryAnalytics(db, InventoryAnalyticsParams()).lowStockAlerts
  {
    ZeroOverrideIsNoOverride(db, db.inventories);
    JoinAlertsMatchesSummary(db, db.inventories);
  }

  /** A row with 15 units and threshold 10 is alerted under an override of
      20, and the alert still reports the threshold 10. */
  lemma OverrideKeepsOwnThreshold()
    ensures var db := Db([], [Product(7, "Mug", "MUG-1", 1200, 1)], [Inventory(1, 7, 15, lowStockThreshold := 10)], [], [], []);
      && LowStockAlerts(db, Some(20)) == [LowStockAlert(7, "Mug", 15, 10)]
      && LowStockAlerts(db, None) == []
  {
    var db := Db([], [Product(7, "Mug", "MUG-1", 1200, 1)], [Inventory(1, 7, 15, lowStockThreshold := 10)], [], [], []);
    var inv := db.inventories[0];
    assert FindProduct(db, 7) == Some(db.products[0]);
    assert db.inventories[..0] == [];
    FilterSnoc(db.inventories, Joinable(db, Some(20)));
    FilterSnoc(db.inventories, Joinable(db, None));
    assert Filter(db.inventories, Joinable(db, Some(20))) == [inv];
    assert Filter(db.inventories, Joinable(db, None)) == [];
    assert AlertsFor(db, [inv]) == [AlertFor(db, inv)];
  }

  // ---------------------------------------------------------------------
  // Listings

  predicate InventoryListed(db: Db, inv: Inventory, lowStockOnly: bool, categoryId: Option<int>) {
    (lowStockOnly ==> IsLowStock(inv))
    && (TruthyInt(categoryId) ==> CategoryOf(db, inv.productId) == Some(categoryId.value))
  }

  /** The rows `get_inventories` lists, as one predicate. */
  function InventoryListing(db: Db, lowStockOnly: bool, categoryId: Option<int>): Inventory -> bool {
    (inv: Inventory) => InventoryListed(db, inv, lowStockOnly, categoryId)
  }

  /** The rows after the query's two optional filters, applied one after the other. */
  function InventoryQueryRows(db: Db, lowStockOnly: bool, categoryId: Option<int>): seq<Inventory> {
    var low := if lowStockOnly then Filter(db.inventories, IsLowStock) else db.inventories;
    if TruthyInt(categoryId) then Filter(low, InCategory(db, categoryId.value)) else low
  }

  /** Chaining the low-stock filter and the category join is one pass over
      the table with their conjunction. */
  lemma InventoryQueryOnePass(db: Db, lowStockOnly: bool, categoryId: Option<int>)
    ensures InventoryQueryRows(db, lowStockOnly, categoryId) == Filter(db.inventories, InventoryListing(db, lowStockOnly, categoryId))
  {
    var xs, listed := db.inventories, InventoryListing(db, lowStockOnly, categoryId);
    if lowStockOnly && TruthyInt(categoryId) {
      FilterFilter(xs, IsLowStock, InCategory(db, categoryId.value), listed);
    } else if lowStockOnly {
      FilterExt(xs, IsLowStock, listed);
    } else if TruthyInt(categoryId) {
      FilterExt(xs, InCategory(db, categoryId.value), listed);
    } else {
      FilterKeepsAll(xs, listed);
    }
  }

  /** `get_inventories`: the optional low-stock and category filters, then
      `OFFSET skip LIMIT limit`. The page is the `skip`-th slice of the
      listed rows in table order, with the length that gives. */
  function ListInventories(db: Db, skip: nat, limit: nat, lowStockOnly: bool, categoryId: Option<int>): (r: seq<Inventory>)
    ensures r == Page(Filter(db.inventories, InventoryListing(db, lowStockOnly, categoryId)), skip, limit)
    ensures var n := |Filter(db.inventories, InventoryListing(db, lowStockOnly, categoryId))|;
      |r| == if skip >= n then 0 else if limit < n - skip then limit else n - skip
    ensures forall inv :: inv in r ==> inv in db.inventories && InventoryListed(db, inv, lowStockOnly, categoryId)
    ensures skip == 0 && limit >= |db.inventories| ==>
      forall inv :: inv in db.inventories && InventoryListed(db, inv, lowStockOnly, categoryId) ==> inv in r
  {
    var rows := InventoryQueryRows(db, lowStockOnly, categoryId);
    InventoryQueryOnePass(db, lowStockOnly, categoryId);
    PageFrom(rows, skip, limit);
    assert skip == 0 && limit >= |rows| ==> Page(rows, skip, limit) == rows;
    Page(rows, skip, limit)
  }

  predicate SaleListed(s: Sale, customerId: Option<int>, startDate: Option<Date>, endDate: Option<Date>, platform: Option<string>) {
    && (TruthyInt(customerId) ==> s.customerId == customerId.value)
    && (startDate.Some? ==> Midnight(startDate.value) <= s.orderDate)
    && (endDate.Some? ==> s.orderDate <= Midnight(endDate.value))
    && PlatformMatches(s, platform)
  }

  function SalesListing(customerId: Option<int>, startDate: Option<Date>, endDate: Option<Date>, platform: Option<string>): Sale -> bool {
    (s: Sale) => SaleListed(s, customerId, startDate, endDate, platform)
  }

  function OrderTime(s: Sale): int {
    s.orderDate
  }

  /** `get_sales`: the optional filters, newest order first, then
      `OFFSET skip LIMIT limit`. */
  function ListSales(db: Db, skip: nat, limit: nat, customerId: Option<int>, startDate: Option<Date>, endDate: Option<Date>, platform: Option<string>): (r: seq<Sale>)
    ensures var n := |Filter(db.sales, SalesListing(customerId, startDate, endDate, platform))|;
      |r| == if skip >= n then 0 else if limit < n - skip then limit else n - skip
    ensures SortedDesc(r, OrderTime)
    ensures forall s :: s in r ==> s in db.sales && SaleListed(s, customerId, startDate, endDate, platform)
    ensures skip == 0 ==> forall s :: s in db.sales && SaleListed(s, customerId, startDate, endDate, platform) && s !in r ==>
      forall i :: 0 <= i < |r| ==> s.orderDate <= r[i].orderDate
    ensures skip == 0 && limit >= |db.sales| ==>
      forall s :: s in db.sales && SaleListed(s, customerId, startDate, endDate, platform) ==> s in r
    ensures exists sorted: seq<Sale> ::
      && multiset(sorted) == multiset(Filter(db.sales, SalesListing(customerId, startDate, endDate, platform)))
      && SortedDesc(sorted, OrderTime)
      && r == Page(sorted, skip, limit)
  {
    ListSalesPage(db, skip, limit, customerId, startDate, endDate, platform);
    Page(SortDesc(Filter(db.sales, SalesListing(customerId, startDate, endDate, platform)), OrderTime), skip, limit)
  }

  /** The facts of the sorted and paged sales, phrased with the listing's own filter. */
  lemma ListSalesPage(db: Db, skip: nat, limit: nat, customerId: Option<int>, startDate: Option<Date>, endDate: Option<Date>, platform: Option<string>)
    ensures var p := SalesListing(customerId, startDate, endDate, platform);
      var r := Page(SortDesc(Filter(db.sales, p), OrderTime), skip, limit);
      && (var n := |Filter(db.sales, p)|;
          |r| == if skip >= n then 0 else if limit < n - skip then limit else n - skip)
      && SortedDesc(r, OrderTime)
      && (forall s :: s in r ==> s in db.sales && SaleListed(s, customerId, startDate, endDate, platform))
      && (skip == 0 ==> forall s :: s in db.sales && SaleListed(s, customerId, startDate, endDate, platform) && s !in r ==>
            forall i :: 0 <= i < |r| ==> s.orderDate <= r[i].orderDate)
      && (skip == 0 && limit >= |db.sales| ==>
            forall s :: s in db.sales && SaleListed(s, customerId, startDate, endDate, platform) ==> s in r)
      && (exists sorted: seq<Sale> ::
            && multiset(sorted) == multiset(Filter(db.sales, p))
            && SortedDesc(sorted, OrderTime)
            && r == Page(sorted, skip, limit))
  {
    ListSalesFacts(db.sales, SalesListing(customerId, startDate, endDate, platform), skip, limit);
  }

  /** Sorting the passing sales latest first and paging them: the page is
      the `OFFSET`/`LIMIT` slice of a latest-first permutation of the
      passing sales, so it has the length that slice gives, keeps the order
      and keeps only passing sales; a first page leaves out none later than
      a listed one, and a first page large enough holds every passing sale. */
  lemma ListSalesFacts(sales: seq<Sale>, p: Sale -> bool, skip: nat, limit: nat)
    ensures var sorted := SortDesc(Filter(sales, p), OrderTime);
      var r := Page(sorted, skip, limit);
      var n := |Filter(sales, p)|;
      && |r| == (if skip >= n then 0 else if limit < n - skip then limit else n - skip)
      && SortedDesc(r, OrderTime)
      && (forall s :: s in r ==> s in sales && p(s))
      && (skip == 0 ==> forall s :: s in sales && p(s) && s !in r ==> forall i :: 0 <= i < |r| ==> s.orderDate <= r[i].orderDate)
      && (skip == 0 && limit >= |sales| ==> forall s :: s in sales && p(s) ==> s in r)
    ensures exists sorted: seq<Sale> ::
      && multiset(sorted) == multiset(Filter(sales, p))
      && SortedDesc(sorted, OrderTime)
      && Page(SortDesc(Filter(sales, p), OrderTime), skip, limit) == Page(sorted, skip, limit)
  {
    var rows := Filter(sales, p);
    var sorted := SortDesc(rows, OrderTime);
    PageSorted(sorted, skip, limit);
    ListedSalesMembers(sales, p, skip, limit);
    if skip == 0 {
      ListedSalesRankFirst(sales, p, limit);
      if limit >= |sales| {
        assert Page(sorted, 0, limit) == sorted;
        forall s | s in sales && p(s) ensures s in sorted {
          var i :| 0 <= i < |sales| && sales[i] == s;
          assert s in rows;
          SortedMember(rows, s);
        }
      }
    }
  }

  lemma PageSorted(sorted: seq<Sale>, skip: nat, limit: nat)
    requires SortedDesc(sorted, OrderTime)
    ensures SortedDesc(Page(sorted, skip, limit), OrderTime)
  {
    var r := Page(sorted, skip, limit);
    if skip < |sorted| {
      SortedSlice(sorted, OrderTime, skip, skip + |r|);
      assert r == sorted[skip..skip + |r|];
    }
  }

  lemma ListedSalesMembers(sales: seq<Sale>, p: Sale -> bool, skip: nat, limit: nat)
    ensures forall s :: s in Page(SortDesc(Filter(sales, p), OrderTime), skip, limit) ==> s in sales && p(s)
  {
    var rows := Filter(sales, p);
    PageFrom(SortDesc(rows, OrderTime), skip, limit);
    forall s | s in Page(SortDesc(rows, OrderTime), skip, limit) ensures s in sales && p(s) {
      SortedMember(rows, s);
    }
  }

  lemma ListedSalesRankFirst(sales: seq<Sale>, p: Sale -> bool, limit: nat)
    ensures var r := Page(SortDesc(Filter(sales, p), OrderTime), 0, limit);
      forall s :: s in sales && p(s) && s !in r ==> forall i :: 0 <= i < |r| ==> s.orderDate <= r[i].orderDate
  {
    FirstPageRanksFirst(Filter(sales, p), limit);
  }

  /** The first page of rows sorted newest first holds the newest rows. */
  lemma FirstPageRanksFirst(rows: seq<Sale>, limit: nat)
    ensures var r := Page(SortDesc(rows, OrderTime), 0, limit);
      forall s :: s in rows && s !in r ==> forall i :: 0 <= i < |r| ==> s.orderDate <= r[i].orderDate
  {
    var sorted := SortDesc(rows, OrderTime);
    var r := Page(sorted, 0, limit);
    assert r == sorted[..|r|];
    forall s | s in rows && s !in r
      ensures forall i :: 0 <= i < |r| ==> s.orderDate <= r[i].orderDate
    {
      SortedMember(rows, s);
      PrefixRanksFirst(sorted, OrderTime, |r|, s);
    }
  }

  /** Sorting neither adds nor drops a sale. */
  lemma SortedMember(rows: seq<Sale>, s: Sale)
    ensures s in SortDesc(rows, OrderTime) <==> s in rows
  {
    var sorted := SortDesc(rows, OrderTime);
    assert s in sorted <==> s in multiset(sorted);
    assert s in rows <==> s in multiset(rows);
  }

}
