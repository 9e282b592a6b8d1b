/** The request-level rules of the admin API (app/api/endpoints.py): the
    checks each write endpoint makes before it touches the store, and the
    default previous window of the revenue comparison.

    An `HTTPException` the endpoint raises becomes a `Failure` carrying its
    status code and detail text; a request that passes its checks becomes a
    `Success` holding the store after the write. Primary keys, assigned by
    the database, are parameters. */
module Endpoints {
  import opened Wrappers
  import opened Digits
  import opened Calendar
  import opened Lists
  import opened Models
  import opened Schemas
  import opened Stock
  import opened Analytics

  datatype HttpError = HttpError(status: int, detail: string)

  // ---------------------------------------------------------------------
  // Categories and products

  /** `POST /categories/`: a name already in use is refused with 400. */
  function CreateCategory(db: Db, c: CategoryCreate, newId: int): (r: Result<Db, HttpError>)
    ensures r.Failure? <==> exists i :: 0 <= i < |db.categories| && db.categories[i].name == c.name
    ensures r.Failure? ==> r.error == HttpError(400, "Category already exists")
    ensures r.Success? ==>
      && r.value.categories == db.categories + [Category(newId, c.name, c.description)]
      && r.value.(categories := db.categories) == db
  {
    if FindCategoryByName(db, c.name).Some? then Failure(HttpError(400, "Category already exists"))
    else Success(db.(categories := db.categories + [Category(newId, c.name, c.description)]))
  }

  /** Category creation keeps names unique, and the new category is the one
      found by its name. */
  lemma CreateCategoryKeepsNamesUnique(db: Db, c: CategoryCreate, newId: int)
    requires UniqueCategoryNames(db)
    requires CreateCategory(db, c, newId).Success?
    ensures var n := CreateCategory(db, c, newId).value;
      UniqueCategoryNames(n) && FindCategoryByName(n, c.name) == Some(Category(newId, c.name, c.description))
  {
    var n := CreateCategory(db, c, newId).value;
    var last := |db.categories|;
    assert forall j :: 0 <= j < last ==> n.categories[j] == db.categories[j];
    FirstIndexAt(n.categories, (x: Category) => x.name == c.name, last);
  }

  /** `POST /products/`: a SKU already registered is refused with 400; then a
      category id that names no category is refused with 404. */
  function CreateProduct(db: Db, p: ProductCreate, newId: int): (r: Result<Db, HttpError>)
    ensures (exists i :: 0 <= i < |db.products| && db.products[i].sku == p.sku) ==>
      r == Failure(HttpError(400, "SKU already registered"))
    ensures ((forall i :: 0 <= i < |db.products| ==> db.products[i].sku != p.sku)
          && (forall i :: 0 <= i < |db.categories| ==> db.categories[i].id != p.categoryId)) ==>
      r == Failure(HttpError(404, "Category not found"))
    ensures r.Success? <==> FindProductBySku(db, p.sku).None? && FindCategory(db, p.categoryId).Some?
    ensures r.Success? ==>
      && r.value.products == db.products + [Product(newId, p.name, p.sku, p.price, p.categoryId, p.description)]
      && r.value.(products := db.products) == db
  {
    if FindProductBySku(db, p.sku).Some? then Failure(HttpError(400, "SKU already registered"))
    else if FindCategory(db, p.categoryId).None? then Failure(HttpError(404, "Category not found"))
    else Success(db.(products := db.products + [Product(newId, p.name, p.sku, p.price, p.categoryId, p.description)]))
  }

  /** Product creation keeps SKUs unique and never creates a product in a
      missing category. */
  lemma CreateProductKeepsSkusUnique(db: Db, p: ProductCreate, newId: int)
    requires UniqueSkus(db)
    requires CreateProduct(db, p, newId).Success?
    ensures var n := CreateProduct(db, p, newId).value;
      UniqueSkus(n) && FindCategory(n, p.categoryId).Some?
  {
  }

  /** The store after `PUT /products/{id}` once the checks pass: the first
      product with the id gets every supplied field. */
  function PatchProduct(db: Db, i: nat, u: ProductUpdate): (n: Db)
    requires i < |db.products|
    ensures n.products == db.products[i := ApplyProductUpdate(db.products[i], u)]
    ensures n.(products := db.products) == db
  {
    db.(products := db.products[i := ApplyProductUpdate(db.products[i], u)])
  }

  /** `PUT /products/{id}`: an unknown product is refused with 404; so is a
      truthy `category_id` that names no category. A `category_id` of 0 is
      not checked at all, being falsy. */
  function UpdateProduct(db: Db, productId: int, u: ProductUpdate): (r: Result<Db, HttpError>)
    ensures FindProduct(db, productId).None? ==> r == Failure(HttpError(404, "Product not found"))
    ensures (FindProduct(db, productId).Some? && u.categoryId.SetTo? && u.categoryId.value != 0
          && FindCategory(db, u.categoryId.value).None?) ==> r == Failure(HttpError(404, "Category not found"))
    ensures r.Success? <==> (FindProduct(db, productId).Some?
      && !(u.categoryId.SetTo? && u.categoryId.value != 0 && FindCategory(db, u.categoryId.value).None?))
    ensures r.Success? ==>
      && FindProduct(r.value, productId) == Some(ApplyProductUpdate(FindProduct(db, productId).value, u))
      && |r.value.products| == |db.products|
      && (forall j :: 0 <= j < |db.products| && db.products[j].id != productId ==> r.value.products[j] == db.products[j])
      && r.value.(products := db.products) == db
  {
    match FirstIndex(db.products, WithProductId(productId))
    case None => Failure(HttpError(404, "Product not found"))
    case Some(i) =>
      if u.categoryId.SetTo? && u.categoryId.value != 0 && FindCategory(db, u.categoryId.value).None? then
        Failure(HttpError(404, "Category not found"))
      else
        var n := PatchProduct(db, i, u);
        FirstAfterUpdate(db.products, WithProductId(productId), i, ApplyProductUpdate(db.products[i], u));
        Success(n)
  }

  /** A product update cannot touch any SKU, so SKUs stay unique. */
  lemma UpdateProductKeepsSkus(db: Db, productId: int, u: ProductUpdate)
    requires UniqueSkus(db)
    requires UpdateProduct(db, productId, u).Success?
    ensures UniqueSkus(UpdateProduct(db, productId, u).value)
  {
    var i := FirstIndex(db.products, WithProductId(productId)).value;
    var n := UpdateProduct(db, productId, u).value;
    assert n == PatchProduct(db, i, u);
    assert forall j :: 0 <= j < |db.products| ==> n.products[j].sku == db.products[j].sku;
  }

  /** Being falsy, a `category_id` of 0 passes the check even in a store with
      no category 0, and the product is moved to it. */
  lemma UpdateProductZeroCategory()
    ensures var db := Db([], [Product(1, "Pen", "P-1", 100, 1)], [], [], [], []);
      var r := UpdateProduct(db, 1, ProductUpdate(categoryId := SetTo(0)));
      && FindCategory(db, 0).None?
      && r.Success? && r.value.products[0].categoryId == 0
  {
    var db := Db([], [Product(1, "Pen", "P-1", 100, 1)], [], [], [], []);
    assert FirstIndex(db.products, WithProductId(1)) == Some(0);
  }

  // ---------------------------------------------------------------------
  // Inventory

  /** `POST /inventory/`: an unknown product is refused with 404; a product
      that already has an inventory row is refused with 400. */
  function CreateInventory(db: Db, inv: InventoryCreate, newId: int): (r: Result<Db, HttpError>)
    ensures FindProduct(db, inv.productId).None? ==> r == Failure(HttpError(404, "Product not found"))
    ensures FindProduct(db, inv.productId).Some? && FindInventoryByProduct(db, inv.productId).Some? ==>
      r == Failure(HttpError(400, "Inventory for this product already exists"))
    ensures r.Success? <==> FindProduct(db, inv.productId).Some? && FindInventoryByProduct(db, inv.productId).None?
    ensures r.Success? ==>
      && r.value.inventories == db.inventories + [Inventory(newId, inv.productId, inv.quantity, inv.location, inv.lowStockThreshold, None)]
      && r.value.(inventories := db.inventories) == db
  {
    if FindProduct(db, inv.productId).None? then Failure(HttpError(404, "Product not found"))
    else if FindInventoryByProduct(db, inv.productId).Some? then
      Failure(HttpError(400, "Inventory for this product already exists"))
    else Success(db.(inventories := db.inventories + [Inventory(newId, inv.productId, inv.quantity, inv.location, inv.lowStockThreshold, None)]))
  }

  /** Inventory creation is what keeps one row per product, and every row
      it adds belongs to an existing product. */
  lemma CreateInventoryKeepsOnePerProduct(db: Db, inv: InventoryCreate, newId: int)
    requires CreateInventory(db, inv, newId).Success?
    ensures var n := CreateInventory(db, inv, newId).value;
      && (OneInventoryPerProduct(db) ==> OneInventoryPerProduct(n))
      && (InventoryProductsExist(db) ==> InventoryProductsExist(n))
      && FindInventoryByProduct(n, inv.productId).Some?
  {
    var n := CreateInventory(db, inv, newId).value;
    var last := |db.inventories|;
    assert forall j :: 0 <= j < last ==> n.inventories[j] == db.inventories[j];
    assert StockedProduct(inv.productId)(n.inventories[last]);
  }

  /** `PUT /inventory/{id}`: an unknown row is refused with 404; otherwise
      `update_inventory` runs with the given reason. */
  function UpdateInventoryChecked(db: Db, inventoryId: int, u: InventoryUpdate, changeReason: Option<string>): (r: Result<Updated, HttpError>)
    ensures r.Failure? <==> FindInventory(db, inventoryId).None?
    ensures r.Failure? ==> r.error == HttpError(404, "Inventory not found")
    ensures r.Success? ==> Some(r.value) == UpdateInventory(db, inventoryId, u, changeReason)
  {
    match UpdateInventory(db, inventoryId, u, changeReason)
    case None => Failure(HttpError(404, "Inventory not found"))
    case Some(w) => Success(w)
  }

  // ---------------------------------------------------------------------
  // Sales

  /** What a line's quantity is held against the stock with. `PerLine` is
      the endpoint's rule: each line on its own. `PerProduct` holds the
      order's total for the line's product, summed over all its lines. */
  datatype StockRule = PerLine | PerProduct

  /** The units the line's product must have in stock under `rule`. */
  function Demanded(rule: StockRule, items: seq<SaleItemCreate>, item: SaleItemCreate): int {
    match rule
    case PerLine => item.quantity
    case PerProduct => Ordered(items, item.productId)
  }

  /** A line of the order `items` that passes the checks: its product exists,
      has inventory, and that inventory holds what the rule demands. */
  predicate ItemAcceptable(db: Db, rule: StockRule, items: seq<SaleItemCreate>, item: SaleItemCreate) {
    && FindProduct(db, item.productId).Some?
    && StockOf(db, item.productId).Some?
    && StockOf(db, item.productId).value >= Demanded(rule, items, item)
  }

  function Refused(db: Db, rule: StockRule, items: seq<SaleItemCreate>): SaleItemCreate -> bool {
    (item: SaleItemCreate) => !ItemAcceptable(db, rule, items, item)
  }

  /** Why one line is refused, checked in the endpoint's order. */
  function ItemProblem(db: Db, rule: StockRule, items: seq<SaleItemCreate>, item: SaleItemCreate): (e: Option<HttpError>)
    ensures e.None? <==> ItemAcceptable(db, rule, items, item)
    ensures FindProduct(db, item.productId).None? ==>
      e == Some(HttpError(404, "Product with ID " + IntToString(item.productId) + " not found"))
    ensures FindProduct(db, item.productId).Some? && StockOf(db, item.productId).None? ==>
      e == Some(HttpError(404, "Inventory not found for product with ID " + IntToString(item.productId)))
    ensures e.Some? && e.value.status == 400 <==>
      StockOf(db, item.productId).Some? && FindProduct(db, item.productId).Some?
      && StockOf(db, item.productId).value < Demanded(rule, items, item)
    ensures e.Some? && e.value.status == 400 ==>
      e.value.detail == "Insufficient stock for product with ID " + IntToString(item.productId)
  {
    var id := IntToString(item.productId);
    if FindProduct(db, item.productId).None? then
      Some(HttpError(404, "Product with ID " + id + " not found"))
    else
      match FindInventoryByProduct(db, item.productId)
      case None => Some(HttpError(404, "Inventory not found for product with ID " + id))
      case Some(inv) =>
        if inv.quantity < Demanded(rule, items, item) then Some(HttpError(400, "Insufficient stock for product with ID " + id))
        else None
  }

  /** The error of the first refused line of `lines`, a suffix of the order
      `items`, if any. Every line is checked against the stock before the
      sale. */
  function ItemsProblem(db: Db, rule: StockRule, items: seq<SaleItemCreate>, lines: seq<SaleItemCreate>): (e: Option<HttpError>)
    ensures e.None? <==> forall k :: 0 <= k < |lines| ==> ItemAcceptable(db, rule, items, lines[k])
    ensures e == match FirstIndex(lines, Refused(db, rule, items)) {
      case None => None
      case Some(k) => ItemProblem(db, rule, items, lines[k])
    }
  {
    if |lines| == 0 then None
    else
      match ItemProblem(db, rule, items, lines[0])
      case Some(err) =>
        FirstIndexAt(lines, Refused(db, rule, items), 0);
        Some(err)
      case None =>
        FirstIndexShift(lines, Refused(db, rule, items));
        ItemsProblem(db, rule, items, lines[1..])
  }

  /** `POST /sales/` under a stock rule: an unknown customer is refused with
      404, then the first refused line's error is returned; only a request
      with no refusal reaches `create_sale`. The endpoint as written is
      `PerLine`. */
  function CreateSaleChecked(db: Db, rule: StockRule, sale: SaleCreate, saleId: int, firstItemId: int): (r: Result<Db, HttpError>)
    ensures FindCustomer(db, sale.customerId).None? ==> r == Failure(HttpError(404, "Customer not found"))
    ensures FindCustomer(db, sale.customerId).Some? && ItemsProblem(db, rule, sale.items, sale.items).Some? ==>
      r == Failure(ItemsProblem(db, rule, sale.items, sale.items).value)
    ensures r.Success? <==> (FindCustomer(db, sale.customerId).Some?
      && forall k :: 0 <= k < |sale.items| ==> ItemAcceptable(db, rule, sale.items, sale.items[k]))
    ensures r.Success? ==> r.value == CreateSale(db, sale, saleId, firstItemId)
  {
    if FindCustomer(db, sale.customerId).None? then Failure(HttpError(404, "Customer not found"))
    else
      match ItemsProblem(db, rule, sale.items, sale.items)
      case Some(err) => Failure(err)
      case None => Success(CreateSale(db, sale, saleId, firstItemId))
  }

  /** An accepted order with one line per product takes exactly the ordered
      quantity off each product: the floor at 0 never bites. */
  lemma AcceptedSaleExactStock(db: Db, sale: SaleCreate, saleId: int, firstItemId: int, k: int)
    requires UniqueInventoryIds(db) && DistinctProducts(sale.items)
    requires CreateSaleChecked(db, PerLine, sale, saleId, firstItemId).Success?
    requires 0 <= k < |sale.items|
    ensures var item := sale.items[k];
      StockOf(CreateSaleChecked(db, PerLine, sale, saleId, firstItemId).value, item.productId)
        == Some(StockOf(db, item.productId).value - item.quantity)
  {
    var item := sale.items[k];
    var stored := db.(sales := db.sales + [SaleRecord(sale, saleId, firstItemId)]);
    assert CreateSaleChecked(db, PerLine, sale, saleId, firstItemId).value
        == SellItems(stored, sale.items, SaleReason(sale.orderNumber));
    assert StockOf(stored, item.productId) == StockOf(db, item.productId);
    assert StockOf(db, item.productId).value >= item.quantity by {
      assert ItemAcceptable(db, PerLine, sale.items, item);
    }
    SellItemsExact(stored, sale.items, SaleReason(sale.orderNumber), k);
  }

  /** The order of the oversell example: two lines of 3 units of product 1,
      against a stock of 5. */
  function SplitLinesStore(): Db {
    Db([], [Product(1, "Pen", "P-1", 100, 1)], [Inventory(7, 1, 5)], [], [Customer(1, "Ann")], [])
  }

  function SplitLinesSale(): SaleCreate {
    SaleCreate("ORD-1", 86400, 1, 600, [SaleItemCreate(1, 3, 100), SaleItemCreate(1, 3, 100)])
  }

  /** Lines are checked one by one against the stock before the sale: two
      lines of 3 units each pass against a stock of 5, and the stock then
      ends at 0, one unit short of what was sold. */
  lemma SplitLinesOversell()
    ensures var db, sale := SplitLinesStore(), SplitLinesSale();
      var r := CreateSaleChecked(db, PerLine, sale, 1, 1);
      && r.Success?
      && StockOf(r.value, 1) == Some(0)
      && sale.items[0].quantity + sale.items[1].quantity > StockOf(db, 1).value
  {
    var db, sale := SplitLinesStore(), SplitLinesSale();
    assert FindProduct(db, 1) == Some(db.products[0]);
    assert StockOf(db, 1) == Some(5);
    assert FindCustomer(db, 1).Some?;
    var stored := db.(sales := db.sales + [SaleRecord(sale, 1, 1)]);
    var reason := SaleReason("ORD-1");
    var once := SellItem(stored, 1, 3, reason);
    SellItemStock(stored, 1, 3, reason, 2);
    assert StockOf(once, 1) == Some(2);
    assert UniqueInventoryIds(once);
    SellItemStock(once, 1, 3, reason, 2);
    assert sale.items[1..] == [SaleItemCreate(1, 3, 100)];
    assert SellItems(stored, sale.items, reason) == SellItems(once, sale.items[1..], reason);
  }

  /** Holding each product's summed order against its stock refuses the
      oversell example with the endpoint's own 400. */
  lemma SplitLinesRefused()
    ensures CreateSaleChecked(SplitLinesStore(), PerProduct, SplitLinesSale(), 1, 1)
      == Failure(HttpError(400, "Insufficient stock for product with ID 1"))
  {
    var db, sale := SplitLinesStore(), SplitLinesSale();
    assert FindProduct(db, 1) == Some(db.products[0]);
    assert StockOf(db, 1) == Some(5);
    assert FindCustomer(db, 1).Some?;
    assert sale.items[1..][1..] == [];
    assert Ordered(sale.items, 1) == 6;
    assert IntToString(1) == "1";
    assert FindInventoryByProduct(db, 1) == Some(db.inventories[0]);
    assert Demanded(PerProduct, sale.items, sale.items[0]) == 6;
    assert "Insufficient stock for product with ID " + "1" == "Insufficient stock for product with ID 1";
    assert ItemProblem(db, PerProduct, sale.items, sale.items[0])
        == Some(HttpError(400, "Insufficient stock for product with ID 1"));
    FirstIndexAt(sale.items, Refused(db, PerProduct, sale.items), 0);
  }

  /** Under the per-product rule an accepted sale takes exactly the ordered
      total off every product it names, and no stock goes below 0. */
  lemma AcceptedSaleCovered(db: Db, sale: SaleCreate, saleId: int, firstItemId: int, k: int)
    requires UniqueInventoryIds(db) && NonNegativeQuantities(sale.items)
    requires CreateSaleChecked(db, PerProduct, sale, saleId, firstItemId).Success?
    requires 0 <= k < |sale.items|
    ensures var p := sale.items[k].productId;
      var after := CreateSaleChecked(db, PerProduct, sale, saleId, firstItemId).value;
      && StockOf(db, p).Some?
      && StockOf(db, p).value >= Ordered(sale.items, p)
      && StockOf(after, p).Some?
      && StockOf(after, p).value == StockOf(db, p).value - Ordered(sale.items, p)
  {
    var p := sale.items[k].productId;
    var stored := db.(sales := db.sales + [SaleRecord(sale, saleId, firstItemId)]);
    var reason := SaleReason(sale.orderNumber);
    assert && CreateSaleChecked(db, PerProduct, sale, saleId, firstItemId).value == SellItems(stored, sale.items, reason)
           && UniqueInventoryIds(stored)
           && StockOf(stored, p) == StockOf(db, p);
    assert StockOf(db, p).Some? && StockOf(db, p).value >= Ordered(sale.items, p) by {
      assert ItemAcceptable(db, PerProduct, sale.items, sale.items[k]);
    }
    SellItemsCovered(stored, sale.items, reason, p);
  }

  /** With one line per product the two rules agree on every request. */
  lemma RulesAgreeOnDistinctLines(db: Db, sale: SaleCreate, saleId: int, firstItemId: int)
    requires DistinctProducts(sale.items)
    ensures CreateSaleChecked(db, PerLine, sale, saleId, firstItemId)
      == CreateSaleChecked(db, PerProduct, sale, saleId, firstItemId)
  {
    var items := sale.items;
    forall k | 0 <= k < |items|
      ensures Demanded(PerLine, items, items[k]) == Demanded(PerProduct, items, items[k])
    {
      OrderedDistinct(items, k);
    }
    FirstIndexExt(items, Refused(db, PerLine, items), Refused(db, PerProduct, items));
  }

  // ---------------------------------------------------------------------
  // Revenue comparison

  datatype Window = Window(start: Date, end: Date)

  /** The previous window of `POST /analytics/revenue/compare`. Bounds given
      together are forwarded; otherwise a missing end is the day before the
      current start, and a missing start lies `duration - 1` days before the
      previous end, where `duration` counts the current window's days. `None`
      stands for the date arithmetic leaving the calendar (Python raises
      `OverflowError`). */
  function DefaultPreviousWindow(currentStart: Date, currentEnd: Date, previousStart: Option<Date>, previousEnd: Option<Date>): (r: Option<Window>)
    ensures previousStart.Some? && previousEnd.Some? ==> r == Some(Window(previousStart.value, previousEnd.value))
    ensures r.Some? && previousEnd.None? ==> r.value.end + 1 == currentStart
    ensures r.Some? && previousEnd.Some? ==> r.value.end == previousEnd.value
    ensures r.Some? && previousStart.Some? ==> r.value.start == previousStart.value
    ensures r.Some? && previousStart.None? ==> r.value.end - r.value.start == currentEnd - currentStart
    ensures r.None? <==>
      (previousEnd.None? && currentStart == 1)
      || (previousStart.None?
          && var end := if previousEnd.Some? then previousEnd.value else currentStart - 1;
             !(1 <= end - (currentEnd - currentStart) <= MAX_ORDINAL))
  {
    if previousStart.Some? && previousEnd.Some? then Some(Window(previousStart.value, previousEnd.value))
    else
      var duration := currentEnd - currentStart + 1;
      if previousEnd.None? && currentStart == 1 then None
      else
        var end: Date := if previousEnd.Some? then previousEnd.value else currentStart - 1;
        if previousStart.Some? then Some(Window(previousStart.value, end))
        else if 1 <= end - (duration - 1) <= MAX_ORDINAL then Some(Window(end - (duration - 1), end))
        else None
  }

  /** With both previous bounds omitted, the previous window has the current
      window's length and ends the day before it starts. */
  lemma DefaultWindowAdjacent(currentStart: Date, currentEnd: Date)
    requires currentStart <= currentEnd && currentEnd - currentStart < currentStart - 1
    ensures var r := DefaultPreviousWindow(currentStart, currentEnd, None, None);
      && r.Some?
      && r.value.end - r.value.start + 1 == currentEnd - currentStart + 1
      && r.value.end + 1 == currentStart
  {
  }

  /** `compare_revenue`: derive the previous window, then compare. */
  function CompareRevenue(
    db: Db, currentStart: Date, currentEnd: Date, previousStart: Option<Date>, previousEnd: Option<Date>,
    groupBy: string, productId: Option<int>, categoryId: Option<int>, platform: Option<string>): (r: Option<Comparison>)
    ensures r.None? <==> DefaultPreviousWindow(currentStart, currentEnd, previousStart, previousEnd).None?
    ensures r.Some? ==>
      var w := DefaultPreviousWindow(currentStart, currentEnd, previousStart, previousEnd).value;
      var cur := RevenueAnalytics(db, RevenueAnalyticsParams(currentStart, currentEnd, groupBy, productId, categoryId, platform));
      var prev := RevenueAnalytics(db, RevenueAnalyticsParams(w.start, w.end, groupBy, productId, categoryId, platform));
      && r.value.current == PeriodReport(IsoDate(currentStart), IsoDate(currentEnd), cur.totalRevenue, cur.revenueByPeriod)
      && r.value.previous == PeriodReport(IsoDate(w.start), IsoDate(w.end), prev.totalRevenue, prev.revenueByPeriod)
      && r.value.previous.totalRevenue + r.value.absoluteChange == r.value.current.totalRevenue
      && r.value.percentChange == PercentChange(prev.totalRevenue, cur.totalRevenue)
  {
    match DefaultPreviousWindow(currentStart, currentEnd, previousStart, previousEnd)
    case None => None
    case Some(w) =>
      Some(CompareRevenuePeriods(db, currentStart, currentEnd, w.start, w.end, groupBy, productId, categoryId, platform))
  }
}
