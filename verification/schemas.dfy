/** Request and response shapes (app/schemas/schemas.py): creation records
    with their defaults, the all-optional update ("patch") records, the
    analytics parameter records and the analytics responses. */
module Schemas {
  import opened Wrappers
  import opened Calendar
  import opened Grouping
  import opened Models

  // ---------------------------------------------------------------------
  // Patches: a field left out of the request body is `Keep`; a field
  // present is `SetTo` its value (Pydantic's `dict(exclude_unset=True)`).

  datatype Patch<T> = Keep | SetTo(value: T) {
    function ApplyTo(current: T): T {
      match this
      case Keep => current
      case SetTo(v) => v
    }
  }

  /** A product update has no `sku` field: the SKU cannot be changed. */
  datatype ProductUpdate = ProductUpdate(
    name: Patch<string> := Keep,
    description: Patch<Option<string>> := Keep,
    price: Patch<int> := Keep,
    categoryId: Patch<int> := Keep)

  datatype InventoryUpdate = InventoryUpdate(
    quantity: Patch<int> := Keep,
    location: Patch<Option<string>> := Keep,
    lowStockThreshold: Patch<int> := Keep,
    lastRestockDate: Patch<Option<Instant>> := Keep)

  /** A sale update touches only the status and the stored total. */
  datatype SaleUpdate = SaleUpdate(
    status: Patch<string> := Keep,
    totalAmount: Patch<int> := Keep)

  function ApplyProductUpdate(p: Product, u: ProductUpdate): (r: Product)
    ensures r.id == p.id && r.sku == p.sku
    ensures u.name.Keep? ==> r.name == p.name
    ensures u.description.Keep? ==> r.description == p.description
    ensures u.price.Keep? ==> r.price == p.price
    ensures u.categoryId.Keep? ==> r.categoryId == p.categoryId
    ensures u.name.SetTo? ==> r.name == u.name.value
    ensures u.description.SetTo? ==> r.description == u.description.value
    ensures u.price.SetTo? ==> r.price == u.price.value
    ensures u.categoryId.SetTo? ==> r.categoryId == u.categoryId.value
  {
    p.(name := u.name.ApplyTo(p.name),
       description := u.description.ApplyTo(p.description),
       price := u.price.ApplyTo(p.price),
       categoryId := u.categoryId.ApplyTo(p.categoryId))
  }

  function ApplyInventoryUpdate(inv: Inventory, u: InventoryUpdate): (r: Inventory)
    ensures r.id == inv.id && r.productId == inv.productId
    ensures u.quantity.Keep? ==> r.quantity == inv.quantity
    ensures u.location.Keep? ==> r.location == inv.location
    ensures u.lowStockThreshold.Keep? ==> r.lowStockThreshold == inv.lowStockThreshold
    ensures u.lastRestockDate.Keep? ==> r.lastRestockDate == inv.lastRestockDate
    ensures u.quantity.SetTo? ==> r.quantity == u.quantity.value
    ensures u.location.SetTo? ==> r.location == u.location.value
    ensures u.lowStockThreshold.SetTo? ==> r.lowStockThreshold == u.lowStockThreshold.value
    ensures u.lastRestockDate.SetTo? ==> r.lastRestockDate == u.lastRestockDate.value
  {
    inv.(quantity := u.quantity.ApplyTo(inv.quantity),
         location := u.location.ApplyTo(inv.location),
         lowStockThreshold := u.lowStockThreshold.ApplyTo(inv.lowStockThreshold),
         lastRestockDate := u.lastRestockDate.ApplyTo(inv.lastRestockDate))
  }

  function ApplySaleUpdate(s: Sale, u: SaleUpdate): (r: Sale)
    ensures r.id == s.id && r.orderNumber == s.orderNumber && r.orderDate == s.orderDate
    ensures r.customerId == s.customerId && r.items == s.items && r.platform == s.platform
    ensures u.status.Keep? ==> r.status == s.status
    ensures u.totalAmount.Keep? ==> r.totalAmount == s.totalAmount
    ensures u.status.SetTo? ==> r.status == u.status.value
    ensures u.totalAmount.SetTo? ==> r.totalAmount == u.totalAmount.value
  {
    s.(status := u.status.ApplyTo(s.status), totalAmount := u.totalAmount.ApplyTo(s.totalAmount))
  }

  /** Applying the same patch twice is the same as applying it once, and an
      empty patch changes nothing. */
  lemma PatchesIdempotent(p: Product, pu: ProductUpdate, inv: Inventory, iu: InventoryUpdate, s: Sale, su: SaleUpdate)
    ensures ApplyProductUpdate(ApplyProductUpdate(p, pu), pu) == ApplyProductUpdate(p, pu)
    ensures ApplyInventoryUpdate(ApplyInventoryUpdate(inv, iu), iu) == ApplyInventoryUpdate(inv, iu)
    ensures ApplySaleUpdate(ApplySaleUpdate(s, su), su) == ApplySaleUpdate(s, su)
    ensures ApplyProductUpdate(p, ProductUpdate()) == p
    ensures ApplyInventoryUpdate(inv, InventoryUpdate()) == inv
    ensures ApplySaleUpdate(s, SaleUpdate()) == s
  {
  }

  // ---------------------------------------------------------------------
  // Creation records

  datatype CategoryCreate = CategoryCreate(name: string, description: Option<string> := None)

  datatype ProductCreate = ProductCreate(
    name: string,
    sku: string,
    price: int,
    categoryId: int,
    description: Option<string> := None)

  datatype InventoryCreate = InventoryCreate(
    productId: int,
    quantity: int,
    location: Option<string> := None,
    lowStockThreshold: int := 10)

  datatype SaleItemCreate = SaleItemCreate(productId: int, quantity: int, unitPrice: int, discount: int := 0)

  datatype SaleCreate = SaleCreate(
    orderNumber: string,
    orderDate: Instant,
    customerId: int,
    totalAmount: int,
    items: seq<SaleItemCreate>,
    platform: string := "website",
    status: string := "completed")

  // ---------------------------------------------------------------------
  // Analytics parameters

  datatype SalesAnalyticsParams = SalesAnalyticsParams(
    startDate: Date,
    endDate: Date,
    productId: Option<int> := None,
    categoryId: Option<int> := None,
    platform: Option<string> := None)

  datatype RevenueAnalyticsParams = RevenueAnalyticsParams(
    startDate: Date,
    endDate: Date,
    groupBy: string := "day",
    productId: Option<int> := None,
    categoryId: Option<int> := None,
    platform: Option<string> := None)

  /** Inventory analytics take no threshold override. */
  datatype InventoryAnalyticsParams = InventoryAnalyticsParams(
    lowStockOnly: bool := false,
    categoryId: Option<int> := None)

  /** The documented defaults of the creation and parameter records. */
  lemma SchemaDefaults(d: Date, t: Instant)
    ensures InventoryCreate(1, 0).lowStockThreshold == 10
    ensures SaleItemCreate(1, 1, 0).discount == 0
    ensures SaleCreate("", t, 1, 0, []).platform == "website"
    ensures SaleCreate("", t, 1, 0, []).status == "completed"
    ensures RevenueAnalyticsParams(d, d).groupBy == "day"
    ensures RevenueAnalyticsParams(d, d).productId.None?
    ensures InventoryAnalyticsParams() == InventoryAnalyticsParams(false, None)
  {
  }

  // ---------------------------------------------------------------------
  // Analytics responses

  /** `sales_by_date`: one group per ISO date, in first-seen order, with
      the order count and the summed order totals. */
  datatype SalesAnalyticsResponse = SalesAnalyticsResponse(
    totalSales: nat,
    totalRevenue: int,
    averageOrderValue: real,
    salesByDate: seq<Group<string>>)

  datatype RevenueAnalyticsResponse = RevenueAnalyticsResponse(
    totalRevenue: int,
    revenueByPeriod: map<string, int>)

  datatype LowStockAlert = LowStockAlert(
    productId: int,
    productName: string,
    currentQuantity: int,
    threshold: int)

  datatype InventoryAnalyticsResponse = InventoryAnalyticsResponse(
    totalProducts: nat,
    outOfStockProducts: nat,
    lowStockAlerts: seq<LowStockAlert>)
}
