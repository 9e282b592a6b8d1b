/** The persisted entities of the admin backend (app/models/models.py) and
    the record store that holds them.

    Every table becomes a sequence of immutable records; a sale is held
    together with its line items, the way the ORM relationship
    `Sale.sale_items` loads them. Money is in integer cents. Server-side
    `created_at` / `updated_at` stamps are not modelled. */
module Models {
  import opened Wrappers
  import opened Calendar
  import opened Lists

  datatype Category = Category(id: int, name: string, description: Option<string> := None)

  datatype Product = Product(
    id: int,
    name: string,
    sku: string,
    price: int,
    categoryId: int,
    description: Option<string> := None)

  /** A stock row; quantity defaults to 0 and the low-stock threshold to 10. */
  datatype Inventory = Inventory(
    id: int,
    productId: int,
    quantity: int := 0,
    location: Option<string> := None,
    lowStockThreshold: int := 10,
    lastRestockDate: Option<Instant> := None)

  /** One recorded change of an inventory row's quantity. */
  datatype InventoryHistory = InventoryHistory(
    inventoryId: int,
    previousQuantity: int,
    newQuantity: int,
    changeReason: Option<string>)

  datatype Customer = Customer(
    id: int,
    name: string,
    email: Option<string> := None,
    phone: Option<string> := None,
    address: Option<string> := None)

  /** One line of an order; the discount is an absolute amount, default 0. */
  datatype SaleItem = SaleItem(
    id: int,
    saleId: int,
    productId: int,
    quantity: int,
    unitPrice: int,
    discount: int := 0)

  /** An order. Its `totalAmount` is stored as given, never derived from its items. */
  datatype Sale = Sale(
    id: int,
    orderNumber: string,
    orderDate: Instant,
    customerId: int,
    totalAmount: int,
    items: seq<SaleItem>,
    platform: string := "website",
    status: string := "completed")

  /** The record store: one sequence per table. */
  datatype Db = Db(
    categories: seq<Category>,
    products: seq<Product>,
    inventories: seq<Inventory>,
    history: seq<InventoryHistory>,
    customers: seq<Customer>,
    sales: seq<Sale>)

  // ---------------------------------------------------------------------
  // Python truthiness of optional query parameters: `if x:` skips None,
  // 0 and the empty string alike.

  predicate TruthyInt(o: Option<int>) {
    o.Some? && o.value != 0
  }

  predicate TruthyText(o: Option<string>) {
    o.Some? && o.value != ""
  }

  // ---------------------------------------------------------------------
  // Lookups: `db.query(T).filter(...).first()`

  function FindCategory(db: Db, id: int): Option<Category> {
    First(db.categories, (c: Category) => c.id == id)
  }

  function FindCategoryByName(db: Db, name: string): Option<Category> {
    First(db.categories, (c: Category) => c.name == name)
  }

  /** The products with a given primary key. */
  function WithProductId(id: int): Product -> bool {
    (p: Product) => p.id == id
  }

  function FindProduct(db: Db, id: int): Option<Product> {
    First(db.products, WithProductId(id))
  }

  function FindProductBySku(db: Db, sku: string): Option<Product> {
    First(db.products, (p: Product) => p.sku == sku)
  }

  /** The inventory rows with a given primary key. */
  function WithInventoryId(id: int): Inventory -> bool {
    (inv: Inventory) => inv.id == id
  }

  /** The inventory rows of a given product. */
  function StockedProduct(productId: int): Inventory -> bool {
    (inv: Inventory) => inv.productId == productId
  }

  function FindInventory(db: Db, id: int): Option<Inventory> {
    First(db.inventories, WithInventoryId(id))
  }

  function FindInventoryByProduct(db: Db, productId: int): Option<Inventory> {
    First(db.inventories, StockedProduct(productId))
  }

  function FindCustomer(db: Db, id: int): Option<Customer> {
    First(db.customers, (c: Customer) => c.id == id)
  }

  /** The category of a product, through the `product.category_id` relationship. */
  function CategoryOf(db: Db, productId: int): Option<int> {
    match FindProduct(db, productId)
    case Some(p) => Some(p.categoryId)
    case None => None
  }

  /** Revenue of one line as the dashboard sums it: price times quantity, less the discount once. */
  function LineRevenue(item: SaleItem): int {
    item.unitPrice * item.quantity - item.discount
  }

  // ---------------------------------------------------------------------
  // Uniqueness declared by the schema

  predicate UniqueCategoryNames(db: Db) {
    forall i, j :: 0 <= i < j < |db.categories| ==> db.categories[i].name != db.categories[j].name
  }

  predicate UniqueSkus(db: Db) {
    forall i, j :: 0 <= i < j < |db.products| ==> db.products[i].sku != db.products[j].sku
  }

  predicate UniqueOrderNumbers(db: Db) {
    forall i, j :: 0 <= i < j < |db.sales| ==> db.sales[i].orderNumber != db.sales[j].orderNumber
  }

  /** Customer e-mail is unique but nullable: any number of customers may have none. */
  predicate UniqueEmails(db: Db) {
    forall i, j :: 0 <= i < j < |db.customers| && db.customers[i].email.Some? ==>
      db.customers[i].email != db.customers[j].email
  }

  /** Primary keys of the inventory table are distinct. */
  predicate UniqueInventoryIds(db: Db) {
    forall i, j :: 0 <= i < j < |db.inventories| ==> db.inventories[i].id != db.inventories[j].id
  }

  /** At most one inventory row per product. The schema does not declare
      this; only the inventory-creation endpoint maintains it. */
  predicate OneInventoryPerProduct(db: Db) {
    forall i, j :: 0 <= i < j < |db.inventories| ==> db.inventories[i].productId != db.inventories[j].productId
  }

  // ---------------------------------------------------------------------
  // Referential integrity declared by the schema's foreign keys

  predicate InventoryProductsExist(db: Db) {
    forall inv :: inv in db.inventories ==> FindProduct(db, inv.productId).Some?
  }
}
