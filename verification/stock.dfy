/** The two writes to stock (app/crud/crud.py): `update_inventory`, which
    patches one inventory row and records a quantity change in the history
    table, and the stock step of `create_sale`, which takes every ordered
    quantity off its product's stock without going below zero. */
module Stock {
  import opened Wrappers
  import opened Lists
  import opened Models
  import opened Schemas

  /** The patched row together with the store after the write. */
  datatype Updated = Updated(db: Db, row: Inventory)

  /** A patch that supplies a quantity different from the row's current one:
      the only kind that leaves a history record. */
  predicate ChangesQuantity(current: Inventory, u: InventoryUpdate) {
    u.quantity.SetTo? && u.quantity.value != current.quantity
  }

  /** The tables a stock write never touches. */
  predicate SameOtherTables(a: Db, b: Db) {
    a.categories == b.categories && a.products == b.products
    && a.customers == b.customers && a.sales == b.sales
  }

  /** Row by row, every inventory keeps its primary key and its product. */
  predicate SameRowKeys(a: seq<Inventory>, b: seq<Inventory>) {
    |a| == |b| && forall j :: 0 <= j < |a| ==> a[j].id == b[j].id && a[j].productId == b[j].productId
  }

  predicate NonNegativeStock(db: Db) {
    forall j :: 0 <= j < |db.inventories| ==> db.inventories[j].quantity >= 0
  }

  // ---------------------------------------------------------------------
  // update_inventory

  /** `update_inventory`: an unknown id yields `None` and writes nothing.
      Otherwise the row found by id gets every supplied field, the other
      rows stay as they were, and a history record `(old, new)` with the
      given reason is appended exactly when a different quantity is supplied. */
  function UpdateInventory(db: Db, inventoryId: int, u: InventoryUpdate, changeReason: Option<string>): (r: Option<Updated>)
    ensures r.None? <==> FindInventory(db, inventoryId).None?
    ensures r.Some? ==>
      var current, n := FindInventory(db, inventoryId).value, r.value.db;
      && r.value.row == ApplyInventoryUpdate(current, u)
      && FindInventory(n, inventoryId) == Some(r.value.row)
      && SameOtherTables(db, n)
      && |n.inventories| == |db.inventories|
      && (forall j :: 0 <= j < |db.inventories| ==>
            n.inventories[j] == db.inventories[j]
            || (db.inventories[j] == current && n.inventories[j] == r.value.row))
      && (ChangesQuantity(current, u) ==>
            n.history == db.history + [InventoryHistory(inventoryId, current.quantity, u.quantity.value, changeReason)])
      && (!ChangesQuantity(current, u) ==> n.history == db.history)
  {
    match FirstIndex(db.inventories, WithInventoryId(inventoryId))
    case None =>
      None
    case Some(i) =>
      var w := WriteRow(db, i, inventoryId, u, changeReason);
      FirstAfterUpdate(db.inventories, WithInventoryId(inventoryId), i, w.row);
      Some(w)
  }

  /** The write itself, once the row's position `i` is known. */
  function WriteRow(db: Db, i: nat, inventoryId: int, u: InventoryUpdate, changeReason: Option<string>): (w: Updated)
    requires i < |db.inventories|
    ensures w.row == ApplyInventoryUpdate(db.inventories[i], u)
    ensures w.db.inventories == db.inventories[i := w.row]
    ensures SameOtherTables(db, w.db)
    ensures ChangesQuantity(db.inventories[i], u) ==>
      w.db.history == db.history + [InventoryHistory(inventoryId, db.inventories[i].quantity, u.quantity.value, changeReason)]
    ensures !ChangesQuantity(db.inventories[i], u) ==> w.db.history == db.history
  {
    var current := db.inventories[i];
    var row := ApplyInventoryUpdate(current, u);
    var written := if ChangesQuantity(current, u)
      then [InventoryHistory(inventoryId, current.quantity, u.quantity.value, changeReason)]
      else [];
    Updated(db.(inventories := db.inventories[i := row], history := db.history + written), row)
  }

  /** Sending the same patch again changes no row and writes no second
      history record, whatever reason is given. */
  lemma UpdateInventoryAgain(db: Db, inventoryId: int, u: InventoryUpdate, reason1: Option<string>, reason2: Option<string>)
    requires UpdateInventory(db, inventoryId, u, reason1).Some?
    ensures var first := UpdateInventory(db, inventoryId, u, reason1).value;
      var second := UpdateInventory(first.db, inventoryId, u, reason2);
      && second.Some?
      && second.value.row == first.row
      && second.value.db == first.db
  {
    var first := UpdateInventory(db, inventoryId, u, reason1).value;
    var second := UpdateInventory(first.db, inventoryId, u, reason2);
    PatchesIdempotent(Product(0, "", "", 0, 0), ProductUpdate(), first.row, u, Sale(0, "", 86400, 0, 0, []), SaleUpdate());
    assert second.value.row == first.row;
    assert !ChangesQuantity(first.row, u);
    assert second.value.db.inventories == first.db.inventories;
  }

  /** An update keeps every row's key and product, so the table's key
      constraints and its link to products survive it. */
  lemma UpdateInventoryKeepsKeys(db: Db, inventoryId: int, u: InventoryUpdate, changeReason: Option<string>)
    requires UpdateInventory(db, inventoryId, u, changeReason).Some?
    ensures var n := UpdateInventory(db, inventoryId, u, changeReason).value.db;
      && SameRowKeys(db.inventories, n.inventories)
      && (UniqueInventoryIds(db) ==> UniqueInventoryIds(n))
      && (OneInventoryPerProduct(db) ==> OneInventoryPerProduct(n))
  {
    var n := UpdateInventory(db, inventoryId, u, changeReason).value.db;
    assert SameRowKeys(db.inventories, n.inventories);
  }

  // ---------------------------------------------------------------------
  // The stock step of create_sale

  /** `max(0, quantity - ordered)`. */
  function StockAfterSale(quantity: int, ordered: int): (q: int)
    ensures q >= 0 && q >= quantity - ordered
    ensures q == 0 || q == quantity - ordered
  {
    if quantity - ordered > 0 then quantity - ordered else 0
  }

  /** The change reason written for the stock taken by an order. */
  function SaleReason(orderNumber: string): (s: string)
    ensures |s| == 6 + |orderNumber| && s[..6] == "Sale: " && s[6..] == orderNumber
  {
    "Sale: " + orderNumber
  }

  /** The quantity in the first inventory row of a product, if it has one. */
  function StockOf(db: Db, productId: int): Option<int> {
    match FindInventoryByProduct(db, productId)
    case None => None
    case Some(inv) => Some(inv.quantity)
  }

  /** History records appended from position `from` on: each is a real
      change to a non-negative quantity, written with `reason`. */
  predicate SaleRecords(hs: seq<InventoryHistory>, from: nat, reason: string) {
    forall k :: from <= k < |hs| ==>
      hs[k].changeReason == Some(reason) && hs[k].previousQuantity != hs[k].newQuantity && hs[k].newQuantity >= 0
  }

  /** One line item's stock step: find the product's first inventory row and
      set its quantity to `max(0, q - ordered)` through `update_inventory`. A
      product without inventory is skipped. */
  function SellItem(db: Db, productId: int, ordered: int, reason: string): (r: Db)
    ensures SameOtherTables(db, r)
    ensures SameRowKeys(db.inventories, r.inventories)
    ensures StockOf(db, productId).None? ==> r == db
    ensures NonNegativeStock(db) ==> NonNegativeStock(r)
    ensures |db.history| <= |r.history| <= |db.history| + 1 && r.history[..|db.history|] == db.history
    ensures SaleRecords(r.history, |db.history|, reason)
  {
    match FindInventoryByProduct(db, productId)
    case None => db
    case Some(inv) =>
      var u := InventoryUpdate(quantity := SetTo(StockAfterSale(inv.quantity, ordered)));
      match UpdateInventory(db, inv.id, u, Some(reason))
      case None => db
      case Some(w) =>
        assert SameRowKeys(db.inventories, w.db.inventories);
        w.db
  }

  /** Under distinct inventory ids, the item's product ends at
      `max(0, q - ordered)` and every other product keeps its stock. */
  lemma SellItemStock(db: Db, productId: int, ordered: int, reason: string, other: int)
    requires UniqueInventoryIds(db)
    requires other != productId
    ensures var r := SellItem(db, productId, ordered, reason);
      && (StockOf(db, productId).Some? ==>
            StockOf(r, productId) == Some(StockAfterSale(StockOf(db, productId).value, ordered)))
      && StockOf(r, other) == StockOf(db, other)
  {
    var rows := db.inventories;
    var byProduct := StockedProduct(productId);
    var found := FirstIndex(rows, byProduct);
    if found.Some? {
      var i := found.value;
      var inv := rows[i];
      var u := InventoryUpdate(quantity := SetTo(StockAfterSale(inv.quantity, ordered)));
      FirstIndexAt(rows, WithInventoryId(inv.id), i);
      var w := UpdateInventory(db, inv.id, u, Some(reason)).value;
      var row := w.row;
      assert w.db.inventories == rows[i := row];
      FirstAfterUpdate(rows, byProduct, i, row);
      FirstFrame(rows, rows[i := row], StockedProduct(other));
    }
  }

  /** The stock step over all line items, in order. */
  function SellItems(db: Db, items: seq<SaleItemCreate>, reason: string): (r: Db)
    decreases |items|
    ensures SameOtherTables(db, r)
    ensures SameRowKeys(db.inventories, r.inventories)
    ensures NonNegativeStock(db) ==> NonNegativeStock(r)
    ensures |db.history| <= |r.history| <= |db.history| + |items| && r.history[..|db.history|] == db.history
    ensures SaleRecords(r.history, |db.history|, reason)
  {
    if |items| == 0 then db
    else
      var next := SellItem(db, items[0].productId, items[0].quantity, reason);
      var r := SellItems(next, items[1..], reason);
      assert r.history[..|db.history|] == db.history by {
        assert r.history[..|next.history|] == next.history;
        assert r.history[..|db.history|] == r.history[..|next.history|][..|db.history|];
      }
      assert SaleRecords(r.history, |db.history|, reason) by {
        forall k | |db.history| <= k < |next.history| ensures r.history[k] == next.history[k] {
          assert r.history[..|next.history|][k] == r.history[k];
        }
      }
      r
  }

  /** Key uniqueness is a property of the row keys alone. */
  lemma SameRowKeysUnique(a: Db, b: Db)
    requires SameRowKeys(a.inventories, b.inventories)
    ensures UniqueInventoryIds(a) ==> UniqueInventoryIds(b)
    ensures OneInventoryPerProduct(a) ==> OneInventoryPerProduct(b)
  {
  }

  /** A product no line item names keeps its stock. */
  lemma {:induction false} SellItemsUntouched(db: Db, items: seq<SaleItemCreate>, reason: string, p: int)
    requires UniqueInventoryIds(db)
    requires forall k :: 0 <= k < |items| ==> items[k].productId != p
    ensures StockOf(SellItems(db, items, reason), p) == StockOf(db, p)
    decreases |items|
  {
    if |items| > 0 {
      var next := SellItem(db, items[0].productId, items[0].quantity, reason);
      assert UniqueInventoryIds(next) && StockOf(next, p) == StockOf(db, p) by {
        SellItemStock(db, items[0].productId, items[0].quantity, reason, p);
        SameRowKeysUnique(db, next);
      }
      SellItemsUntouched(next, items[1..], reason, p);
    }
  }

  predicate DistinctProducts(items: seq<SaleItemCreate>) {
    forall k, l :: 0 <= k < l < |items| ==> items[k].productId != items[l].productId
  }

  /** With one line per product, every stocked product named by an order
      ends at exactly `max(0, q - ordered)`. */
  lemma {:induction false} SellItemsExact(db: Db, items: seq<SaleItemCreate>, reason: string, k: int)
    requires UniqueInventoryIds(db)
    requires DistinctProducts(items)
    requires 0 <= k < |items| && StockOf(db, items[k].productId).Some?
    ensures StockOf(SellItems(db, items, reason), items[k].productId)
         == Some(StockAfterSale(StockOf(db, items[k].productId).value, items[k].quantity))
    decreases |items|
  {
    if k == 0 {
      SellItemsExactHead(db, items, reason);
    } else {
      var p0 := items[0].productId;
      var next := SellItem(db, p0, items[0].quantity, reason);
      var pk := items[k].productId;
      assert StockOf(next, pk) == StockOf(db, pk) by {
        SellItemStock(db, p0, items[0].quantity, reason, pk);
      }
      assert UniqueInventoryIds(next) by {
        SameRowKeysUnique(db, next);
      }
      assert DistinctProducts(items[1..]) && items[1..][k - 1] == items[k] by {
        DistinctTail(items);
      }
      SellItemsExact(next, items[1..], reason, k - 1);
    }
  }

  /** The first line's product: its own step sets it, and no later line names it. */
  lemma SellItemsExactHead(db: Db, items: seq<SaleItemCreate>, reason: string)
    requires UniqueInventoryIds(db)
    requires DistinctProducts(items)
    requires 0 < |items| && StockOf(db, items[0].productId).Some?
    ensures StockOf(SellItems(db, items, reason), items[0].productId)
         == Some(StockAfterSale(StockOf(db, items[0].productId).value, items[0].quantity))
  {
    var p0 := items[0].productId;
    var next := SellItem(db, p0, items[0].quantity, reason);
    SellItemStock(db, p0, items[0].quantity, reason, p0 + 1);
    SameRowKeysUnique(db, next);
    DistinctTail(items);
    SellItemsUntouched(next, items[1..], reason, p0);
  }

  /** The units of a product an order asks for, over all its lines. */
  function Ordered(items: seq<SaleItemCreate>, productId: int): int {
    if |items| == 0 then 0
    else (if items[0].productId == productId then items[0].quantity else 0) + Ordered(items[1..], productId)
  }

  predicate NonNegativeQuantities(items: seq<SaleItemCreate>) {
    forall k :: 0 <= k < |items| ==> items[k].quantity >= 0
  }

  lemma {:induction false} OrderedNonNegative(items: seq<SaleItemCreate>, productId: int)
    requires NonNegativeQuantities(items)
    ensures Ordered(items, productId) >= 0
    decreases |items|
  {
    if |items| > 0 {
      assert NonNegativeQuantities(items[1..]) by {
        assert forall k :: 0 <= k < |items| - 1 ==> items[1..][k] == items[k + 1];
      }
      OrderedNonNegative(items[1..], productId);
    }
  }

  /** With one line per product, a line's product is ordered exactly in
      that line's quantity. */
  lemma {:induction false} OrderedDistinct(items: seq<SaleItemCreate>, k: int)
    requires DistinctProducts(items) && 0 <= k < |items|
    ensures Ordered(items, items[k].productId) == items[k].quantity
    decreases |items|
  {
    DistinctTail(items);
    if k == 0 {
      OrderedAbsent(items[1..], items[0].productId);
    } else {
      assert items[1..][k - 1] == items[k];
      OrderedDistinct(items[1..], k - 1);
    }
  }

  lemma {:induction false} OrderedAbsent(items: seq<SaleItemCreate>, productId: int)
    requires forall k :: 0 <= k < |items| ==> items[k].productId != productId
    ensures Ordered(items, productId) == 0
    decreases |items|
  {
    if |items| > 0 {
      assert forall k :: 0 <= k < |items| - 1 ==> items[1..][k] == items[k + 1];
      OrderedAbsent(items[1..], productId);
    }
  }

  /** When the stock covers everything the order asks of a product, line by
      line it never reaches the floor: the product ends at exactly its stock
      less the units ordered. */
  lemma SellItemsCovered(db: Db, items: seq<SaleItemCreate>, reason: string, p: int)
    requires UniqueInventoryIds(db)
    requires NonNegativeQuantities(items)
    requires StockOf(db, p).Some? && StockOf(db, p).value >= Ordered(items, p)
    ensures StockOf(SellItems(db, items, reason), p).Some?
    ensures StockOf(SellItems(db, items, reason), p).value == StockOf(db, p).value - Ordered(items, p)
  {
    SellItemsCoveredTo(db, items, reason, p, StockOf(db, p).value - Ordered(items, p));
  }

  /** The induction behind `SellItemsCovered`, with the stock left at the
      end named so that every step speaks of the same value. */
  lemma {:induction false} SellItemsCoveredTo(db: Db, items: seq<SaleItemCreate>, reason: string, p: int, left: int)
    requires UniqueInventoryIds(db)
    requires NonNegativeQuantities(items)
    requires StockOf(db, p).Some? && StockOf(db, p).value >= Ordered(items, p)
    requires left == StockOf(db, p).value - Ordered(items, p)
    ensures StockOf(SellItems(db, items, reason), p) == Some(left)
    decreases |items|
  {
    if |items| > 0 {
      var next := SellItem(db, items[0].productId, items[0].quantity, reason);
      assert && UniqueInventoryIds(next)
             && NonNegativeQuantities(items[1..])
             && StockOf(next, p).Some?
             && StockOf(next, p).value >= Ordered(items[1..], p)
             && left == StockOf(next, p).value - Ordered(items[1..], p) by {
        SellCoveredStep(db, items, reason, p);
      }
      SellItemsCoveredTo(next, items[1..], reason, p, left);
    } else {
      assert left == StockOf(db, p).value;
    }
  }

  /** The first line of a covered order leaves the rest of the order covered,
      with the same stock still to remain at the end. */
  lemma SellCoveredStep(db: Db, items: seq<SaleItemCreate>, reason: string, p: int)
    requires UniqueInventoryIds(db)
    requires |items| > 0 && NonNegativeQuantities(items)
    requires StockOf(db, p).Some? && StockOf(db, p).value >= Ordered(items, p)
    ensures var next := SellItem(db, items[0].productId, items[0].quantity, reason);
      && UniqueInventoryIds(next)
      && NonNegativeQuantities(items[1..])
      && StockOf(next, p).Some?
      && StockOf(next, p).value >= Ordered(items[1..], p)
      && StockOf(next, p).value - Ordered(items[1..], p) == StockOf(db, p).value - Ordered(items, p)
  {
    var p0, q0 := items[0].productId, items[0].quantity;
    var stock := StockOf(db, p).value;
    OrderedStep(items, p);
    SellCoveredLine(db, p0, q0, reason, p, stock);
  }

  /** Peeling the first line off an order. */
  lemma OrderedStep(items: seq<SaleItemCreate>, p: int)
    requires |items| > 0 && NonNegativeQuantities(items)
    ensures NonNegativeQuantities(items[1..]) && Ordered(items[1..], p) >= 0
    ensures Ordered(items, p) == (if items[0].productId == p then items[0].quantity else 0) + Ordered(items[1..], p)
  {
    assert forall k :: 0 <= k < |items| - 1 ==> items[1..][k] == items[k + 1];
    OrderedNonNegative(items[1..], p);
  }

  /** One line of a covered order: its product loses exactly the line's
      quantity, other products keep their stock, and ids stay unique. */
  lemma SellCoveredLine(db: Db, p0: int, q0: int, reason: string, p: int, stock: int)
    requires UniqueInventoryIds(db)
    requires StockOf(db, p) == Some(stock)
    requires p0 == p ==> stock >= q0
    ensures var next := SellItem(db, p0, q0, reason);
      && UniqueInventoryIds(next)
      && StockOf(next, p) == Some(if p0 == p then stock - q0 else stock)
  {
    var next := SellItem(db, p0, q0, reason);
    SameRowKeysUnique(db, next);
    if p0 == p {
      SellItemStock(db, p, q0, reason, p + 1);
    } else {
      SellItemStock(db, p0, q0, reason, p);
    }
  }

  /** The lines after the first are still one per product, and none of
      them names the first line's product. */
  lemma DistinctTail(items: seq<SaleItemCreate>)
    requires DistinctProducts(items) && |items| > 0
    ensures DistinctProducts(items[1..])
    ensures forall l :: 0 <= l < |items| - 1 ==> items[1..][l].productId != items[0].productId
  {
    var rest := items[1..];
    forall a, b | 0 <= a < b < |rest| ensures rest[a].productId != rest[b].productId {
      assert rest[a] == items[a + 1] && rest[b] == items[b + 1];
    }
    forall l | 0 <= l < |rest| ensures rest[l].productId != items[0].productId {
      assert rest[l] == items[l + 1];
    }
  }

  // ---------------------------------------------------------------------
  // create_sale

  /** The stored order: the request's fields with the given primary key,
      its line items numbered from `firstItemId` on. The stored total is the
      request's, not a sum over the items. */
  function SaleRecord(sale: SaleCreate, saleId: int, firstItemId: int): (s: Sale)
    ensures s.id == saleId && s.orderNumber == sale.orderNumber && s.orderDate == sale.orderDate
    ensures s.customerId == sale.customerId && s.totalAmount == sale.totalAmount
    ensures s.platform == sale.platform && s.status == sale.status
    ensures |s.items| == |sale.items|
    ensures forall k :: 0 <= k < |s.items| ==>
      var it := sale.items[k];
      s.items[k] == SaleItem(firstItemId + k, saleId, it.productId, it.quantity, it.unitPrice, it.discount)
  {
    var items := seq(|sale.items|, k requires 0 <= k < |sale.items| =>
      SaleItem(firstItemId + k, saleId, sale.items[k].productId, sale.items[k].quantity,
               sale.items[k].unitPrice, sale.items[k].discount));
    Sale(saleId, sale.orderNumber, sale.orderDate, sale.customerId, sale.totalAmount, items,
         sale.platform, sale.status)
  }

  /** `create_sale`: store the order and its lines, then run the stock step
      with the reason `"Sale: <order number>"`. Primary keys, assigned by the
      database, are parameters. */
  function CreateSale(db: Db, sale: SaleCreate, saleId: int, firstItemId: int): (r: Db)
    ensures r.sales == db.sales + [SaleRecord(sale, saleId, firstItemId)]
    ensures r.categories == db.categories && r.products == db.products && r.customers == db.customers
    ensures SameRowKeys(db.inventories, r.inventories)
    ensures NonNegativeStock(db) ==> NonNegativeStock(r)
    ensures |db.history| <= |r.history| <= |db.history| + |sale.items|
    ensures r.history[..|db.history|] == db.history
    ensures SaleRecords(r.history, |db.history|, SaleReason(sale.orderNumber))
  {
    var stored := db.(sales := db.sales + [SaleRecord(sale, saleId, firstItemId)]);
    SellItems(stored, sale.items, SaleReason(sale.orderNumber))
  }
}
