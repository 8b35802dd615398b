/**
 * The sequential meaning of every `InventoryManager` operation. Each public
 * method runs its whole body while holding `inventoryLock`, so each one is a
 * single atomic step from one store state to the next, together with the
 * response it returns.
 */
module Catalog {
  import opened Java
  import opened Wrappers
  import opened Types

  /** The store: the product list in insertion order and the next id to hand out. */
  datatype Store = Store(items: seq<Item>, nextId: int)

  /** Ids are at least 1, strictly increasing in list order, and all below `nextId`. */
  predicate Valid(s: Store) {
    && 1 <= s.nextId
    && (forall i, j :: 0 <= i < j < |s.items| ==> s.items[i].id < s.items[j].id)
    && (forall i :: 0 <= i < |s.items| ==> 1 <= s.items[i].id < s.nextId)
  }

  /** No product has a negative quantity. */
  predicate InStock(items: seq<Item>) {
    forall i :: 0 <= i < |items| ==> items[i].quantity >= 0
  }

  predicate HasId(items: seq<Item>, id: int) {
    exists i :: 0 <= i < |items| && items[i].id == id
  }

  /** `findProductById`: the position of the first product with this id. */
  function IndexOf(items: seq<Item>, id: int): (r: Option<nat>)
    ensures r.Some? ==> r.value < |items| && items[r.value].id == id
    ensures r.Some? ==> forall j :: 0 <= j < r.value ==> items[j].id != id
    ensures r.None? <==> forall j :: 0 <= j < |items| ==> items[j].id != id
  {
    if items == [] then None
    else if items[0].id == id then Some(0)
    else match IndexOf(items[1..], id)
      case None => None
      case Some(k) => Some(k + 1)
  }

  // ------------------------------------------------------------ operations

  /** `addProduct`: always succeeds; the new product takes `nextId` and goes last. */
  function AddProduct(s: Store, name: string, quantity: Int32, price: int): (r: (Store, Response))
    ensures IsSuccess(r.1) && r.1.ProductAdded? && r.1.item.id == s.nextId
    ensures r.0.items == s.items + [r.1.item] && r.0.nextId == s.nextId + 1
    ensures Valid(s) ==> Valid(r.0) && !HasId(s.items, r.1.item.id)
  {
    var it := Item(s.nextId, name, quantity, price);
    (Store(s.items + [it], s.nextId + 1), ProductAdded(it))
  }

  /** `addStock`: adds `quantity` (with `int` wrap-around, and no sign check). */
  function AddStock(s: Store, id: int, quantity: Int32): (r: (Store, Response))
    ensures r.1.NotFound? ==> r.0 == s && r.1.id == id
    ensures !r.1.NotFound? ==> IsSuccess(r.1) && r.1.StockAdded? && r.1.added == quantity
    ensures r.0.nextId == s.nextId && |r.0.items| == |s.items|
  {
    match IndexOf(s.items, id)
    case None => (s, NotFound(id))
    case Some(k) =>
      var it := s.items[k];
      var q := Wrap(it.quantity + quantity);
      (s.(items := s.items[k := it.(quantity := q)]), StockAdded(quantity, it.name, q))
  }

  /** `buyStock`: check and decrement in one step; a short stock changes nothing. */
  function BuyStock(s: Store, id: int, quantity: Int32): (r: (Store, Response))
    ensures r.1.NotFound? || r.1.InsufficientStock? ==> r.0 == s
    ensures r.1.NotFound? ==> r.1.id == id
    ensures r.1.InsufficientStock? ==> r.1.requested == quantity && r.1.available < quantity
    ensures r.1.Purchased? ==> IsSuccess(r.1) && r.1.quantity == quantity
    ensures r.1.NotFound? || r.1.InsufficientStock? || r.1.Purchased?
    ensures r.0.nextId == s.nextId && |r.0.items| == |s.items|
  {
    match IndexOf(s.items, id)
    case None => (s, NotFound(id))
    case Some(k) =>
      var it := s.items[k];
      if it.quantity < quantity then (s, InsufficientStock(it.quantity, quantity))
      else
        var q := Wrap(it.quantity - quantity);
        (s.(items := s.items[k := it.(quantity := q)]),
         Purchased(quantity, it.name, quantity * it.price, q))
  }

  /** `updatePrice`: replaces the price and reports the old one. */
  function UpdatePrice(s: Store, id: int, price: int): (r: (Store, Response))
    ensures r.1.NotFound? ==> r.0 == s && r.1.id == id
    ensures !r.1.NotFound? ==> IsSuccess(r.1) && r.1.PriceUpdated? && r.1.newPrice == price
    ensures r.0.nextId == s.nextId && |r.0.items| == |s.items|
  {
    match IndexOf(s.items, id)
    case None => (s, NotFound(id))
    case Some(k) =>
      var it := s.items[k];
      (s.(items := s.items[k := it.(price := price)]), PriceUpdated(it.name, it.price, price))
  }

  /** `removeProduct`: deletes the first product with the id; `nextId` stays. */
  function RemoveProduct(s: Store, id: int): (r: (Store, Response))
    ensures r.1.NotFound? ==> r.0 == s && r.1.id == id
    ensures !r.1.NotFound? ==> IsSuccess(r.1) && r.1.ProductRemoved? && |r.0.items| == |s.items| - 1
    ensures r.0.nextId == s.nextId
  {
    match IndexOf(s.items, id)
    case None => (s, NotFound(id))
    case Some(k) =>
      (s.(items := s.items[..k] + s.items[k + 1..]), ProductRemoved(s.items[k].name))
  }

  /** The sum of quantity times price, the fold `calculateTotalInventoryValue` performs. */
  function TotalValue(items: seq<Item>): int {
    if items == [] then 0 else Value(items[0]) + TotalValue(items[1..])
  }

  /** The sum of the quantities, as exact integers. */
  function TotalUnits(items: seq<Item>): int {
    if items == [] then 0 else items[0].quantity + TotalUnits(items[1..])
  }

  /** The products whose quantity is strictly below the threshold, in list order. */
  function LowStock(items: seq<Item>, threshold: int): (r: seq<Item>)
    ensures |r| <= |items|
    ensures forall x :: x in r <==> x in items && x.quantity < threshold
  {
    if items == [] then []
    else if items[0].quantity < threshold then [items[0]] + LowStock(items[1..], threshold)
    else LowStock(items[1..], threshold)
  }

  /** `findLowStockItems`. */
  function FindLowStockItems(items: seq<Item>, threshold: Int32): (r: Response)
    ensures r == NoLowStockItems(threshold) <==> forall i :: 0 <= i < |items| ==> items[i].quantity >= threshold
    ensures r.LowStockItems? ==> r.threshold == threshold && r.items == LowStock(items, threshold) != []
    ensures r.LowStockItems? || r.NoLowStockItems?
  {
    var low := LowStock(items, threshold);
    if low == [] then
      assert forall i :: 0 <= i < |items| ==> items[i] in items;
      NoLowStockItems(threshold)
    else
      assert low[0] in items;
      LowStockItems(threshold, low)
  }

  /** `listAllProducts`, with the formatting left out. */
  function ListAllProducts(items: seq<Item>): (r: Response)
    ensures r == NoProducts <==> items == []
    ensures !r.NoProducts? ==> r == InventoryList(items, |items|)
  {
    if items == [] then NoProducts else InventoryList(items, |items|)
  }

  /** `initializeSampleProducts`: five `addProduct` calls on an empty store. */
  function Seed(): (r: Store)
    ensures |r.items| == 5 && r.nextId == 6
  {
    var s0 := Store([], 1);
    var s1 := AddProduct(s0, "Laptop", 10, 99999).0;
    var s2 := AddProduct(s1, "Mouse", 50, 2550).0;
    var s3 := AddProduct(s2, "Keyboard", 30, 7500).0;
    var s4 := AddProduct(s3, "Monitor", 15, 29999).0;
    AddProduct(s4, "USB Cable", 100, 999).0
  }

  // ------------------------------------------------------------ requests

  /** A call into the store, as the command dispatcher issues it. */
  datatype Request =
    | ListAll
    | Add(name: string, quantity: Int32, price: int)
    | Restock(id: Int32, quantity: Int32)
    | Buy(id: Int32, quantity: Int32)
    | Reprice(id: Int32, price: int)
    | Total
    | LowStockBelow(threshold: Int32)
    | Remove(id: Int32)

  function Apply(s: Store, req: Request): (r: (Store, Response))
    ensures IsError(r.1) ==> r.0 == s
    ensures !(req.Add? || req.Restock? || req.Buy? || req.Reprice? || req.Remove?) ==> r.0 == s && !IsError(r.1)
    ensures r.0.nextId == if req.Add? then s.nextId + 1 else s.nextId
  {
    match req
    case ListAll => (s, ListAllProducts(s.items))
    case Add(name, q, p) => AddProduct(s, name, q, p)
    case Restock(id, q) => AddStock(s, id, q)
    case Buy(id, q) => BuyStock(s, id, q)
    case Reprice(id, p) => UpdatePrice(s, id, p)
    case Total => (s, InventoryValue(TotalValue(s.items)))
    case LowStockBelow(t) => (s, FindLowStockItems(s.items, t))
    case Remove(id) => RemoveProduct(s, id)
  }

  /** The store after a series of requests. */
  function Run(s: Store, reqs: seq<Request>): Store
    decreases |reqs|
  {
    if reqs == [] then s else Run(Apply(s, reqs[0]).0, reqs[1..])
  }
}
