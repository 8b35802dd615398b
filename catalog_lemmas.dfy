/**
 * What the inventory store's operations promise: the id invariant, failed
 * operations changing nothing, purchases never overselling, removed ids never
 * coming back, and the totals reports are built from.
 */
module CatalogLemmas {
  import opened Java
  import opened Wrappers
  import opened Types
  import opened Catalog

  // ------------------------------------------------------------ lookup

  /** With unique ids, the lookup finds the one product that carries the id. */
  lemma IndexOfUnique(s: Store, k: nat)
    requires Valid(s) && k < |s.items|
    ensures IndexOf(s.items, s.items[k].id) == Some(k)
  {
  }

  lemma IndexOfAbsent(items: seq<Item>, id: int)
    requires !HasId(items, id)
    ensures IndexOf(items, id) == None
  {
  }

  // ------------------------------------------------------------ the seed

  /** The constructor's sample catalogue: ids 1 to 5 in order, the next id 6. */
  lemma SeedCatalog()
    ensures Seed() == Store([
      Item(1, "Laptop", 10, 99999),
      Item(2, "Mouse", 50, 2550),
      Item(3, "Keyboard", 30, 7500),
      Item(4, "Monitor", 15, 29999),
      Item(5, "USB Cable", 100, 999)], 6)
    ensures Valid(Seed()) && InStock(Seed().items)
  {
    var s1 := AddProduct(Store([], 1), "Laptop", 10, 99999).0;
    var s2 := AddProduct(s1, "Mouse", 50, 2550).0;
    var s3 := AddProduct(s2, "Keyboard", 30, 7500).0;
    var s4 := AddProduct(s3, "Monitor", 15, 29999).0;
    assert s4.items == [Item(1, "Laptop", 10, 99999), Item(2, "Mouse", 50, 2550),
                        Item(3, "Keyboard", 30, 7500), Item(4, "Monitor", 15, 29999)];
    var items := Seed().items;
    forall i | 0 <= i < |items| ensures items[i].id == i + 1 && items[i].quantity >= 0 {
    }
    NumberedValid(Seed());
  }

  /** A store whose ids are the positions counted from one is valid. */
  lemma NumberedValid(s: Store)
    requires s.nextId == |s.items| + 1
    requires forall i :: 0 <= i < |s.items| ==> s.items[i].id == i + 1
    ensures Valid(s)
  {
  }

  /** The untouched catalogue is worth 19,023.75. */
  lemma SeedTotalValue()
    ensures TotalValue(Seed().items) == 1902375
  {
    SeedCatalog();
    var items := Seed().items;
    assert items[1..][1..][1..][1..][1..] == [];
  }

  // ------------------------------------------------------------ the invariant

  /** Every operation keeps ids unique, increasing in list order and below `nextId`. */
  lemma {:induction false} ApplyPreservesValid(s: Store, req: Request)
    requires Valid(s)
    ensures Valid(Apply(s, req).0)
  {
    var t := Apply(s, req).0;
    match req
    case Remove(id) => RemovePreservesValid(s, id);
    case Add(name, q, p) =>
      assert forall i :: 0 <= i < |t.items| ==> t.items[i] == if i < |s.items| then s.items[i] else Item(s.nextId, name, q, p);
    case Restock(_, _) => ChangedKeepsIds(s, req); SameIdsKeep(s, t, 0);
    case Buy(_, _) => ChangedKeepsIds(s, req); SameIdsKeep(s, t, 0);
    case Reprice(_, _) => ChangedKeepsIds(s, req); SameIdsKeep(s, t, 0);
    case _ =>
  }

  /** The two stores hold the same ids in the same places, and the same counter. */
  predicate SameIds(s: Store, t: Store) {
    && |t.items| == |s.items| && t.nextId == s.nextId
    && forall i :: 0 <= i < |s.items| ==> t.items[i].id == s.items[i].id
  }

  lemma SameIdsKeep(s: Store, t: Store, id: int)
    requires SameIds(s, t)
    ensures Valid(s) ==> Valid(t)
    ensures HasId(t.items, id) == HasId(s.items, id)
  {
    if HasId(t.items, id) {
      var i :| 0 <= i < |t.items| && t.items[i].id == id;
      assert s.items[i].id == id;
    }
  }

  /** Restocking, buying and repricing change a product's fields but never an id. */
  lemma ChangedKeepsIds(s: Store, req: Request)
    requires req.Restock? || req.Buy? || req.Reprice?
    ensures SameIds(s, Apply(s, req).0)
  {
  }

  lemma RemovePreservesValid(s: Store, id: int)
    requires Valid(s)
    ensures Valid(RemoveProduct(s, id).0)
  {
    match IndexOf(s.items, id)
    case None =>
    case Some(k) =>
      assert RemoveProduct(s, id).0 == Store(s.items[..k] + s.items[k + 1..], s.nextId);
      RemoveAtValid(s.items, k, s.nextId);
  }

  /** Deleting any one entry keeps the ids increasing and in range. */
  lemma RemoveAtValid(items: seq<Item>, k: nat, nextId: int)
    requires k < |items| && Valid(Store(items, nextId))
    ensures Valid(Store(items[..k] + items[k + 1..], nextId))
  {
    var rest := items[..k] + items[k + 1..];
    forall i | 0 <= i < |rest| ensures rest[i] == items[Skip(i, k)] {
    }
    forall i, j | 0 <= i < j < |rest| ensures rest[i].id < rest[j].id {
      assert Skip(i, k) < Skip(j, k);
    }
  }

  /** The position in the old list of entry `i` once entry `k` is gone. */
  function Skip(i: nat, k: nat): nat {
    if i < k then i else i + 1
  }

  /** `nextId` never goes down, and goes up (by exactly one) only when a product is added. */
  lemma NextIdMonotone(s: Store, req: Request)
    ensures Apply(s, req).0.nextId == if req.Add? then s.nextId + 1 else s.nextId
  {
  }

  /** Every store-level error leaves the store exactly as it was. */
  lemma FailedRequestChangesNothing(s: Store, req: Request)
    ensures IsError(Apply(s, req).1) ==> Apply(s, req).0 == s
    ensures Apply(s, req).1.NotFound? ==> Apply(s, req).1.id == req.id
  {
  }

  /** Listing, totalling and the low-stock filter never change the store. */
  lemma QueriesChangeNothing(s: Store, req: Request)
    requires req.ListAll? || req.Total? || req.LowStockBelow?
    ensures Apply(s, req).0 == s && !IsError(Apply(s, req).1)
  {
  }

  // ------------------------------------------------------------ per operation

  /** `addProduct` hands out `nextId`, which no product has yet, and appends. */
  lemma AddProductEffect(s: Store, name: string, quantity: Int32, price: int)
    requires Valid(s)
    ensures var (s', r) := AddProduct(s, name, quantity, price);
      && !HasId(s.items, s.nextId)
      && (forall i :: 0 <= i < |s.items| ==> s.items[i].id < s.nextId)
      && s'.items == s.items + [Item(s.nextId, name, quantity, price)]
      && s'.nextId == s.nextId + 1
      && r == ProductAdded(Item(s.nextId, name, quantity, price))
  {
  }

  /** An unknown id is a not-found error, whatever the operation. */
  lemma UnknownIdNotFound(s: Store, id: Int32, quantity: Int32, price: int)
    requires !HasId(s.items, id)
    ensures AddStock(s, id, quantity) == (s, NotFound(id))
    ensures BuyStock(s, id, quantity) == (s, NotFound(id))
    ensures UpdatePrice(s, id, price) == (s, NotFound(id))
    ensures RemoveProduct(s, id) == (s, NotFound(id))
  {
    IndexOfAbsent(s.items, id);
  }

  /** `addStock` raises the quantity of the product with the id, and changes nothing else. */
  lemma AddStockEffect(s: Store, k: nat, quantity: Int32)
    requires Valid(s) && k < |s.items|
    ensures var it := s.items[k];
      var q := Wrap(it.quantity + quantity);
      AddStock(s, it.id, quantity) == (s.(items := s.items[k := it.(quantity := q)]), StockAdded(quantity, it.name, q))
    ensures s.items[k].quantity + quantity <= MaxInt && s.items[k].quantity + quantity >= MinInt ==>
      AddStock(s, s.items[k].id, quantity).1.newQuantity == s.items[k].quantity + quantity
  {
    IndexOfUnique(s, k);
  }

  /**
   * `buyStock` on the product with the id: a request above the stock is an
   * insufficient-stock error that changes nothing; otherwise exactly that
   * product's quantity goes down by the request, and only it.
   */
  lemma BuyStockEffect(s: Store, k: nat, quantity: Int32)
    requires Valid(s) && k < |s.items|
    ensures var it := s.items[k];
      if it.quantity < quantity then
        BuyStock(s, it.id, quantity) == (s, InsufficientStock(it.quantity, quantity))
      else
        var q := Wrap(it.quantity - quantity);
        BuyStock(s, it.id, quantity)
          == (s.(items := s.items[k := it.(quantity := q)]), Purchased(quantity, it.name, quantity * it.price, q))
  {
    IndexOfUnique(s, k);
  }

  /** A purchase of a non-negative amount never oversells: what remains is the old stock minus the request, and at least zero. */
  lemma BuyNeverNegative(s: Store, id: int, quantity: Int32)
    requires 0 <= quantity
    ensures var (s', r) := BuyStock(s, id, quantity);
      r.Purchased? ==> r.remaining >= 0 && (InStock(s.items) ==> InStock(s'.items))
    ensures var (s', r) := BuyStock(s, id, quantity);
      forall k :: r.Purchased? && k == IndexOf(s.items, id).value ==>
        quantity <= s.items[k].quantity && s'.items[k].quantity == s.items[k].quantity - quantity
  {
  }

  /** `updatePrice` changes only the price of the product with the id and reports the old price. */
  lemma UpdatePriceEffect(s: Store, k: nat, price: int)
    requires Valid(s) && k < |s.items|
    ensures var (s', r) := UpdatePrice(s, s.items[k].id, price);
      && r == PriceUpdated(s.items[k].name, s.items[k].price, price)
      && |s'.items| == |s.items| && s'.nextId == s.nextId
      && s'.items[k] == Item(s.items[k].id, s.items[k].name, s.items[k].quantity, price)
      && (forall j :: 0 <= j < |s.items| && j != k ==> s'.items[j] == s.items[j])
  {
    IndexOfUnique(s, k);
  }

  /**
   * `removeProduct` deletes exactly the product with the id, keeps the order of
   * the others and keeps `nextId`, so the id is gone and will not be handed out again.
   */
  lemma RemoveProductEffect(s: Store, k: nat)
    requires Valid(s) && k < |s.items|
    ensures var (s', r) := RemoveProduct(s, s.items[k].id);
      && s'.items == s.items[..k] + s.items[k + 1..]
      && s'.nextId == s.nextId
      && r == ProductRemoved(s.items[k].name)
      && !HasId(s'.items, s.items[k].id)
      && s.items[k].id < s'.nextId
  {
    IndexOfUnique(s, k);
    var id := s.items[k].id;
    var rest := s.items[..k] + s.items[k + 1..];
    forall i | 0 <= i < |rest| ensures rest[i].id != id {
      if i < k {
        assert rest[i] == s.items[i];
      } else {
        assert rest[i] == s.items[i + 1];
      }
    }
  }

  // ------------------------------------------------------------ ids are never reused

  /** An id that is absent and below `nextId` stays absent under every operation. */
  lemma {:induction false} AbsentIdStaysAbsent(s: Store, id: int, req: Request)
    requires Valid(s) && id < s.nextId && !HasId(s.items, id)
    ensures Valid(Apply(s, req).0)
    ensures id < Apply(s, req).0.nextId && !HasId(Apply(s, req).0.items, id)
  {
    ApplyPreservesValid(s, req);
    var t := Apply(s, req).0;
    match req
    case Remove(rid) =>
      match IndexOf(s.items, rid) {
        case None =>
        case Some(k) =>
          assert forall i :: 0 <= i < |t.items| ==> t.items[i] == s.items[if i < k then i else i + 1];
      }
    case Add(name, q, p) =>
      assert forall i :: 0 <= i < |t.items| ==> t.items[i] == if i < |s.items| then s.items[i] else Item(s.nextId, name, q, p);
    case Restock(_, _) => ChangedKeepsIds(s, req); SameIdsKeep(s, t, id);
    case Buy(_, _) => ChangedKeepsIds(s, req); SameIdsKeep(s, t, id);
    case Reprice(_, _) => ChangedKeepsIds(s, req); SameIdsKeep(s, t, id);
    case _ =>
  }

  /** Once removed, an id never reappears, whatever requests follow. */
  lemma {:induction false} RemovedIdNeverReturns(s: Store, k: nat, reqs: seq<Request>)
    requires Valid(s) && k < |s.items|
    ensures !HasId(Run(RemoveProduct(s, s.items[k].id).0, reqs).items, s.items[k].id)
  {
    RemoveProductEffect(s, k);
    RemovePreservesValid(s, s.items[k].id);
    AbsentAlongRun(RemoveProduct(s, s.items[k].id).0, s.items[k].id, reqs);
  }

  lemma {:induction false} AbsentAlongRun(s: Store, id: int, reqs: seq<Request>)
    requires Valid(s) && id < s.nextId && !HasId(s.items, id)
    ensures !HasId(Run(s, reqs).items, id)
    decreases |reqs|
  {
    if reqs != [] {
      AbsentIdStaysAbsent(s, id, reqs[0]);
      AbsentAlongRun(Apply(s, reqs[0]).0, id, reqs[1..]);
    }
  }

  // ------------------------------------------------------------ no oversell

  /** The units sold of the product with this id over a run of requests. */
  function Sold(s: Store, reqs: seq<Request>, id: int): int
    decreases |reqs|
  {
    if reqs == [] then 0
    else
      var (s', r) := Apply(s, reqs[0]);
      (if reqs[0].Buy? && reqs[0].id == id && r.Purchased? then r.quantity else 0) + Sold(s', reqs[1..], id)
  }

  predicate NonNegativePurchases(reqs: seq<Request>) {
    forall i :: 0 <= i < |reqs| ==> reqs[i].Buy? && reqs[i].quantity >= 0
  }

  /**
   * Any series of non-negative purchases, in whatever order the lock lets
   * them through, sells at most the stock there was: each product ends with
   * exactly its starting quantity minus what was sold of it, never below zero.
   */
  lemma {:induction false} NoOversell(s: Store, reqs: seq<Request>, k: nat)
    requires Valid(s) && k < |s.items| && InStock(s.items) && NonNegativePurchases(reqs)
    ensures var t := Run(s, reqs);
      && |t.items| == |s.items| && t.items[k].id == s.items[k].id
      && t.items[k].quantity == s.items[k].quantity - Sold(s, reqs, s.items[k].id)
      && 0 <= Sold(s, reqs, s.items[k].id) <= s.items[k].quantity
      && InStock(t.items)
    decreases |reqs|
  {
    if reqs != [] {
      var req := reqs[0];
      var (s', r) := Apply(s, req);
      var id := s.items[k].id;
      ApplyPreservesValid(s, req);
      if IndexOf(s.items, req.id).Some? {
        var j := IndexOf(s.items, req.id).value;
        if r.Purchased? {
          assert s'.items == s.items[j := s.items[j].(quantity := s.items[j].quantity - req.quantity)];
          assert req.id == id <==> j == k by {
            if j != k {
              assert s.items[j].id != s.items[k].id by {
                if j < k { assert s.items[j].id < s.items[k].id; } else { assert s.items[k].id < s.items[j].id; }
              }
            }
          }
        }
      }
      assert NonNegativePurchases(reqs[1..]) by {
        forall i | 0 <= i < |reqs[1..]| ensures reqs[1..][i].Buy? && reqs[1..][i].quantity >= 0 {
          assert reqs[1..][i] == reqs[i + 1];
        }
      }
      NoOversell(s', reqs[1..], k);
    }
  }

  // ------------------------------------------------------------ never negative

  /** The requests under which no quantity can go negative. */
  predicate KeepsStock(s: Store, req: Request) {
    match req
    case Add(_, q, _) => q >= 0
    case Restock(id, q) => q >= 0 && forall i :: 0 <= i < |s.items| && s.items[i].id == id ==> s.items[i].quantity + q <= MaxInt
    case Buy(_, q) => q >= 0
    case _ => true
  }

  /** Quantities stay at or above zero under every operation that adds no negative amount and does not overflow. */
  lemma InStockPreserved(s: Store, req: Request)
    requires InStock(s.items) && KeepsStock(s, req)
    ensures InStock(Apply(s, req).0.items)
  {
    var t := Apply(s, req).0;
    if req.Remove? && IndexOf(s.items, req.id).Some? {
      var k := IndexOf(s.items, req.id).value;
      assert forall i :: 0 <= i < |t.items| ==> t.items[i] == s.items[if i < k then i else i + 1];
    }
  }

  /** A purchase of a negative amount passes the stock check and raises the stock instead. */
  lemma NegativePurchaseRaisesStock()
    ensures BuyStock(Seed(), 1, -5).1 == Purchased(-5, "Laptop", -499995, 15)
  {
    SeedCatalog();
  }

  /** With the smallest `int` as the request, the wrapped remainder is negative. */
  lemma PurchaseOverflowGoesNegative()
    ensures BuyStock(Seed(), 1, MinInt).1.Purchased?
    ensures BuyStock(Seed(), 1, MinInt).1.remaining == MinInt + 10
  {
    SeedCatalog();
  }

  // ------------------------------------------------------------ totals

  /** Summing in two halves gives the same total: the reduction does not depend on how it is split. */
  lemma {:induction false} TotalValueAppend(a: seq<Item>, b: seq<Item>)
    ensures TotalValue(a + b) == TotalValue(a) + TotalValue(b)
    decreases |a|
  {
    if a != [] {
      assert (a + b)[1..] == a[1..] + b;
      TotalValueAppend(a[1..], b);
    } else {
      assert a + b == b;
    }
  }

  lemma {:induction false} TotalUnitsAppend(a: seq<Item>, b: seq<Item>)
    ensures TotalUnits(a + b) == TotalUnits(a) + TotalUnits(b)
    decreases |a|
  {
    if a != [] {
      assert (a + b)[1..] == a[1..] + b;
      TotalUnitsAppend(a[1..], b);
    } else {
      assert a + b == b;
    }
  }

  /** Replacing one product changes the total by the difference of the two values. */
  lemma {:induction false} TotalValueUpdate(items: seq<Item>, k: nat, it: Item)
    requires k < |items|
    ensures TotalValue(items[k := it]) == TotalValue(items) - Value(items[k]) + Value(it)
    decreases |items|
  {
    if k > 0 {
      assert items[k := it][1..] == items[1..][k - 1 := it];
      TotalValueUpdate(items[1..], k - 1, it);
    } else {
      assert items[k := it][1..] == items[1..];
    }
  }

  lemma TotalValueRemove(items: seq<Item>, k: nat)
    requires k < |items|
    ensures TotalValue(items[..k] + items[k + 1..]) == TotalValue(items) - Value(items[k])
  {
    var a, b := items[..k], items[k + 1..];
    var c := [items[k]] + b;
    assert items == a + c;
    assert c[1..] == b;
    TotalValueAppend(a, c);
    TotalValueAppend(a, b);
  }


  /** With no product of negative worth, the inventory value is not negative. */
  lemma {:induction false} TotalValueNonNegative(items: seq<Item>)
    requires forall i :: 0 <= i < |items| ==> Value(items[i]) >= 0
    ensures TotalValue(items) >= 0
    decreases |items|
  {
    if items != [] {
      assert Value(items[0]) >= 0;
      assert forall i :: 0 <= i < |items[1..]| ==> items[1..][i] == items[i + 1];
      TotalValueNonNegative(items[1..]);
    }
  }

  /** A purchase of a non-negative amount lowers the inventory value by exactly the cost it reports. */
  lemma PurchaseValue(s: Store, id: int, quantity: Int32)
    requires 0 <= quantity
    ensures var (s', r) := BuyStock(s, id, quantity);
      r.Purchased? ==> TotalValue(s'.items) == TotalValue(s.items) - r.totalCost
  {
    if BuyStock(s, id, quantity).1.Purchased? {
      var k := IndexOf(s.items, id).value;
      var it := s.items[k];
      var it' := it.(quantity := it.quantity - quantity);
      assert BuyStock(s, id, quantity).0.items == s.items[k := it'];
      TotalValueUpdate(s.items, k, it');
      Distribute(it.quantity, -quantity, it.price);
    }
  }

  lemma Distribute(a: int, b: int, c: int)
    ensures (a + b) * c == a * c + b * c
  {
  }

  /** A restock that does not overflow raises the value by the added units at the product's price. */
  lemma RestockValue(s: Store, k: nat, quantity: Int32)
    requires Valid(s) && k < |s.items|
    requires MinInt <= s.items[k].quantity + quantity <= MaxInt
    ensures TotalValue(AddStock(s, s.items[k].id, quantity).0.items)
      == TotalValue(s.items) + quantity * s.items[k].price
  {
    IndexOfUnique(s, k);
    var it := s.items[k];
    var it' := it.(quantity := it.quantity + quantity);
    assert AddStock(s, it.id, quantity).0.items == s.items[k := it'];
    TotalValueUpdate(s.items, k, it');
    Distribute(it.quantity, quantity, it.price);
  }

  /** A new product adds its own worth to the value. */
  lemma AddProductValue(s: Store, name: string, quantity: Int32, price: int)
    ensures TotalValue(AddProduct(s, name, quantity, price).0.items) == TotalValue(s.items) + quantity * price
  {
    TotalValueAppend(s.items, [Item(s.nextId, name, quantity, price)]);
  }

  /** A price change re-prices that one product's units and nothing else. */
  lemma RepriceValue(s: Store, k: nat, price: int)
    requires Valid(s) && k < |s.items|
    ensures TotalValue(UpdatePrice(s, s.items[k].id, price).0.items)
      == TotalValue(s.items) + s.items[k].quantity * (price - s.items[k].price)
  {
    IndexOfUnique(s, k);
    var it := s.items[k];
    assert UpdatePrice(s, it.id, price).0.items == s.items[k := it.(price := price)];
    TotalValueUpdate(s.items, k, it.(price := price));
    assert it.quantity * price == it.quantity * it.price + it.quantity * (price - it.price);
  }

  /** A removal subtracts the removed product's worth. */
  lemma RemoveValue(s: Store, k: nat)
    requires Valid(s) && k < |s.items|
    ensures TotalValue(RemoveProduct(s, s.items[k].id).0.items) == TotalValue(s.items) - Value(s.items[k])
  {
    IndexOfUnique(s, k);
    TotalValueRemove(s.items, k);
  }

  // ------------------------------------------------------------ the low-stock filter

  /** The filter distributes over concatenation, so it keeps list order. */
  lemma {:induction false} LowStockAppend(a: seq<Item>, b: seq<Item>, threshold: int)
    ensures LowStock(a + b, threshold) == LowStock(a, threshold) + LowStock(b, threshold)
    decreases |a|
  {
    if a != [] {
      assert (a + b)[1..] == a[1..] + b;
      LowStockAppend(a[1..], b, threshold);
    } else {
      assert a + b == b;
    }
  }

  /** The "no low-stock items" message appears exactly when every quantity reaches the threshold. */
  lemma NoLowStockExactly(items: seq<Item>, threshold: Int32)
    ensures FindLowStockItems(items, threshold).NoLowStockItems?
      <==> forall i :: 0 <= i < |items| ==> items[i].quantity >= threshold
  {
    if LowStock(items, threshold) != [] {
      var x := LowStock(items, threshold)[0];
      assert x in LowStock(items, threshold);
    } else {
      forall i | 0 <= i < |items| ensures items[i].quantity >= threshold {
        assert items[i] in items;
      }
    }
  }

  // ------------------------------------------------------------ scenarios

  /** Two purchases of 6 Laptops from the 10 in stock: one succeeds leaving 4, the other is short. */
  lemma TwoPurchasesOfSix()
    ensures var (s1, r1) := BuyStock(Seed(), 1, 6);
      var (s2, r2) := BuyStock(s1, 1, 6);
      && r1 == Purchased(6, "Laptop", 599994, 4)
      && r2 == InsufficientStock(4, 6)
      && s2 == s1
  {
    SeedCatalog();
  }
}
