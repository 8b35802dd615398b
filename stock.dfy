/**
 * The inventory store as the Java code keeps it: `Product` objects whose
 * fields the setters change in place, and an `InventoryManager` holding the
 * ordered list of them and the next id. Each manager method is one critical
 * section, so each is proved against the matching pure step in `Catalog`.
 */
module Stock {
  import opened Java
  import opened Wrappers
  import opened Types
  import Catalog
  import CatalogLemmas

  class Product {
    const id: int
    var name: string
    var quantity: Int32
    var price: int

    constructor (id: int, name: string, quantity: Int32, price: int)
      ensures this.id == id && this.name == name && this.quantity == quantity && this.price == price
    {
      this.id := id;
      this.name := name;
      this.quantity := quantity;
      this.price := price;
    }

    /** The product's current state as a value. */
    function View(): Item
      reads this
    {
      Item(id, name, quantity, price)
    }

    method SetName(name: string)
      modifies this
      ensures this.name == name && quantity == old(quantity) && price == old(price)
    {
      this.name := name;
    }

    method SetQuantity(quantity: Int32)
      modifies this
      ensures this.quantity == quantity && name == old(name) && price == old(price)
    {
      this.quantity := quantity;
    }

    method SetPrice(price: int)
      modifies this
      ensures this.price == price && name == old(name) && quantity == old(quantity)
    {
      this.price := price;
    }

    /** `getTotalValue`: the stock's worth in cents, never negative for a product in stock at a non-negative price. */
    function TotalValue(): (v: int)
      reads this
      ensures v == Value(View())
      ensures quantity >= 0 && price >= 0 ==> v >= 0
      ensures quantity == 0 || price == 0 ==> v == 0
    {
      quantity * price
    }
  }

  class InventoryManager {
    var products: seq<Product>
    var nextProductId: int

    /** The products' current states, in list order. */
    function Items(): (r: seq<Item>)
      reads this, products
      ensures |r| == |products|
      ensures forall i :: 0 <= i < |products| ==> r[i] == products[i].View()
    {
      var ps := products;
      seq(|ps|, i reads ps requires 0 <= i < |ps| => ps[i].View())
    }

    function State(): Catalog.Store
      reads this, products
    {
      Catalog.Store(Items(), nextProductId)
    }

    /** Distinct ids make distinct objects, so changing one product leaves the others alone. */
    ghost predicate Valid()
      reads this, products
    {
      Catalog.Valid(State())
    }

    /** The constructor seeds the five sample products with ids 1 to 5. */
    constructor ()
      ensures Valid() && State() == Catalog.Seed()
    {
      products := [];
      nextProductId := 1;
      new;
      var r := AddProduct("Laptop", 10, 99999);
      r := AddProduct("Mouse", 50, 2550);
      r := AddProduct("Keyboard", 30, 7500);
      r := AddProduct("Monitor", 15, 29999);
      r := AddProduct("USB Cable", 100, 999);
    }

    method AddProduct(name: string, quantity: Int32, price: int) returns (r: Response)
      requires Valid()
      modifies this
      ensures Valid()
      ensures (State(), r) == Catalog.AddProduct(old(State()), name, quantity, price)
      ensures |products| == |old(products)| + 1 && products[..|old(products)|] == old(products)
      ensures fresh(products[|old(products)|])
    {
      var product := new Product(nextProductId, name, quantity, price);
      nextProductId := nextProductId + 1;
      products := products + [product];
      r := ProductAdded(product.View());
      assert Items() == old(Items()) + [product.View()];
    }

    /** The position of the product with this id, as `findProductById` finds it. */
    function FindProductById(id: int): (r: Option<nat>)
      reads this, products
      ensures r.Some? ==> r.value < |products| && products[r.value].id == id
      ensures r.Some? ==> forall j :: 0 <= j < r.value ==> products[j].id != id
      ensures r.None? <==> forall j :: 0 <= j < |products| ==> products[j].id != id
    {
      Catalog.IndexOf(Items(), id)
    }

    method AddStock(productId: int, quantity: Int32) returns (r: Response)
      requires Valid()
      modifies products
      ensures Valid() && products == old(products)
      ensures (State(), r) == Catalog.AddStock(old(State()), productId, quantity)
    {
      var found := FindProductById(productId);
      if found.None? {
        return NotFound(productId);
      }
      var k := found.value;
      var product := products[k];
      var q := Wrap(product.quantity + quantity);
      product.SetQuantity(q);
      r := StockAdded(quantity, product.name, q);
      assert Items() == old(Items())[k := product.View()];
    }

    method BuyStock(productId: int, quantity: Int32) returns (r: Response)
      requires Valid()
      modifies products
      ensures Valid() && products == old(products)
      ensures (State(), r) == Catalog.BuyStock(old(State()), productId, quantity)
    {
      var found := FindProductById(productId);
      if found.None? {
        return NotFound(productId);
      }
      var product := products[found.value];
      if product.quantity < quantity {
        return InsufficientStock(product.quantity, quantity);
      }
      product.SetQuantity(Wrap(product.quantity - quantity));
      var totalCost := quantity * product.price;
      r := Purchased(quantity, product.name, totalCost, product.quantity);
      assert Items() == old(Items())[found.value := product.View()];
    }

    method UpdatePrice(productId: int, newPrice: int) returns (r: Response)
      requires Valid()
      modifies products
      ensures Valid() && products == old(products)
      ensures (State(), r) == Catalog.UpdatePrice(old(State()), productId, newPrice)
    {
      var found := FindProductById(productId);
      if found.None? {
        return NotFound(productId);
      }
      var product := products[found.value];
      var oldPrice := product.price;
      product.SetPrice(newPrice);
      r := PriceUpdated(product.name, oldPrice, newPrice);
      assert Items() == old(Items())[found.value := product.View()];
    }

    /**
     * `calculateTotalInventoryValue`: the sum of quantity times price over the
     * products. `CatalogLemmas.TotalValueAppend` shows the sum splits over any
     * division of the list, so the parallel stream's partial sums add up to it.
     */
    function CalculateTotalInventoryValue(): (r: Response)
      reads this, products
      ensures r.InventoryValue? && r.total == Catalog.TotalValue(Items())
    {
      InventoryValue(Catalog.TotalValue(Items()))
    }

    /** `findLowStockItems`. */
    function FindLowStockItems(threshold: Int32): (r: Response)
      reads this, products
      ensures r == Catalog.FindLowStockItems(Items(), threshold)
      ensures r.LowStockItems? ==> forall x :: x in r.items <==> x in Items() && x.quantity < threshold
    {
      Catalog.FindLowStockItems(Items(), threshold)
    }

    /** `listAllProducts`: one entry per product, in list order, then the count. */
    method ListAllProducts() returns (r: Response)
      ensures r == Catalog.ListAllProducts(Items())
    {
      if |products| == 0 {
        return NoProducts;
      }
      var lines: seq<Item> := [];
      var i := 0;
      while i < |products|
        invariant 0 <= i <= |products|
        invariant lines == Items()[..i]
      {
        lines := lines + [products[i].View()];
        i := i + 1;
      }
      r := InventoryList(lines, |products|);
    }

    /** `getAllProducts`: a fresh list holding the same product objects. */
    method GetAllProducts() returns (r: seq<Product>)
      ensures r == products
    {
      r := products[..];
    }

    method RemoveProduct(productId: int) returns (r: Response)
      requires Valid()
      modifies this
      ensures Valid()
      ensures (State(), r) == Catalog.RemoveProduct(old(State()), productId)
      ensures forall j :: 0 <= j < |products| ==> products[j] in old(products)
    {
      var found := FindProductById(productId);
      if found.Some? {
        var k := found.value;
        var name := products[k].name;
        products := products[..k] + products[k + 1..];
        r := ProductRemoved(name);
        assert Items() == old(Items())[..k] + old(Items())[k + 1..];
        CatalogLemmas.RemovePreservesValid(old(State()), productId);
      } else {
        r := NotFound(productId);
      }
    }
  }
}
