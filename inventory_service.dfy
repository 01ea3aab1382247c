/** `InventoryServiceImpl`: guarded changes to one product's stock. A product id
    and the absolute stock are nullable (`Long`, `Integer`) in the source, hence
    `Option`; the delta is a primitive `int`. */
module InventoryService {
  import opened JavaInt
  import opened Domain
  import opened Repositories

  /** The product the service returns (if it saved one) and the products afterwards. */
  datatype StockChange = StockChange(saved: Option<Product>, products: map<ProductId, Product>)

  /** `adjustStock`: add `delta` to the stock, in Java int arithmetic, unless the
      id is null or unknown or the new (wrapped) stock is negative. On a
      non-negative stock an overflow wraps to a negative value and is refused
      (`AdjustAcceptsIff`); on a negative stock an underflow wraps to a positive
      value and is accepted (`AdjustUnderflowAccepted`). */
  function Adjust(products: map<ProductId, Product>, productId: Option<ProductId>, delta: int32): (r: StockChange)
    ensures r.saved.Some? <==>
      productId.Some? && productId.value in products && Add(products[productId.value].stock, delta) >= 0
    ensures productId.None? || productId.value !in products ==> r == StockChange(None, products)
    ensures r.saved.None? ==> r.products == products
    ensures r.saved.Some? ==>
      && productId.Some? && productId.value in products
      && r.saved.value.stock >= 0
      && r.saved.value.price == products[productId.value].price
      && r.products == products[productId.value := r.saved.value]
      && r.saved.value.stock == Add(products[productId.value].stock, delta)
    ensures StocksNonNegative(products) ==> StocksNonNegative(r.products)
  {
    if productId.None? then StockChange(None, products)
    else if productId.value !in products then StockChange(None, products)
    else
      var product := products[productId.value];
      var newStock := Add(product.stock, delta);
      if newStock < 0 then StockChange(None, products)
      else
        var saved := product.(stock := newStock);
        StockChange(Some(saved), products[productId.value := saved])
  }

  /** `setStock`: overwrite the stock unless the id is null or unknown, or the
      value is null or negative. */
  function Overwrite(products: map<ProductId, Product>, productId: Option<ProductId>, stock: Option<int32>): (r: StockChange)
    ensures r.saved.Some? <==>
      productId.Some? && productId.value in products && stock.Some? && stock.value >= 0
    ensures r.saved.None? ==> r.products == products
    ensures r.saved.Some? ==>
      && r.saved.value == products[productId.value].(stock := stock.value)
      && r.products == products[productId.value := r.saved.value]
    ensures StocksNonNegative(products) ==> StocksNonNegative(r.products)
  {
    if productId.None? then StockChange(None, products)
    else if productId.value !in products then StockChange(None, products)
    else if stock.None? || stock.value < 0 then StockChange(None, products)
    else
      var saved := products[productId.value].(stock := stock.value);
      StockChange(Some(saved), products[productId.value := saved])
  }

  /** On a known product with a non-negative stock, the adjustment goes ahead
      exactly when the mathematical sum `stock + delta` is a non-negative Java
      int, and then the new stock is that sum: an overflow never slips through. */
  lemma AdjustAcceptsIff(products: map<ProductId, Product>, p: ProductId, delta: int32)
    requires p in products && products[p].stock >= 0
    ensures var r := Adjust(products, Some(p), delta);
      && (r.saved.Some? <==> 0 <= products[p].stock + delta <= MAX_INT)
      && (r.saved.Some? ==> r.saved.value.stock == products[p].stock + delta)
  {
    AddNonNegative(products[p].stock, delta);
  }

  /** A successful adjustment by `delta` followed by one by `-delta` gives back
      the products as they were, provided the stock was not negative to begin
      with (a negative stock could not be restored: the undo would be rejected). */
  lemma AdjustUndo(products: map<ProductId, Product>, p: ProductId, delta: int32)
    requires p in products && products[p].stock >= 0
    requires Adjust(products, Some(p), delta).saved.Some?
    ensures var mid := Adjust(products, Some(p), delta).products;
      Adjust(mid, Some(p), Neg(delta)) == StockChange(Some(products[p]), products)
  {
    var mid := Adjust(products, Some(p), delta).products;
    AdjustAcceptsIff(products, p, delta);
    assert delta != MIN_INT;
    assert Neg(delta) == -delta;
    assert mid[p].stock == products[p].stock + delta;
    assert mid[p := products[p]] == products;
  }

  /** On a negative stock an accepted adjustment can never be undone: the
      adjustment by `-delta` brings back the old negative stock, which the
      `newStock < 0` test refuses, so nothing changes. */
  lemma AdjustUndoRefused(products: map<ProductId, Product>, p: ProductId, delta: int32)
    requires p in products && products[p].stock < 0
    requires Adjust(products, Some(p), delta).saved.Some?
    ensures var mid := Adjust(products, Some(p), delta).products;
      Adjust(mid, Some(p), Neg(delta)) == StockChange(None, mid)
  {
    var mid := Adjust(products, Some(p), delta).products;
    AddNegCancels(products[p].stock, delta);
    assert Add(mid[p].stock, Neg(delta)) == products[p].stock;
  }

  /** Adjusting a known product by zero changes no product; it saves the
      product, unchanged, exactly when its stock is not negative. */
  lemma AdjustZero(products: map<ProductId, Product>, p: ProductId)
    requires p in products
    ensures var r := Adjust(products, Some(p), 0);
      && r.products == products
      && (r.saved.Some? <==> products[p].stock >= 0)
      && (r.saved.Some? ==> r.saved.value == products[p])
  {
    assert Add(products[p].stock, 0) == products[p].stock;
    assert products[p := products[p]] == products;
  }

  /** On a negative stock the guard does not catch an underflow: a stock of -1
      adjusted by -2^31 wraps to 2^31-1 and is saved. */
  lemma AdjustUnderflowAccepted()
    ensures var r := Adjust(map[1 := Product(1000, -1)], Some(1), MIN_INT);
      r.saved == Some(Product(1000, MAX_INT)) && r.products == map[1 := Product(1000, MAX_INT)]
  {
    assert Add(-1, MIN_INT) == MAX_INT;
  }

  /** Setting the same stock twice is the same as setting it once. */
  lemma OverwriteIdempotent(products: map<ProductId, Product>, p: Option<ProductId>, stock: Option<int32>)
    ensures var once := Overwrite(products, p, stock);
      Overwrite(once.products, p, stock) == once
  {
    var once := Overwrite(products, p, stock);
    if once.saved.Some? {
      assert once.products[p.value := once.saved.value] == once.products;
    }
  }

  /** `adjustStock` on the store: only the products change, as `Adjust` says. */
  method AdjustStock(store: Store, productId: Option<ProductId>, delta: int32) returns (saved: Option<Product>)
    modifies store
    ensures StockChange(saved, store.products) == Adjust(old(store.products), productId, delta)
    ensures store.Snapshot() == old(store.Snapshot()).(products := store.products)
  {
    if productId.None? {
      return None;
    }
    if productId.value !in store.products {
      return None;
    }
    var product := store.products[productId.value];
    var newStock := Add(product.stock, delta);
    if newStock < 0 {
      return None;
    }
    product := product.(stock := newStock);
    store.products := store.products[productId.value := product];
    saved := Some(product);
  }

  /** `setStock` on the store: only the products change, as `Overwrite` says. */
  method SetStock(store: Store, productId: Option<ProductId>, stock: Option<int32>) returns (saved: Option<Product>)
    modifies store
    ensures StockChange(saved, store.products) == Overwrite(old(store.products), productId, stock)
    ensures store.Snapshot() == old(store.Snapshot()).(products := store.products)
  {
    if productId.None? {
      return None;
    }
    if productId.value !in store.products {
      return None;
    }
    if stock.None? || stock.value < 0 {
      return None;
    }
    var product := store.products[productId.value];
    product := product.(stock := stock.value);
    store.products := store.products[productId.value := product];
    saved := Some(product);
  }
}
