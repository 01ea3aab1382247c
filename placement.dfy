/** The order-placement workflow as a pure reference definition. `Run` walks the
    requested lines in order exactly as the placement loop does (look up the
    product, compare stock with quantity, record the line, decrement the stock),
    and `Place` adds the user check and what happens after the loop. The
    imperative `CreateOrder` methods are proved equal to `Place`; the lemmas here
    say what `Place` guarantees. */
module Placement {
  import opened JavaInt
  import opened Domain
  import opened Repositories

  /** The two checks a line must pass: its product exists, and that product's
      current stock is not below the quantity. The sign of the quantity is not checked. */
  predicate Accepts(products: map<ProductId, Product>, line: OrderItemRequest) {
    line.productId in products && products[line.productId].stock >= line.quantity
  }

  /** The line item recorded for a line: it copies the product's price at this moment. */
  function LineItem(products: map<ProductId, Product>, line: OrderItemRequest): OrderItem
    requires line.productId in products
  {
    OrderItem(Some(line.productId), line.quantity, products[line.productId].price)
  }

  /** The products after a line's stock write: `stock - quantity` in Java int arithmetic. */
  function Reserve(products: map<ProductId, Product>, line: OrderItemRequest): map<ProductId, Product>
    requires line.productId in products
  {
    var product := products[line.productId];
    products[line.productId := product.(stock := Sub(product.stock, line.quantity))]
  }

  /** A line's stock write changes only that product's stock; for an accepted
      line with a non-negative quantity on a non-negative stock, it drops by
      exactly the quantity and stays non-negative. */
  lemma ReserveEffect(products: map<ProductId, Product>, line: OrderItemRequest)
    requires line.productId in products
    ensures var r := Reserve(products, line);
      && r.Keys == products.Keys
      && (forall p :: p in products && p != line.productId ==> r[p] == products[p])
      && r[line.productId].price == products[line.productId].price
      && r[line.productId].stock == Wrap(products[line.productId].stock - line.quantity)
      && (Accepts(products, line) && 0 <= line.quantity && products[line.productId].stock >= 0 ==>
            r[line.productId].stock == products[line.productId].stock - line.quantity >= 0)
  {
  }

  function Subtotal(item: OrderItem): int {
    item.price * item.quantity
  }

  /** Sum of `price * quantity` over the items, in order. */
  function Sum(items: seq<OrderItem>): int {
    if items == [] then 0 else Sum(items[..|items| - 1]) + Subtotal(items[|items| - 1])
  }

  /** Sum of the quantities the lines request of product `p`. */
  function QuantityOf(lines: seq<OrderItemRequest>, p: ProductId): int {
    if lines == [] then 0
    else
      var last := lines[|lines| - 1];
      QuantityOf(lines[..|lines| - 1], p) + (if last.productId == p then last.quantity else 0)
  }

  /** Where the loop stands: still going with the products, the items and the
      running total so far, or stopped at a rejected line `at`, with the
      products as the earlier lines left them. */
  datatype Progress =
    | Running(products: map<ProductId, Product>, items: seq<OrderItem>, total: int)
    | Failed(products: map<ProductId, Product>, at: nat)

  /** How many lines had their stock written. */
  function Processed(r: Progress): nat {
    if r.Running? then |r.items| else r.at
  }

  /** The placement loop over `lines`, starting from `products`. */
  function Run(products: map<ProductId, Product>, lines: seq<OrderItemRequest>): (r: Progress)
    ensures r.products.Keys == products.Keys
    ensures forall p :: p in products ==> r.products[p].price == products[p].price
    ensures r.Running? ==> |r.items| == |lines| && r.total == Sum(r.items)
    ensures r.Failed? ==> r.at < |lines|
    decreases |lines|
  {
    if lines == [] then Running(products, [], 0)
    else
      var line := lines[|lines| - 1];
      match Run(products, lines[..|lines| - 1])
      case Failed(ps, at) => Failed(ps, at)
      case Running(ps, items, total) =>
        if !Accepts(ps, line) then Failed(ps, |lines| - 1)
        else
          var item := LineItem(ps, line);
          assert (items + [item])[..|items|] == items;
          Running(Reserve(ps, line), items + [item], total + Subtotal(item))
  }

  /** One more accepted line extends a running loop by that line's item, subtotal and stock write. */
  lemma RunAcceptsNext(products: map<ProductId, Product>, lines: seq<OrderItemRequest>, i: nat)
    requires i < |lines| && Run(products, lines[..i]).Running?
    requires Accepts(Run(products, lines[..i]).products, lines[i])
    ensures var prev := Run(products, lines[..i]);
      var item := LineItem(prev.products, lines[i]);
      Run(products, lines[..i + 1]) ==
        Running(Reserve(prev.products, lines[i]), prev.items + [item], prev.total + Subtotal(item))
  {
    assert lines[..i + 1][..i] == lines[..i];
  }

  /** `RunAcceptsNext` spelled out in the terms the placement loops use: the
      item copies the product's price, the total grows by `price * quantity`,
      and the product's stock becomes `stock - quantity` in Java int arithmetic. */
  lemma RunAcceptsWritten(products: map<ProductId, Product>, lines: seq<OrderItemRequest>, i: nat,
                          ps: map<ProductId, Product>, items: seq<OrderItem>, total: int)
    requires i < |lines| && Run(products, lines[..i]) == Running(ps, items, total)
    requires Accepts(ps, lines[i])
    ensures var product := ps[lines[i].productId];
      Run(products, lines[..i + 1]) == Running(
        ps[lines[i].productId := product.(stock := Sub(product.stock, lines[i].quantity))],
        items + [OrderItem(Some(lines[i].productId), lines[i].quantity, product.price)],
        total + product.price * lines[i].quantity)
  {
    RunAcceptsNext(products, lines, i);
  }

  /** Once a line is rejected, later lines change nothing: the outcome is the one
      at the rejection. */
  lemma {:induction false} RunStopsAtFailure(products: map<ProductId, Product>, lines: seq<OrderItemRequest>, k: nat)
    requires k <= |lines| && Run(products, lines[..k]).Failed?
    ensures Run(products, lines) == Run(products, lines[..k])
    decreases |lines|
  {
    if k == |lines| {
      assert lines[..k] == lines;
    } else {
      var n := |lines|;
      assert lines[..n - 1][..k] == lines[..k];
      RunStopsAtFailure(products, lines[..n - 1], k);
    }
  }

  /** If the loop reaches line k and line k's product is missing or short of
      stock, placement fails there: the stock writes of lines 0..k-1 stay, and no
      later line is looked at. */
  lemma RunRejectsLine(products: map<ProductId, Product>, lines: seq<OrderItemRequest>, k: nat)
    requires k < |lines| && Run(products, lines[..k]).Running?
    requires !Accepts(Run(products, lines[..k]).products, lines[k])
    ensures Run(products, lines) == Failed(Run(products, lines[..k]).products, k)
  {
    assert lines[..k + 1][..k] == lines[..k];
    RunStopsAtFailure(products, lines, k + 1);
  }

  /** Conversely, a failed run failed at a line that was reached and rejected,
      and its products are those the earlier lines left. */
  lemma {:induction false} RunFailedAt(products: map<ProductId, Product>, lines: seq<OrderItemRequest>)
    requires Run(products, lines).Failed?
    ensures var k := Run(products, lines).at;
      && Run(products, lines[..k]).Running?
      && !Accepts(Run(products, lines[..k]).products, lines[k])
      && Run(products, lines).products == Run(products, lines[..k]).products
    decreases |lines|
  {
    var n := |lines|;
    var prev := Run(products, lines[..n - 1]);
    if prev.Failed? {
      RunFailedAt(products, lines[..n - 1]);
      var k := prev.at;
      assert lines[..n - 1][..k] == lines[..k];
    } else {
      assert lines[..n - 1] == lines[..Run(products, lines).at];
    }
  }

  /** Line i of a successful run was accepted at the moment it was reached, and
      item i is line i with the product's price at that moment, which is also
      the price when placement began, since placement changes no price. */
  lemma {:induction false} RunItemAt(products: map<ProductId, Product>, lines: seq<OrderItemRequest>, i: nat)
    requires Run(products, lines).Running? && i < |lines|
    ensures Run(products, lines[..i]).Running?
    ensures Accepts(Run(products, lines[..i]).products, lines[i])
    ensures Run(products, lines).items[i] == LineItem(Run(products, lines[..i]).products, lines[i])
    ensures Run(products, lines).items[i] == LineItem(products, lines[i])
    decreases |lines|
  {
    var n := |lines|;
    var init := lines[..n - 1];
    if i < n - 1 {
      RunItemAt(products, init, i);
      assert init[..i] == lines[..i];
      assert init[i] == lines[i];
    } else {
      assert init == lines[..i];
    }
  }

  /** Every line of a successful run, as `RunItemAt` states it for one. */
  lemma RunItems(products: map<ProductId, Product>, lines: seq<OrderItemRequest>)
    requires Run(products, lines).Running?
    ensures forall i :: 0 <= i < |lines| ==>
      && Run(products, lines[..i]).Running?
      && Accepts(Run(products, lines[..i]).products, lines[i])
      && Run(products, lines).items[i] == LineItem(products, lines[i])
  {
    forall i | 0 <= i < |lines|
      ensures Run(products, lines[..i]).Running?
      ensures Accepts(Run(products, lines[..i]).products, lines[i])
      ensures Run(products, lines).items[i] == LineItem(products, lines[i])
    {
      RunItemAt(products, lines, i);
    }
  }

  /** Closed form of the stock writes: a product's stock ends as its starting
      stock minus the quantities of the processed lines naming it, computed as
      one Java int subtraction would be. Products no processed line names keep
      their stock. */
  lemma {:induction false} RunStock(products: map<ProductId, Product>, lines: seq<OrderItemRequest>, p: ProductId)
    requires p in products
    ensures var r := Run(products, lines);
      r.products[p].stock == Wrap(products[p].stock - QuantityOf(lines[..Processed(r)], p))
    decreases |lines|
  {
    if lines == [] {
      assert lines[..0] == [];
    } else {
      RunStock(products, lines[..|lines| - 1], p);
      RunStockStep(products, lines, p);
    }
  }

  /** The inductive step of `RunStock`: from the closed form before the last line to the one after it. */
  lemma RunStockStep(products: map<ProductId, Product>, lines: seq<OrderItemRequest>, p: ProductId)
    requires p in products && lines != []
    requires var init := lines[..|lines| - 1]; var prev := Run(products, init);
      prev.products[p].stock == Wrap(products[p].stock - QuantityOf(init[..Processed(prev)], p))
    ensures var r := Run(products, lines);
      r.products[p].stock == Wrap(products[p].stock - QuantityOf(lines[..Processed(r)], p))
  {
    var prev := Run(products, lines[..|lines| - 1]);
    if prev.Failed? {
      RunStockAlreadyFailed(products, lines, p);
    } else if !Accepts(prev.products, lines[|lines| - 1]) {
      RunStockRejectedLast(products, lines, p);
    } else {
      RunStockAccepted(products, lines, p);
    }
  }

  /** `RunStockStep` when the loop had already stopped before the last line. */
  lemma RunStockAlreadyFailed(products: map<ProductId, Product>, lines: seq<OrderItemRequest>, p: ProductId)
    requires p in products && lines != []
    requires var init := lines[..|lines| - 1]; var prev := Run(products, init);
      prev.products[p].stock == Wrap(products[p].stock - QuantityOf(init[..Processed(prev)], p))
    requires Run(products, lines[..|lines| - 1]).Failed?
    ensures var r := Run(products, lines);
      r.products[p].stock == Wrap(products[p].stock - QuantityOf(lines[..Processed(r)], p))
  {
    var init := lines[..|lines| - 1];
    var prev := Run(products, init);
    assert Run(products, lines) == prev;
    assert init[..prev.at] == lines[..prev.at];
  }

  /** `RunStockStep` when the last line is reached and rejected. */
  lemma RunStockRejectedLast(products: map<ProductId, Product>, lines: seq<OrderItemRequest>, p: ProductId)
    requires p in products && lines != []
    requires var init := lines[..|lines| - 1]; var prev := Run(products, init);
      prev.products[p].stock == Wrap(products[p].stock - QuantityOf(init[..Processed(prev)], p))
    requires var prev := Run(products, lines[..|lines| - 1]);
      prev.Running? && !Accepts(prev.products, lines[|lines| - 1])
    ensures var r := Run(products, lines);
      r.products[p].stock == Wrap(products[p].stock - QuantityOf(lines[..Processed(r)], p))
  {
    var n := |lines|;
    var init := lines[..n - 1];
    var prev := Run(products, init);
    assert Run(products, lines) == Failed(prev.products, n - 1);
    assert init[..n - 1] == lines[..n - 1];
  }

  /** `RunStockStep` when the last line is reached and accepted. */
  lemma RunStockAccepted(products: map<ProductId, Product>, lines: seq<OrderItemRequest>, p: ProductId)
    requires p in products && lines != []
    requires var init := lines[..|lines| - 1]; var prev := Run(products, init);
      prev.products[p].stock == Wrap(products[p].stock - QuantityOf(init[..Processed(prev)], p))
    requires var prev := Run(products, lines[..|lines| - 1]);
      prev.Running? && Accepts(prev.products, lines[|lines| - 1])
    ensures var r := Run(products, lines);
      r.products[p].stock == Wrap(products[p].stock - QuantityOf(lines[..Processed(r)], p))
  {
    var n := |lines|;
    var init := lines[..n - 1];
    var prev := Run(products, init);
    var last := lines[n - 1];
    assert Processed(prev) == n - 1 && init[..n - 1] == init;
    assert Run(products, lines).products == Reserve(prev.products, last);
    assert Processed(Run(products, lines)) == n && lines[..n] == lines;
    assert QuantityOf(lines, p) == QuantityOf(init, p) + (if last.productId == p then last.quantity else 0);
    ReserveStock(products, prev.products, last, p, QuantityOf(init, p));
  }

  /** One accepted line's stock write, in the closed form of `RunStock`. */
  lemma ReserveStock(products: map<ProductId, Product>, ps: map<ProductId, Product>, line: OrderItemRequest,
                     p: ProductId, before: int)
    requires p in products && p in ps && line.productId in ps
    requires ps[p].stock == Wrap(products[p].stock - before)
    ensures Reserve(ps, line)[p].stock ==
      Wrap(products[p].stock - (before + if line.productId == p then line.quantity else 0))
  {
    if line.productId == p {
      WrapSub(products[p].stock - before, line.quantity);
    }
  }

  lemma {:induction false} QuantityOfUnnamed(lines: seq<OrderItemRequest>, p: ProductId)
    requires forall i :: 0 <= i < |lines| ==> lines[i].productId != p
    ensures QuantityOf(lines, p) == 0
    decreases |lines|
  {
    if lines != [] {
      QuantityOfUnnamed(lines[..|lines| - 1], p);
    }
  }

  /** A product that no requested line names comes out of placement exactly as it went in. */
  lemma RunLeavesUnnamed(products: map<ProductId, Product>, lines: seq<OrderItemRequest>, p: ProductId)
    requires p in products
    requires forall i :: 0 <= i < |lines| ==> lines[i].productId != p
    ensures Run(products, lines).products[p] == products[p]
  {
    var r := Run(products, lines);
    RunStock(products, lines, p);
    QuantityOfUnnamed(lines[..Processed(r)], p);
  }

  /** With no negative quantity, placement keeps every stock at or above zero,
      and each processed line lowers its product's stock by exactly its quantity,
      whether the run succeeds or stops at a rejected line. */
  lemma {:induction false} RunKeepsStocksNonNegative(products: map<ProductId, Product>, lines: seq<OrderItemRequest>)
    requires StocksNonNegative(products)
    requires forall i :: 0 <= i < |lines| ==> lines[i].quantity >= 0
    ensures var r := Run(products, lines);
      && StocksNonNegative(r.products)
      && forall p :: p in products ==>
           r.products[p].stock == products[p].stock - QuantityOf(lines[..Processed(r)], p)
    decreases |lines|
  {
    if lines == [] {
      assert lines[..0] == [];
    } else {
      var n := |lines|;
      var init := lines[..n - 1];
      var prev := Run(products, init);
      RunKeepsStocksNonNegative(products, init);
      if prev.Failed? {
        assert Run(products, lines) == prev;
        assert init[..prev.at] == lines[..prev.at];
      } else if !Accepts(prev.products, lines[n - 1]) {
        assert Run(products, lines) == Failed(prev.products, n - 1);
        assert init[..n - 1] == lines[..n - 1];
      } else {
        assert init[..n - 1] == init;
        NonNegativeAccepted(products, lines);
        assert lines[..n] == lines;
      }
    }
  }

  /** The accepted-line step of `RunKeepsStocksNonNegative`. */
  lemma NonNegativeAccepted(products: map<ProductId, Product>, lines: seq<OrderItemRequest>)
    requires lines != [] && lines[|lines| - 1].quantity >= 0
    requires var init := lines[..|lines| - 1]; var prev := Run(products, init);
      && prev.Running?
      && Accepts(prev.products, lines[|lines| - 1])
      && StocksNonNegative(prev.products)
      && forall p :: p in products ==> prev.products[p].stock == products[p].stock - QuantityOf(init, p)
    ensures var r := Run(products, lines);
      && Processed(r) == |lines|
      && StocksNonNegative(r.products)
      && forall p :: p in products ==> r.products[p].stock == products[p].stock - QuantityOf(lines, p)
  {
    var n := |lines|;
    var init := lines[..n - 1];
    var prev := Run(products, init);
    var last := lines[n - 1];
    assert Run(products, lines).products == Reserve(prev.products, last);
    var s := prev.products[last.productId].stock;
    assert Sub(s, last.quantity) == s - last.quantity;
    forall p | p in products
      ensures Run(products, lines).products[p].stock == products[p].stock - QuantityOf(lines, p)
    {
      assert QuantityOf(lines, p) == QuantityOf(init, p) + (if last.productId == p then last.quantity else 0);
    }
  }

  /** One accepted line on a non-negative stock leaves the stock non-negative
      exactly when the true difference fits in an int: only a negative quantity
      can push it past the int range, and then it wraps below zero. */
  lemma LineStockNonNegative(stock: int32, quantity: int32)
    requires 0 <= stock && quantity <= stock
    ensures Sub(stock, quantity) >= 0 <==> stock - quantity <= MAX_INT
  {
    if stock - quantity > MAX_INT {
      WrapCongruent(stock - quantity, stock - quantity - MODULUS);
    }
  }

  /** The missing quantity check made concrete: ordering -2^31 units of a product
      with no stock passes the stock test, and the int subtraction leaves the
      stock at -2^31. */
  lemma NegativeQuantityWrapsStock()
    ensures var products := map[1 := Product(1000, 0)];
      var r := Run(products, [OrderItemRequest(1, MIN_INT)]);
      r.Running? && r.products[1].stock == MIN_INT && r.total == 1000 * MIN_INT
  {
    var products := map[1 := Product(1000, 0)];
    var lines := [OrderItemRequest(1, MIN_INT)];
    assert lines[..0] == [];
    assert Wrap(0 - MIN_INT) == MIN_INT by {
      WrapCongruent(0 - MIN_INT, MIN_INT);
    }
  }

  /** What `createOrder` returns and the state it leaves. */
  datatype Placed = Placed(saved: Option<Order>, state: State)

  /** Order placement: unknown user, or a rejected line, gives no order; otherwise
      the order is saved as PENDING under a fresh id with the loop's items and
      total, one event goes to Kafka and then one to RabbitMQ, and the counter
      rises. Stock writes made before a rejected line are kept. */
  function Place(st: State, request: CreateOrderRequest, now: Timestamp): Placed
    requires ValidState(st)
  {
    if request.userId !in st.users then Placed(None, st)
    else match Run(st.products, request.items)
      case Failed(products, _) => Placed(None, st.(products := products))
      case Running(products, items, total) =>
        var order := Order(NextOrderId(st.orders), Some(request.userId), now, total, Pending, Some(items));
        var event := OrderEvent(order.id, request.userId, order.total);
        Placed(Some(order), st.(
          products := products,
          orders := st.orders + [order],
          published := st.published + [Published(Kafka, event), Published(RabbitMQ, event)],
          ordersCreated := st.ordersCreated + 1))
  }

  /** What every placement keeps: ids in step with the identity column, the
      users and the set of products; a failure changes only stocks; a saved
      order has the next id, the user and PENDING, is appended, and is counted. */
  lemma PlaceOutcome(st: State, request: CreateOrderRequest, now: Timestamp)
    requires ValidState(st)
    ensures var r := Place(st, request, now);
      && ValidState(r.state)
      && r.state.users == st.users
      && r.state.products.Keys == st.products.Keys
      && (r.saved.None? ==> r.state == st.(products := r.state.products))
      && (r.saved.Some? ==>
            && r.saved.value.id == NextOrderId(st.orders)
            && r.saved.value.user == Some(request.userId)
            && r.saved.value.status == Pending
            && r.state.orders == st.orders + [r.saved.value]
            && r.state.ordersCreated == st.ordersCreated + 1)
  {
  }

  /** `Place` once the loop has run to the end: the saved order and the state after it. */
  lemma PlaceCompleted(st: State, request: CreateOrderRequest, now: Timestamp,
                       products: map<ProductId, Product>, items: seq<OrderItem>, total: int)
    requires ValidState(st) && request.userId in st.users
    requires Run(st.products, request.items) == Running(products, items, total)
    ensures var order := Order(|st.orders| + 1, Some(request.userId), now, total, Pending, Some(items));
      var event := OrderEvent(order.id, request.userId, order.total);
      Place(st, request, now) == Placed(Some(order), st.(
        products := products,
        orders := st.orders + [order],
        published := st.published + [Published(Kafka, event), Published(RabbitMQ, event)],
        ordersCreated := st.ordersCreated + 1))
  {
  }

  /** An unknown user gets no order, and nothing at all changes. */
  lemma PlaceUnknownUser(st: State, request: CreateOrderRequest, now: Timestamp)
    requires ValidState(st) && request.userId !in st.users
    ensures Place(st, request, now) == Placed(None, st)
  {
  }

  /** Placement fails exactly when the user is unknown or some line is rejected. */
  lemma PlaceFailsIff(st: State, request: CreateOrderRequest, now: Timestamp)
    requires ValidState(st)
    ensures Place(st, request, now).saved.None? <==>
      request.userId !in st.users ||
      exists k :: 0 <= k < |request.items| && Run(st.products, request.items[..k]).Running? &&
        !Accepts(Run(st.products, request.items[..k]).products, request.items[k])
  {
    var r := Run(st.products, request.items);
    if r.Failed? {
      RunFailedAt(st.products, request.items);
    } else {
      RunItems(st.products, request.items);
    }
  }

  /** When a line k is rejected for a known user: no order is saved, no event is
      sent, the counter is unchanged, and the products are as lines 0..k-1 left
      them (their stock writes persist; later lines are never applied). */
  lemma PlaceRejected(st: State, request: CreateOrderRequest, now: Timestamp, k: nat)
    requires ValidState(st) && request.userId in st.users
    requires k < |request.items| && Run(st.products, request.items[..k]).Running?
    requires !Accepts(Run(st.products, request.items[..k]).products, request.items[k])
    ensures Place(st, request, now) ==
      Placed(None, st.(products := Run(st.products, request.items[..k]).products))
  {
    RunRejectsLine(st.products, request.items, k);
  }

  /** A successful placement: the new order is PENDING, belongs to the user, has a
      fresh id, one item per line carrying the line's product and quantity and
      the product's price when placement began, and a total equal to the sum of
      price times quantity. It is appended to the orders; exactly one event with
      its id, user and total goes to Kafka and then one to RabbitMQ; the counter
      rises by one; the users are unchanged. */
  lemma PlaceSucceeds(st: State, request: CreateOrderRequest, now: Timestamp)
    requires ValidState(st)
    requires Place(st, request, now).saved.Some?
    ensures var o := Place(st, request, now).saved.value;
      var st' := Place(st, request, now).state;
      && request.userId in st.users
      && o.user == Some(request.userId) && o.status == Pending && o.orderDate == now
      && (forall i :: 0 <= i < |st.orders| ==> st.orders[i].id != o.id)
      && o.items.Some? && |o.items.value| == |request.items|
      && (forall i :: 0 <= i < |request.items| ==>
            request.items[i].productId in st.products &&
            o.items.value[i] == OrderItem(Some(request.items[i].productId), request.items[i].quantity,
                                          st.products[request.items[i].productId].price))
      && o.total == Sum(o.items.value)
      && st'.orders == st.orders + [o]
      && st'.published == st.published + [Published(Kafka, OrderEvent(o.id, request.userId, o.total)),
                                           Published(RabbitMQ, OrderEvent(o.id, request.userId, o.total))]
      && st'.ordersCreated == st.ordersCreated + 1
      && st'.users == st.users
  {
    RunItems(st.products, request.items);
  }

  /** With no negative quantity in the request, every stock that was non-negative
      stays non-negative, whether placement succeeds or fails. */
  lemma PlaceKeepsStocksNonNegative(st: State, request: CreateOrderRequest, now: Timestamp)
    requires ValidState(st) && StocksNonNegative(st.products)
    requires forall i :: 0 <= i < |request.items| ==> request.items[i].quantity >= 0
    ensures StocksNonNegative(Place(st, request, now).state.products)
  {
    RunKeepsStocksNonNegative(st.products, request.items);
  }
}
