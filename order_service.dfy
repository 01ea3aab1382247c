/** `OrderServiceImpl`: order placement, status update and the order queries,
    over the in-memory store. */
module OrderService {
  import opened JavaInt
  import opened Domain
  import opened Repositories
  import opened Placement

  /** `getAllOrders`: every stored order, each once, in id order. */
  function GetAllOrders(store: Store): (r: seq<Order>)
    reads store
    requires store.Valid()
    ensures |r| == |store.orders|
    ensures forall i :: 0 <= i < |r| ==> r[i].id == i + 1 && r[i] in store.orders
  {
    store.orders
  }

  /** `getOrderById`: the stored order with that id, empty exactly when there is
      none; in a store built by the modelled operations, the order at position `id - 1`. */
  function GetOrderById(store: Store, id: OrderId): (r: Option<Order>)
    reads store
    ensures r.None? <==> forall o :: o in store.orders ==> o.id != id
    ensures r.Some? ==> r.value in store.orders && r.value.id == id
    ensures store.Valid() ==> (r.Some? <==> 1 <= id <= |store.orders|)
    ensures store.Valid() && r.Some? ==> r.value == store.orders[id - 1]
  {
    FindByIdValid(store.orders, id);
    FindById(store.orders, id)
  }

  /** `getOrdersByUser`: empty for an unknown user, otherwise exactly the user's
      orders, each once, in id order. */
  function GetOrdersByUser(store: Store, user: UserId): (r: Option<seq<Order>>)
    reads store
    ensures r.None? <==> user !in store.users
    ensures r.Some? ==> forall o :: o in r.value <==> o in store.orders && o.user == Some(user)
    ensures store.Valid() && r.Some? ==> IdsIncreasing(r.value)
  {
    FindByUserInIdOrder(store.orders, user);
    if user !in store.users then None else Some(FindByUser(store.orders, user))
  }

  /** `createOrder`: resolve the user, then walk the lines in order, writing each
      product's new stock as soon as its line passes; save the order, send the
      event to Kafka and then to RabbitMQ, and count it. The outcome is exactly
      `Place`, whose lemmas say what it guarantees. */
  method CreateOrder(store: Store, request: CreateOrderRequest, now: Timestamp) returns (saved: Option<Order>)
    requires store.Valid()
    modifies store
    ensures store.Valid()
    ensures Placed(saved, store.Snapshot()) == Place(old(store.Snapshot()), request, now)
  {
    ghost var st := store.Snapshot();
    if request.userId !in store.users {
      PlaceUnknownUser(st, request, now);
      return None;
    }
    var user := request.userId;
    var ok, items, total := ProcessItems(store, request.items);
    if !ok {
      assert Place(st, request, now) == Placed(None, store.Snapshot());
      return None;
    }
    PlaceCompleted(st, request, now, store.products, items, total);
    var order := Order(|store.orders| + 1, Some(user), now, total, Pending, Some(items));
    store.orders := store.orders + [order];
    store.published := store.published + [Published(Kafka, OrderEvent(order.id, user, order.total))];
    store.published := store.published + [Published(RabbitMQ, OrderEvent(order.id, user, order.total))];
    store.ordersCreated := store.ordersCreated + 1;
    saved := Some(order);
    assert Place(st, request, now) == Placed(saved, store.Snapshot());
  }

  /** The loop of `createOrder` over the request lines: each accepted line is
      priced and its product's stock written back at once; the first rejected
      line (unknown product, or stock below the quantity) ends the loop with
      `ok` false, and the stock written for earlier lines stays written. Only
      the products change, as `Run` says. */
  method ProcessItems(store: Store, lines: seq<OrderItemRequest>) returns (ok: bool, items: seq<OrderItem>, total: int)
    modifies store
    ensures ok <==> Run(old(store.products), lines).Running?
    ensures ok ==> Run(old(store.products), lines) == Running(store.products, items, total)
    ensures !ok ==> store.products == Run(old(store.products), lines).products
    ensures store.Snapshot() == old(store.Snapshot()).(products := store.products)
  {
    ghost var initial := store.products;
    ghost var others := store.Snapshot();
    total := 0;
    items := [];
    for i := 0 to |lines|
      invariant Run(initial, lines[..i]) == Running(store.products, items, total)
      invariant store.Snapshot() == others.(products := store.products)
    {
      var line := lines[i];
      if line.productId !in store.products {
        RunRejectsLine(initial, lines, i);
        return false, items, total;
      }
      var product := store.products[line.productId];
      if product.stock < line.quantity {
        RunRejectsLine(initial, lines, i);
        return false, items, total;
      }
      RunAcceptsWritten(initial, lines, i, store.products, items, total);
      total := total + product.price * line.quantity;
      items := items + [OrderItem(Some(line.productId), line.quantity, product.price)];
      store.products := store.products[line.productId := product.(stock := Sub(product.stock, line.quantity))];
    }
    assert lines[..|lines|] == lines;
    ok := true;
  }

  /** `updateOrderStatus`: empty and no change for an unknown id; otherwise the
      order's status becomes `status` whatever it was, and nothing else changes. */
  method UpdateOrderStatus(store: Store, id: OrderId, status: OrderStatus) returns (updated: Option<Order>)
    requires store.Valid()
    modifies store
    ensures store.Valid()
    ensures StatusUpdate(updated, store.orders) == UpdateStatus(old(store.orders), id, status)
    ensures store.Snapshot() == old(store.Snapshot()).(orders := store.orders)
  {
    var k := IndexOf(store.orders, id);
    if k.None? {
      return None;
    }
    var order := store.orders[k.value];
    order := order.(status := status);
    store.orders := store.orders[k.value := order];
    updated := Some(order);
  }
}
