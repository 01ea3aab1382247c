/** The older `com.mycompany.OrderController`: it talks to the repositories
    itself, places orders with its own copy of the placement loop, and answers
    with HTTP statuses (200, 201, 400, 404). */
module LegacyOrderController {
  import opened JavaInt
  import opened Domain
  import opened Repositories
  import opened Placement
  import OrderService

  /** `GET /api/orders`: every stored order, in stored order. */
  function GetAllOrders(store: Store): (r: seq<Order>)
    reads store
    ensures forall o :: o in r <==> o in store.orders
    ensures |r| == |store.orders|
  {
    store.orders
  }

  /** `GET /api/orders/{id}`: 200 with the order that has the id, 404 with no body when there is none. */
  function GetOrderById(store: Store, id: OrderId): (r: ResponseEntity<Order>)
    reads store
    ensures r.status == OK || r.status == NOT_FOUND
    ensures r.status == NOT_FOUND <==> forall o :: o in store.orders ==> o.id != id
    ensures r.status == OK ==> r.body.Some? && r.body.value in store.orders && r.body.value.id == id
    ensures r.status == NOT_FOUND ==> r.body.None?
  {
    match FindById(store.orders, id)
    case Some(order) => ResponseEntity(OK, Some(order))
    case None => ResponseEntity(NOT_FOUND, None)
  }

  /** `GET /api/orders/user/{userId}`: 404 for an unknown user, otherwise 200 with exactly the user's orders, each once, in id order. */
  function GetOrdersByUser(store: Store, user: UserId): (r: ResponseEntity<seq<Order>>)
    reads store
    ensures r.status == OK || r.status == NOT_FOUND
    ensures r.status == NOT_FOUND <==> user !in store.users
    ensures r.status == NOT_FOUND ==> r.body.None?
    ensures r.status == OK ==>
      r.body.Some? && forall o :: o in r.body.value <==> o in store.orders && o.user == Some(user)
    ensures store.Valid() && r.body.Some? ==> IdsIncreasing(r.body.value)
  {
    FindByUserInIdOrder(store.orders, user);
    if user in store.users then ResponseEntity(OK, Some(FindByUser(store.orders, user)))
    else ResponseEntity(NOT_FOUND, None)
  }

  /** `POST /api/orders`: the inline placement loop. 400 when the user is
      unknown or a line is rejected (stock already written for earlier lines
      stays written); otherwise the order is saved, announced on Kafka and then
      RabbitMQ, counted, and returned with 201. The new state is `Place`'s. */
  method CreateOrder(store: Store, request: CreateOrderRequest, now: Timestamp) returns (response: ResponseEntity<Order>)
    requires store.Valid()
    modifies store
    ensures store.Valid()
    ensures response.status == BAD_REQUEST <==> Place(old(store.Snapshot()), request, now).saved.None?
    ensures response.status == BAD_REQUEST || response.status == CREATED
    ensures response.body == Place(old(store.Snapshot()), request, now).saved
    ensures store.Snapshot() == Place(old(store.Snapshot()), request, now).state
  {
    ghost var st := store.Snapshot();
    if request.userId !in store.users {
      PlaceUnknownUser(st, request, now);
      return ResponseEntity(BAD_REQUEST, None);
    }
    var user := request.userId;
    var ok, items, total := ProcessItems(store, request.items);
    if !ok {
      assert Place(st, request, now) == Placed(None, store.Snapshot());
      return ResponseEntity(BAD_REQUEST, None);
    }
    PlaceCompleted(st, request, now, store.products, items, total);
    var savedOrder := Order(|store.orders| + 1, Some(user), now, total, Pending, Some(items));
    store.orders := store.orders + [savedOrder];
    var event := OrderEvent(savedOrder.id, user, savedOrder.total);
    store.published := store.published + [Published(Kafka, event)];
    store.published := store.published + [Published(RabbitMQ, event)];
    store.ordersCreated := store.ordersCreated + 1;
    response := ResponseEntity(CREATED, Some(savedOrder));
    assert Place(st, request, now) == Placed(Some(savedOrder), store.Snapshot());
  }

  /** The controller's own copy of the loop over the request lines ("process
      each item in the order"): each accepted line is priced and its product's
      stock written back at once; the first rejected line (unknown product, or
      stock below the quantity) ends the loop with `ok` false, and the stock
      written for earlier lines stays written. Only the products change, as
      `Run` says. */
  method ProcessItems(store: Store, lines: seq<OrderItemRequest>) returns (ok: bool, items: seq<OrderItem>, total: int)
    modifies store
    ensures ok <==> Run(old(store.products), lines).Running?
    ensures ok ==> Run(old(store.products), lines) == Running(store.products, items, total)
    ensures !ok ==> store.products == Run(old(store.products), lines).products
    ensures store.Snapshot() == old(store.Snapshot()).(products := store.products)
  {
    ghost var initial := store.products;
    ghost var others := store.Snapshot();
    total := 0;
    items := [];
    for i := 0 to |lines|
      invariant Run(initial, lines[..i]) == Running(store.products, items, total)
      invariant store.Snapshot() == others.(products := store.products)
    {
      var itemRequest := lines[i];
      if itemRequest.productId !in store.products {
        RunRejectsLine(initial, lines, i);
        return false, items, total;
      }
      var product := store.products[itemRequest.productId];
      if product.stock < itemRequest.quantity {
        RunRejectsLine(initial, lines, i);
        return false, items, total;
      }
      RunAcceptsWritten(initial, lines, i, store.products, items, total);
      var itemTotal := product.price * itemRequest.quantity;
      total := total + itemTotal;
      items := items + [OrderItem(Some(itemRequest.productId), itemRequest.quantity, product.price)];
      product := product.(stock := Sub(product.stock, itemRequest.quantity));
      store.products := store.products[itemRequest.productId := product];
    }
    assert lines[..|lines|] == lines;
    ok := true;
  }

  /** `PUT /api/orders/{id}/status`: 404 and no change for an unknown id;
      otherwise the status is overwritten, whatever it was, and the order comes back with 200. */
  method UpdateOrderStatus(store: Store, id: OrderId, status: OrderStatus) returns (response: ResponseEntity<Order>)
    requires store.Valid()
    modifies store
    ensures store.Valid()
    ensures response.status == OK || response.status == NOT_FOUND
    ensures StatusUpdate(response.body, store.orders) == UpdateStatus(old(store.orders), id, status)
    ensures response.status == NOT_FOUND <==> forall o :: o in old(store.orders) ==> o.id != id
    ensures store.Snapshot() == old(store.Snapshot()).(orders := store.orders)
  {
    var k := IndexOf(store.orders, id);
    if k.None? {
      return ResponseEntity(NOT_FOUND, None);
    }
    var order := store.orders[k.value];
    order := order.(status := status);
    store.orders := store.orders[k.value := order];
    response := ResponseEntity(OK, Some(order));
  }

  /** The controller and the service place orders alike: started on two stores
      in the same state, the controller answers 400 exactly when the service
      saves nothing, returns the order the service saves, and both stores end in
      the same state. */
  method AgreesWithService(legacy: Store, service: Store, request: CreateOrderRequest, now: Timestamp)
    returns (response: ResponseEntity<Order>, saved: Option<Order>)
    requires legacy != service
    requires legacy.Valid() && legacy.Snapshot() == service.Snapshot()
    modifies legacy, service
    ensures response.status == BAD_REQUEST <==> saved.None?
    ensures response.status == CREATED <==> saved.Some?
    ensures response.body == saved
    ensures legacy.Snapshot() == service.Snapshot()
  {
    response := CreateOrder(legacy, request, now);
    saved := OrderService.CreateOrder(service, request, now);
  }
}
