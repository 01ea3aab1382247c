/** `controller/OrderController`: the service-backed REST endpoints. They hold no
    state of their own; each maps what the service returns to an HTTP status and
    an `OrderResponse` body. */
module OrderController {
  import opened JavaInt
  import opened Domain
  import opened Repositories
  import opened Placement
  import OrderService

  /** One line of the response; `productId` is null when the item has no product. */
  datatype OrderItemResponse = OrderItemResponse(productId: Option<ProductId>, quantity: int32, price: int)

  /** The order as the API shows it; `userId` is null when the order has no user. */
  datatype OrderResponse = OrderResponse(
    id: OrderId,
    userId: Option<UserId>,
    total: int,
    status: OrderStatus,
    orderDate: Timestamp,
    items: seq<OrderItemResponse>)

  /** The stream `map` over the order's items: one response per item, in order,
      with the product's id (or null), the quantity and the price. */
  function ToItemResponses(items: seq<OrderItem>): (r: seq<OrderItemResponse>)
    ensures |r| == |items|
    ensures forall i :: 0 <= i < |items| ==>
      && (r[i].productId.None? <==> items[i].product.None?)
      && (items[i].product.Some? ==> r[i].productId == Some(items[i].product.value))
      && r[i].quantity == items[i].quantity
      && r[i].price == items[i].price
  {
    if items == [] then []
    else
      var last := items[|items| - 1];
      ToItemResponses(items[..|items| - 1]) + [OrderItemResponse(last.product, last.quantity, last.price)]
  }

  /** `toOrderResponse`: a null user gives a null `userId`, a null item list an
      empty one; the id, total, status and date are copied. */
  function ToOrderResponse(order: Order): (r: OrderResponse)
    ensures r.id == order.id && r.total == order.total
    ensures r.status == order.status && r.orderDate == order.orderDate
    ensures r.userId.None? <==> order.user.None?
    ensures order.user.Some? ==> r.userId == Some(order.user.value)
    ensures order.items.None? ==> r.items == []
    ensures order.items.Some? ==> r.items == ToItemResponses(order.items.value)
  {
    var userId := match order.user case None => None case Some(u) => Some(u);
    var items := match order.items case None => [] case Some(list) => ToItemResponses(list);
    OrderResponse(order.id, userId, order.total, order.status, order.orderDate, items)
  }

  /** The stream `map(this::toOrderResponse)` over a list of orders. */
  function ToOrderResponses(orders: seq<Order>): (r: seq<OrderResponse>)
    ensures |r| == |orders|
    ensures forall i :: 0 <= i < |orders| ==> r[i] == ToOrderResponse(orders[i])
  {
    if orders == [] then []
    else [ToOrderResponse(orders[0])] + ToOrderResponses(orders[1..])
  }

  /** `Optional.map(ok).orElseGet(notFound)` for one order. */
  function OrderOrNotFound(found: Option<Order>): (r: ResponseEntity<OrderResponse>)
    ensures r.status == NOT_FOUND <==> found.None?
    ensures r.status == NOT_FOUND ==> r.body.None?
    ensures found.Some? ==> r.status == OK && r.body == Some(ToOrderResponse(found.value))
  {
    match found
    case Some(order) => ResponseEntity(OK, Some(ToOrderResponse(order)))
    case None => ResponseEntity(NOT_FOUND, None)
  }

  /** `Optional.map(ok).orElseGet(notFound)` for a list of orders. */
  function OrdersOrNotFound(found: Option<seq<Order>>): (r: ResponseEntity<seq<OrderResponse>>)
    ensures r.status == NOT_FOUND <==> found.None?
    ensures r.status == NOT_FOUND ==> r.body.None?
    ensures found.Some? ==> r.status == OK && r.body == Some(ToOrderResponses(found.value))
  {
    match found
    case Some(orders) => ResponseEntity(OK, Some(ToOrderResponses(orders)))
    case None => ResponseEntity(NOT_FOUND, None)
  }

  /** The answer to `POST /api/orders`: 400 with no body when nothing was saved, otherwise 201. */
  function CreatedOrBadRequest(saved: Option<Order>): (r: ResponseEntity<OrderResponse>)
    ensures r.status == BAD_REQUEST <==> saved.None?
    ensures r.status == BAD_REQUEST ==> r.body.None?
    ensures saved.Some? ==> r.status == CREATED && r.body == Some(ToOrderResponse(saved.value))
  {
    if saved.None? then ResponseEntity(BAD_REQUEST, None)
    else ResponseEntity(CREATED, Some(ToOrderResponse(saved.value)))
  }

  /** `GET /api/orders`: every stored order, mapped, in id order. */
  function GetAllOrders(store: Store): (r: seq<OrderResponse>)
    reads store
    requires store.Valid()
    ensures |r| == |store.orders|
    ensures forall i :: 0 <= i < |r| ==> r[i].id == i + 1 && r[i] == ToOrderResponse(store.orders[i])
  {
    ToOrderResponses(OrderService.GetAllOrders(store))
  }

  /** `GET /api/orders/{id}`: 200 with the mapped order, or 404 when no order has the id. */
  function GetOrderById(store: Store, id: OrderId): (r: ResponseEntity<OrderResponse>)
    reads store
    ensures r.status == OK || r.status == NOT_FOUND
    ensures r.status == NOT_FOUND <==> forall o :: o in store.orders ==> o.id != id
    ensures r.status == NOT_FOUND ==> r.body.None?
    ensures r.status == OK ==>
      r.body.Some? && r.body.value.id == id &&
      exists o :: o in store.orders && o.id == id && r.body.value == ToOrderResponse(o)
    ensures store.Valid() ==> (r.status == OK <==> 1 <= id <= |store.orders|)
    ensures store.Valid() && r.status == OK ==> r.body == Some(ToOrderResponse(store.orders[id - 1]))
  {
    OrderOrNotFound(OrderService.GetOrderById(store, id))
  }

  /** `GET /api/orders/user/{userId}`: 404 for an unknown user, otherwise 200
      with a response for each of the user's orders and for nothing else, each
      once, in id order. */
  function GetOrdersByUser(store: Store, user: UserId): (r: ResponseEntity<seq<OrderResponse>>)
    reads store
    ensures r.status == NOT_FOUND <==> user !in store.users
    ensures r.status == NOT_FOUND ==> r.body.None?
    ensures r.status != NOT_FOUND ==> r.status == OK && r.body.Some?
    ensures r.body.Some? ==>
      forall o :: o in store.orders && o.user == Some(user) ==> ToOrderResponse(o) in r.body.value
    ensures r.body.Some? ==>
      forall resp :: resp in r.body.value ==>
        exists o :: o in store.orders && o.user == Some(user) && resp == ToOrderResponse(o)
    ensures store.Valid() && r.body.Some? ==>
      forall i, j :: 0 <= i < j < |r.body.value| ==> r.body.value[i].id < r.body.value[j].id
  {
    var found := OrderService.GetOrdersByUser(store, user);
    var r := OrdersOrNotFound(found);
    if found.Some? then
      MapMembers(found.value);
      r
    else r
  }

  /** Membership carries over the mapping in both directions. */
  lemma {:induction false} MapMembers(orders: seq<Order>)
    ensures forall o :: o in orders ==> ToOrderResponse(o) in ToOrderResponses(orders)
    ensures forall resp :: resp in ToOrderResponses(orders) ==> exists o :: o in orders && resp == ToOrderResponse(o)
  {
    var r := ToOrderResponses(orders);
    forall o | o in orders
      ensures ToOrderResponse(o) in r
    {
      var i :| 0 <= i < |orders| && orders[i] == o;
      assert r[i] == ToOrderResponse(o);
    }
    forall resp | resp in r
      ensures exists o :: o in orders && resp == ToOrderResponse(o)
    {
      var i :| 0 <= i < |r| && r[i] == resp;
      assert orders[i] in orders;
    }
  }

  /** `POST /api/orders`: delegate to the service, then answer 400 or 201. */
  method CreateOrder(store: Store, request: CreateOrderRequest, now: Timestamp) returns (response: ResponseEntity<OrderResponse>)
    requires store.Valid()
    modifies store
    ensures store.Valid()
    ensures store.Snapshot() == Place(old(store.Snapshot()), request, now).state
    ensures response == CreatedOrBadRequest(Place(old(store.Snapshot()), request, now).saved)
  {
    var saved := OrderService.CreateOrder(store, request, now);
    response := CreatedOrBadRequest(saved);
  }

  /** `PUT /api/orders/{id}/status`: delegate to the service, then answer 200 or 404. */
  method UpdateOrderStatus(store: Store, id: OrderId, status: OrderStatus) returns (response: ResponseEntity<OrderResponse>)
    requires store.Valid()
    modifies store
    ensures store.Valid()
    ensures response == OrderOrNotFound(UpdateStatus(old(store.orders), id, status).updated)
    ensures store.orders == UpdateStatus(old(store.orders), id, status).orders
    ensures store.Snapshot() == old(store.Snapshot()).(orders := store.orders)
  {
    var updated := OrderService.UpdateOrderStatus(store, id, status);
    response := OrderOrNotFound(updated);
  }

  /** Sum of `price * quantity` over response lines, in order. */
  function ResponseSum(items: seq<OrderItemResponse>): int {
    if items == [] then 0
    else ResponseSum(items[..|items| - 1]) + items[|items| - 1].price * items[|items| - 1].quantity
  }

  /** Mapping items to responses keeps the sum of `price * quantity`. */
  lemma {:induction false} ResponseSumOfItems(items: seq<OrderItem>)
    ensures ResponseSum(ToItemResponses(items)) == Sum(items)
  {
    if items != [] {
      var init := items[..|items| - 1];
      ResponseSumOfItems(init);
      assert ToItemResponses(items)[..|items| - 1] == ToItemResponses(init);
    }
  }

  /** A 201 answer to `POST /api/orders` carries a PENDING order of the
      requesting user, one line per request line at the price the product had,
      and a total that is the sum of those lines' `price * quantity`. */
  lemma CreatedResponseConsistent(st: State, request: CreateOrderRequest, now: Timestamp)
    requires ValidState(st)
    requires Place(st, request, now).saved.Some?
    ensures var r := CreatedOrBadRequest(Place(st, request, now).saved);
      && r.status == CREATED && r.body.Some?
      && r.body.value.userId == Some(request.userId)
      && r.body.value.status == Pending
      && |r.body.value.items| == |request.items|
      && (forall i :: 0 <= i < |request.items| ==>
            request.items[i].productId in st.products &&
            r.body.value.items[i] == OrderItemResponse(Some(request.items[i].productId), request.items[i].quantity,
                                                       st.products[request.items[i].productId].price))
      && r.body.value.total == ResponseSum(r.body.value.items)
  {
    var o := Place(st, request, now).saved.value;
    PlaceSucceeds(st, request, now);
    ResponseSumOfItems(o.items.value);
  }
}
