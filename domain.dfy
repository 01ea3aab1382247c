/** The entities of the order service, as values. Money is held in integer
    minor units (the source's `BigDecimal` columns have scale 2), so a price or a
    total of 10.00 is the integer 1000. */
module Domain {
  import opened JavaInt

  datatype Option<+T> = None | Some(value: T)

  /** Database identities (Java `Long`). */
  type UserId = int
  type ProductId = int
  type OrderId = int

  /** `LocalDateTime` values are opaque to the model: they are only stored and copied. */
  type Timestamp = int

  datatype OrderStatus = Pending | Confirmed | Shipped | Delivered | Cancelled

  /** A product row as the order workflow sees it; name and description are not used. */
  datatype Product = Product(price: int, stock: int32)

  /** One line of an order: the product it references (a nullable reference in
      the entity), the quantity, and the unit price captured at purchase time. */
  datatype OrderItem = OrderItem(product: Option<ProductId>, quantity: int32, price: int)

  /** An order entity. The user and the item list are nullable references in
      the source entity, hence `Option`. */
  datatype Order = Order(
    id: OrderId,
    user: Option<UserId>,
    orderDate: Timestamp,
    total: int,
    status: OrderStatus,
    items: Option<seq<OrderItem>>)

  /** The body of a create-order request: who orders, and the requested lines in order. */
  datatype OrderItemRequest = OrderItemRequest(productId: ProductId, quantity: int32)
  datatype CreateOrderRequest = CreateOrderRequest(userId: UserId, items: seq<OrderItemRequest>)

  /** The core fields of an "order created" event; the total stays a number here,
      its decimal string form is not modelled. */
  datatype OrderEvent = OrderEvent(orderId: OrderId, userId: UserId, total: int)

  /** The two brokers every event is sent to. */
  datatype Channel = Kafka | RabbitMQ

  /** One send of one event on one channel. */
  datatype Published = Published(channel: Channel, event: OrderEvent)

  /** The HTTP answer of a controller method: a status code and an optional body. */
  datatype ResponseEntity<T> = ResponseEntity(status: int, body: Option<T>)

  const OK: int := 200
  const CREATED: int := 201
  const BAD_REQUEST: int := 400
  const NOT_FOUND: int := 404
}
