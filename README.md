# Order service — a verified model of order placement, stock and the order API

This project models the order workflow of a Spring Boot shop backend:
- **Placing an order.** The service `OrderServiceImpl.createOrder` resolves the user and walks the requested lines in order. For each line it:
  - looks up the product and rejects the order if the product is missing or short of stock;
  - adds `price × quantity` to a running total;
  - records an order line at the product's current price;
  - writes the product's reduced stock at once.

  It then saves the order as PENDING, sends one "order created" event to Kafka and then one to RabbitMQ, and increments a counter.
- **Stock changes.** `InventoryServiceImpl.adjustStock` adds a delta to a stock and `setStock` overwrites it. Both refuse to produce a negative stock.
- **Status updates and queries.** These cover updating an order's status, and finding all orders, an order by id, and a user's orders.
- **The older controller.** `com.mycompany.OrderController` works against the repositories directly, answering 201, 200, 400 or 404. It offers placement, with its own inline copy of the loop above (the only place where it writes stocks), a status update, and the three order queries (all orders, an order by id, a user's orders). It has no stock-change endpoint.
- **The service-backed controller.** `controller/OrderController` delegates to the service and maps each result to a status code and an `OrderResponse`.

## How the model is laid out

- `java_int.dfy` (`JavaInt`): Java `int` arithmetic, with explicit two's-complement wrap-around. Stock, quantity and delta are Java `int`s in the source.
- `domain.dfy` (`Domain`): the entities as values.
  - Money is an integer count of minor units, because the `BigDecimal` columns have scale 2.
  - Nullable references (an order's user, its item list, an item's product) are `Option`.
- `repositories.dfy` (`Repositories`): the data that the repositories, brokers and counter hold.
  - `Store` is a class whose fields the services update in place: users, products, orders, the event log and the orders-created counter.
  - `State` is its value snapshot.
  - The repository queries are functions over the stored orders.
  - Orders are kept in identity order, with `orders[i].id == i + 1`, so the next id is `|orders| + 1`.
  - Both brokers append to one log of `Published(channel, event)` records, so the Kafka-then-RabbitMQ order can be seen.
- `placement.dfy` (`Placement`): a pure reference definition of order placement.
  - `Run` is the loop over the lines as a function of a prefix of the request.
  - `Place` is the whole operation on a `State`.
  - The lemmas give the exact failure cases, the per-line effects, the total, the stocks and the saved order.
- `order_service.dfy` (`OrderService`): the service.
  - `CreateOrder` is a method; the source's loop over the lines is the method `ProcessItems`, proved to walk the lines exactly as `Run` does, and `CreateOrder` is proved to reach exactly the outcome and state that `Place` gives.
  - `UpdateOrderStatus` is proved against `UpdateStatus`.
- `inventory_service.dfy` (`InventoryService`): `Adjust` and `Overwrite` as functions, and the store methods proved against them.
- `legacy_order_controller.dfy` (`LegacyOrderController`): the older controller, with its own copy of the placement loop, proved against the same `Place`.
- `order_controller.dfy` (`OrderController`): the response mapping and the status-code mapping of the service-backed controller.

Behaviour of the code that the model keeps, although an order service would usually be expected to do otherwise:
- **No quantity check.** Neither placement loop checks that a requested quantity is positive. On a stock of at least `q`, which includes every stock ≥ 0, a negative quantity `q` passes the `stock < quantity` test and raises the stock by `-q`; a stock below `q` still rejects the line. When `stock - q` exceeds `2^31-1`, the stock wraps below zero. For example, from a stock of 0 a quantity of `-2^31` leaves `-2^31`; see `Placement.NegativeQuantityWrapsStock` and, for the exact condition, `Placement.LineStockNonNegative`.
- **No atomicity.** The code writes each line's stock as soon as the line passes. When a later line is rejected, the earlier writes stay, and `Placement.PlaceRejected` states exactly which ones.
- **Fixed channel order.** The code sends to Kafka and then to RabbitMQ, one after the other, and the model keeps that order.
- **A failed Kafka send is not modelled.** If the Kafka send (`KafkaProducerService.java:38`) throws, the RabbitMQ send and the counter increment are skipped, but the order stays saved. In the model both sends always succeed. Likewise, if the RabbitMQ send (`convertAndSend`, src/main/java/com/mycompany/RabbitMQProducerService.java:44) throws, the counter increment is skipped, while the order stays saved and the Kafka event stays sent.

Clocks, the brokers and the database are outside the model:
- The order date is a parameter (`now`) of the placement operations.
- An event is a record appended to the log.
- The repositories are the `Store` fields.

## Model

| member | source | states |
|---|---|---|
| JavaInt.Wrap | src/main/java/com/mycompany/service/impl/InventoryServiceImpl.java:23 | the Java `int` value of an integer: always in the int range, and unchanged when the integer already fits |
| JavaInt.WrapSub | src/main/java/com/mycompany/service/impl/OrderServiceImpl.java:101 | wrapping after each subtraction gives the same stock as wrapping once at the end, so repeated stock writes compose |
| JavaInt.AddNonNegative | src/main/java/com/mycompany/service/impl/InventoryServiceImpl.java:23-24 | for a stock ≥ 0, `stock + delta` in Java is ≥ 0 exactly when the true sum is in 0..2^31-1, and then it equals the true sum, so an overflow is always refused |
| JavaInt.AddNegCancels | src/main/java/com/mycompany/service/impl/InventoryServiceImpl.java:23 | Java `(s + d) + (-d)` gives back `s` for every pair of ints, including `d == -2^31` |
| Repositories.NextOrderId | src/main/java/com/mycompany/Order.java:22-23 | the identity column's next id is larger than every stored id, and saving an order under it keeps ids in step with positions |
| Repositories.IndexOf | src/main/java/com/mycompany/service/impl/OrderServiceImpl.java:127 | the position of the first order with the id, or none exactly when no order has it |
| Repositories.FindById | src/main/java/com/mycompany/service/impl/OrderServiceImpl.java:49-52 | a found order is stored and has the id; the result is empty exactly when no stored order has the id |
| Repositories.FindByIdValid | src/main/java/com/mycompany/service/impl/OrderServiceImpl.java:49-52 | when ids are in step with positions, the order with id `id` is the one at position `id - 1`, and there is none outside 1..count |
| Repositories.FindByUser | src/main/java/com/mycompany/repository/OrderRepository.java:19 | an order is in the result exactly when it is stored and belongs to the user |
| Repositories.FindByUserIncreasing | src/main/java/com/mycompany/repository/OrderRepository.java:19 | over orders in id order, the user's orders come out each once, still in id order |
| Repositories.FindByUserInIdOrder | src/main/java/com/mycompany/repository/OrderRepository.java:19 | with ids in step with positions, the user's orders come out each once, in id order |
| Repositories.UpdateStatus | src/main/java/com/mycompany/service/impl/OrderServiceImpl.java:125-134 | empty and no change exactly when no order has the id; otherwise the found order with the new status, whatever the old one was; only that order's status changes; ids stay valid |
| Repositories.Store.constructor | src/main/java/com/mycompany/service/impl/OrderServiceImpl.java:29-42 | a store with the given users and products, no orders, no events and a zero counter, satisfying the id invariant |
| Placement.Accepts | src/main/java/com/mycompany/service/impl/OrderServiceImpl.java:79-88 | a line passes exactly when its product exists and that product's stock is not below the quantity; the sign of the quantity is not checked |
| Placement.LineItem | src/main/java/com/mycompany/service/impl/OrderServiceImpl.java:93-97 | the item recorded for a line: its product, its quantity and the product's price at that moment |
| Placement.ReserveEffect | src/main/java/com/mycompany/service/impl/OrderServiceImpl.java:101-102 | `Reserve`, a line's stock write, changes only that product's stock, to `stock - quantity` in Java int arithmetic; for an accepted line with a non-negative quantity on a non-negative stock, the stock drops by exactly the quantity and stays non-negative |
| Placement.Run | src/main/java/com/mycompany/service/impl/OrderServiceImpl.java:76-103 | the loop keeps the set of products and every price; a completed loop has one item per line and a total equal to the sum of the items' `price * quantity`; a stopped loop stopped at an actual line |
| Placement.RunAcceptsNext | src/main/java/com/mycompany/service/impl/OrderServiceImpl.java:90-102 | an accepted line adds its `price × quantity` to the total, appends its item with the current price and writes its stock minus the quantity |
| Placement.RunAcceptsWritten | src/main/java/com/mycompany/service/impl/OrderServiceImpl.java:90-102 | the same step in the loop's own terms: the item copies the price, the total grows by `price * quantity`, the stock becomes `stock - quantity` with Java int wrap-around |
| Placement.RunStopsAtFailure | src/main/java/com/mycompany/service/impl/OrderServiceImpl.java:80-88 | once a line is rejected, later lines change nothing |
| Placement.RunRejectsLine | src/main/java/com/mycompany/service/impl/OrderServiceImpl.java:79-88 | a reached line whose product is missing or short of stock stops the loop there, with the products as the earlier lines left them |
| Placement.RunFailedAt | src/main/java/com/mycompany/service/impl/OrderServiceImpl.java:79-88 | conversely, a stopped loop stopped at a line that was reached and whose product was missing or short |
| Placement.RunItemAt | src/main/java/com/mycompany/service/impl/OrderServiceImpl.java:93-99 | in a completed loop, line i was accepted when reached, and its item holds the product, the quantity and the product's price at that moment, which is also its price before placement |
| Placement.RunItems | src/main/java/com/mycompany/service/impl/OrderServiceImpl.java:78-99 | every line of a completed loop, as `RunItemAt` states it for one |
| Placement.RunStock | src/main/java/com/mycompany/service/impl/OrderServiceImpl.java:86-88 | each product's stock after the loop is its stock before, minus the quantities of the lines processed for it, in Java int arithmetic |
| Placement.QuantityOfUnnamed | src/main/java/com/mycompany/service/impl/OrderServiceImpl.java:78 | lines that do not name a product request none of it |
| Placement.RunLeavesUnnamed | src/main/java/com/mycompany/service/impl/OrderServiceImpl.java:78-103 | a product no line names comes out exactly as it went in |
| Placement.RunKeepsStocksNonNegative | src/main/java/com/mycompany/service/impl/OrderServiceImpl.java:86-88 | with no negative quantity, every stock stays ≥ 0 and each is lowered by exactly the processed quantities, whether the loop completes or stops |
| Placement.LineStockNonNegative | src/main/java/com/mycompany/service/impl/OrderServiceImpl.java:86-101 | a line that passes the stock test on a stock ≥ 0 leaves a stock ≥ 0 exactly when `stock - quantity` does not overflow |
| Placement.NegativeQuantityWrapsStock | src/main/java/com/mycompany/service/impl/OrderServiceImpl.java:86-101 | a line of `-2^31` units on a stock of 0 passes the check and the stock wraps to `-2^31` |
| Placement.PlaceCompleted | src/main/java/com/mycompany/service/impl/OrderServiceImpl.java:105-122 | after a completed loop: the PENDING order with the next id, the user, the date, the total and the items; the order saved; one event to Kafka and then one to RabbitMQ; the counter up by one |
| Placement.PlaceUnknownUser | src/main/java/com/mycompany/service/impl/OrderServiceImpl.java:65-68 | an unknown user gets nothing and nothing changes |
| Placement.PlaceFailsIff | src/main/java/com/mycompany/service/impl/OrderServiceImpl.java:65-88 | placement saves nothing exactly when the user is unknown or some reached line's product is missing or short |
| Placement.PlaceRejected | src/main/java/com/mycompany/service/impl/OrderServiceImpl.java:78-88 | a rejected line k leaves no order, no event and the same counter; the stock writes of lines before k persist and later lines are never applied |
| Placement.PlaceSucceeds | src/main/java/com/mycompany/service/impl/OrderServiceImpl.java:63-123 | on success: a fresh id, PENDING, the requesting user and date; one item per line at the product's price; total is the sum of `price * quantity`; the order is appended; Kafka then RabbitMQ events with the id, user and total; counter up by one; users unchanged |
| Placement.PlaceOutcome | src/main/java/com/mycompany/service/impl/OrderServiceImpl.java:63-123 | `Place`, the reference definition of `createOrder`, keeps ids in step with the identity column, the users and the set of products; a failure changes only stocks; a saved order has the next id, the user and PENDING, is appended, and the counter rises by one |
| Placement.PlaceKeepsStocksNonNegative | src/main/java/com/mycompany/service/impl/OrderServiceImpl.java:86-102 | with no negative quantity, non-negative stocks stay non-negative, whether placement succeeds or fails |
| OrderService.GetAllOrders | src/main/java/com/mycompany/service/impl/OrderServiceImpl.java:44-47 | every stored order, each once, in id order |
| OrderService.GetOrderById | src/main/java/com/mycompany/service/impl/OrderServiceImpl.java:49-52 | empty exactly when no stored order has the id, otherwise a stored order with that id; with ids in step with positions, present exactly for 1..count and then the order at `id - 1` |
| OrderService.GetOrdersByUser | src/main/java/com/mycompany/service/impl/OrderServiceImpl.java:54-61 | empty exactly when the user is unknown; otherwise exactly the user's orders, each once, in id order |
| OrderService.ProcessItems | src/main/java/com/mycompany/service/impl/OrderServiceImpl.java:78-103 | the loop finishes exactly when `Run` accepts every line, with `Run`'s items, total and products; on a rejection the products are those `Run` stops with (earlier stock writes stay); only the products change |
| OrderService.CreateOrder | src/main/java/com/mycompany/service/impl/OrderServiceImpl.java:63-123 | the loop's returned order and the store afterwards are exactly `Place`'s; the id invariant is kept |
| OrderService.UpdateOrderStatus | src/main/java/com/mycompany/service/impl/OrderServiceImpl.java:125-134 | the returned order and the orders afterwards are `UpdateStatus`'s; nothing else in the store changes |
| InventoryService.Adjust | src/main/java/com/mycompany/service/impl/InventoryServiceImpl.java:16-28 | saved exactly when the id is known and `stock + delta` in Java int arithmetic is ≥ 0; a null or unknown id changes nothing; a saved product has that new stock and the same price, and only it changes; no stock becomes negative |
| InventoryService.Overwrite | src/main/java/com/mycompany/service/impl/InventoryServiceImpl.java:30-40 | saved exactly when the id is known and the stock is present and ≥ 0, and then only that product's stock changes; no stock becomes negative |
| InventoryService.AdjustAcceptsIff | src/main/java/com/mycompany/service/impl/InventoryServiceImpl.java:22-27 | on a stock ≥ 0, the adjustment goes ahead exactly when `stock + delta` lies in 0..2^31-1, and the new stock is that sum |
| InventoryService.AdjustUndo | src/main/java/com/mycompany/service/impl/InventoryServiceImpl.java:16-28 | on a stock ≥ 0, a successful adjustment by `delta` followed by one by `-delta` restores the products |
| InventoryService.AdjustUndoRefused | src/main/java/com/mycompany/service/impl/InventoryServiceImpl.java:16-28 | on a negative stock, after any accepted adjustment by `delta`, the adjustment by `-delta` is refused and changes nothing |
| InventoryService.AdjustZero | src/main/java/com/mycompany/service/impl/InventoryServiceImpl.java:16-28 | adjusting a known product by zero changes no product; it is saved, unchanged, exactly when its stock is ≥ 0, and refused on a negative stock |
| InventoryService.AdjustUnderflowAccepted | src/main/java/com/mycompany/service/impl/InventoryServiceImpl.java:23-24 | on a negative stock the guard misses an underflow: a stock of -1 adjusted by `-2^31` wraps to `2^31-1` and is saved |
| InventoryService.OverwriteIdempotent | src/main/java/com/mycompany/service/impl/InventoryServiceImpl.java:30-40 | setting the same stock twice equals setting it once |
| InventoryService.AdjustStock | src/main/java/com/mycompany/service/impl/InventoryServiceImpl.java:16-28 | the saved product and the products afterwards are `Adjust`'s; nothing else in the store changes |
| InventoryService.SetStock | src/main/java/com/mycompany/service/impl/InventoryServiceImpl.java:30-40 | the saved product and the products afterwards are `Overwrite`'s; nothing else in the store changes |
| LegacyOrderController.GetAllOrders | src/main/java/com/mycompany/OrderController.java:48-51 | exactly the stored orders |
| LegacyOrderController.GetOrderById | src/main/java/com/mycompany/OrderController.java:58-67 | 404 with no body exactly when no order has the id; otherwise 200 with the stored order that has it |
| LegacyOrderController.GetOrdersByUser | src/main/java/com/mycompany/OrderController.java:73-83 | 404 with no body exactly when the user is unknown; otherwise 200 with exactly the user's orders, each once, in id order |
| LegacyOrderController.ProcessItems | src/main/java/com/mycompany/OrderController.java:115-144 | the controller's copy of the loop finishes exactly when `Run` accepts every line, with `Run`'s items, total and products; on a rejection the products are those `Run` stops with; only the products change |
| LegacyOrderController.CreateOrder | src/main/java/com/mycompany/OrderController.java:97-166 | 400 exactly when `Place` saves nothing, otherwise 201 with the order it saves; the store afterwards is `Place`'s |
| LegacyOrderController.UpdateOrderStatus | src/main/java/com/mycompany/OrderController.java:173-185 | 404 exactly when no order has the id; otherwise 200 with the status overwritten unconditionally, as `UpdateStatus` says |
| LegacyOrderController.AgreesWithService | src/main/java/com/mycompany/OrderController.java:98-166 | from equal stores, the controller answers 400 exactly when the service saves nothing, returns the same order, and both stores end equal |
| OrderController.ToItemResponses | src/main/java/com/mycompany/controller/OrderController.java:106-113 | one response per item, in order; the product id is null exactly when the product is, otherwise the product's id; quantity and price are copied |
| OrderController.ToOrderResponse | src/main/java/com/mycompany/controller/OrderController.java:104-122 | a null user gives a null user id and otherwise the user's id; a null item list gives an empty list; id, total, status and date are copied |
| OrderController.ToOrderResponses | src/main/java/com/mycompany/controller/OrderController.java:42-44 | one mapped response per order, in order |
| OrderController.OrderOrNotFound | src/main/java/com/mycompany/controller/OrderController.java:56-57 | 404 with no body exactly when the order is absent, otherwise 200 with the mapped order |
| OrderController.OrdersOrNotFound | src/main/java/com/mycompany/controller/OrderController.java:67-68 | 404 with no body exactly when the list is absent, otherwise 200 with the mapped list |
| OrderController.CreatedOrBadRequest | src/main/java/com/mycompany/controller/OrderController.java:86-89 | 400 with no body exactly when nothing was saved, otherwise 201 with the mapped order |
| OrderController.GetAllOrders | src/main/java/com/mycompany/controller/OrderController.java:40-45 | one response per stored order, in id order |
| OrderController.GetOrderById | src/main/java/com/mycompany/controller/OrderController.java:52-58 | 404 with no body exactly when no stored order has the id, otherwise 200 with that order mapped; with ids in step with positions, 200 exactly for 1..count |
| OrderController.GetOrdersByUser | src/main/java/com/mycompany/controller/OrderController.java:64-69 | 404 exactly when the user is unknown; otherwise 200 with the mapping of each of the user's orders and of nothing else, each once, in id order |
| OrderController.MapMembers | src/main/java/com/mycompany/controller/OrderController.java:67 | every order in the list has its response in the mapped list, and every mapped response is the response of some order in the list (not an if-and-only-if on orders: an order with a null item list and the same order with an empty one map to the same response) |
| OrderController.CreateOrder | src/main/java/com/mycompany/controller/OrderController.java:83-90 | the answer is 400 or 201 according to `Place`'s saved order, and the store afterwards is `Place`'s |
| OrderController.UpdateOrderStatus | src/main/java/com/mycompany/controller/OrderController.java:97-102 | 404 exactly when the service finds no order, otherwise 200 with the updated order mapped; the orders are `UpdateStatus`'s |
| OrderController.ResponseSumOfItems | src/main/java/com/mycompany/controller/OrderController.java:106-113 | mapping items to responses keeps the sum of `price * quantity` |
| OrderController.CreatedResponseConsistent | src/main/java/com/mycompany/controller/OrderController.java:84-89 | a 201 answer shows a PENDING order of the requesting user, one line per request line at the product's price, and a total equal to the sum of the shown lines' `price * quantity` |

## Left out

- Timestamps: `LocalDateTime.now()` is the parameter `now`; no clock is modelled.
- Event transport: Kafka and RabbitMQ sends are appends to a log of `(order id, user id, total)` records. Broker I/O, message formatting and the total's decimal string form (`BigDecimal.toString`) are not modelled.
- Concurrency: every call runs alone. The read-then-write race on stock is not modelled.
- Transactions and caching: Spring's transaction and cache annotations are framework behaviour. Every repository save takes effect at once, as the code writes it.
- Null request fields: a null user id, a null item list, a null product id or a null quantity make the framework or the unboxing throw. The model's request fields are not nullable. A null product id or quantity on line k throws only when line k is reached, after lines 0..k-1 have saved their stock writes (src/main/java/com/mycompany/service/impl/OrderServiceImpl.java:79 and :86, after :102), so the outcome is the same partial write as a rejection of line k, without an order, events or a count. The same goes for a null status in an update request.
- List order: JPA's `findAll` and `findByUser` promise no order. The model returns stored (id) order.
- Database column limits: the money columns have `precision = 10` (src/main/java/com/mycompany/Order.java:29, src/main/java/com/mycompany/model/OrderItem.java:27), and the model does not enforce them; totals and prices are unbounded integers. In the program, a total or a price beyond that precision makes `orderRepository.save` throw after the loop has already written the stocks. Then no order is saved, no event is sent and the counter does not move, while the earlier stock writes stay. The model saves such an order like any other.
- Users, and product names and descriptions: the user and product controllers and services are not part of this model. Products are only a price and a stock. `ProductController` can overwrite a stock with a negative value. The placement lemmas guarantee non-negative stocks only for requests with no negative quantity (see the two lines below), since a negative quantity can wrap a stock below zero; the exact per-line condition under which a write keeps a stock ≥ 0 is `Placement.LineStockNonNegative`, and on a negative stock `adjustStock` can accept an underflow (`InventoryService.AdjustUnderflowAccepted`).
- Repository `findByStatus`: no modelled operation uses it.
- Order deletion: deleting a user also deletes their orders (the cascade on `User.orders`, src/main/java/com/mycompany/model/User.java:32, reached through `DELETE /api/users/{id}`). The model has no deletion, so its ids stay 1..count with no gaps. The facts stated "with ids in step with positions" (`FindByIdValid`, the `1..count` clauses of the `GetOrderById` members, the `r[i].id == i + 1` clauses of `OrderService.GetAllOrders` and `OrderController.GetAllOrders`, `NextOrderId`) hold only for stores built by the modelled operations. The `FindById`-based clauses hold for any store.
- RunKeepsStocksNonNegative: assumes every requested quantity is ≥ 0, because the code has no such check and a negative quantity can wrap a stock below zero (see `Placement.NegativeQuantityWrapsStock`).
- PlaceKeepsStocksNonNegative: assumes every requested quantity is ≥ 0, for the same reason.
- AdjustUndo: stated only for a stock ≥ 0, because on a negative stock the undo is always refused. The adjustment by `-delta` brings back the old negative stock exactly, even for a delta of `-2^31`, and the `newStock < 0` test refuses it (`InventoryService.AdjustUndoRefused`).
