/** The in-memory stand-in for the Spring Data repositories, the two event
    channels and the orders-created counter: one `Store` object whose fields the
    services update in place, the value `State` that describes it, and the
    repository queries as functions over the stored orders. */
module Repositories {
  import opened JavaInt
  import opened Domain

  /** Everything the order workflow can observe or change. */
  datatype State = State(
    users: set<UserId>,
    products: map<ProductId, Product>,
    orders: seq<Order>,
    published: seq<Published>,
    ordersCreated: nat)

  /** The identity column hands out 1, 2, 3, ... and orders are kept in that order. */
  ghost predicate ValidOrders(orders: seq<Order>) {
    forall i :: 0 <= i < |orders| ==> orders[i].id == i + 1
  }

  ghost predicate ValidState(st: State) {
    ValidOrders(st.orders)
  }

  /** Ids strictly increase along the sequence, so no order appears twice. */
  ghost predicate IdsIncreasing(orders: seq<Order>) {
    forall i, j :: 0 <= i < j < |orders| ==> orders[i].id < orders[j].id
  }

  /** Every product's stock is at least zero. */
  ghost predicate StocksNonNegative(products: map<ProductId, Product>) {
    forall p :: p in products ==> products[p].stock >= 0
  }

  /** The id the identity column gives the next saved order: never one in use,
      and saving an order under it keeps the ids in step. */
  function NextOrderId(orders: seq<Order>): (id: OrderId)
    requires ValidOrders(orders)
    ensures forall i :: 0 <= i < |orders| ==> orders[i].id < id
    ensures forall o: Order :: o.id == id ==> ValidOrders(orders + [o])
  {
    |orders| + 1
  }

  /** Position of the first order with the given id. */
  function IndexOf(orders: seq<Order>, id: OrderId): (r: Option<nat>)
    ensures r.Some? ==> r.value < |orders| && orders[r.value].id == id
    ensures r.Some? ==> forall j :: 0 <= j < r.value ==> orders[j].id != id
    ensures r.None? ==> forall i :: 0 <= i < |orders| ==> orders[i].id != id
  {
    if orders == [] then None
    else if orders[0].id == id then Some(0)
    else match IndexOf(orders[1..], id)
      case None => None
      case Some(k) => Some(k + 1)
  }

  /** `findById`: the stored order with that id, if any. */
  function FindById(orders: seq<Order>, id: OrderId): (r: Option<Order>)
    ensures r.Some? ==> r.value in orders && r.value.id == id
    ensures r.None? <==> forall o :: o in orders ==> o.id != id
  {
    match IndexOf(orders, id)
    case None => None
    case Some(k) => Some(orders[k])
  }

  /** With ids in step with positions, the order with id `id` is the one at position `id - 1`. */
  lemma FindByIdValid(orders: seq<Order>, id: OrderId)
    ensures ValidOrders(orders) ==>
      FindById(orders, id) == if 1 <= id <= |orders| then Some(orders[id - 1]) else None
  {
    if ValidOrders(orders) && 1 <= id <= |orders| {
      assert orders[id - 1] in orders;
    }
  }

  /** `findByUser`: the orders owned by the user, in stored order. */
  function FindByUser(orders: seq<Order>, user: UserId): (r: seq<Order>)
    ensures forall o :: o in r <==> o in orders && o.user == Some(user)
    ensures |r| <= |orders|
  {
    if orders == [] then []
    else
      var rest := FindByUser(orders[1..], user);
      if orders[0].user == Some(user) then [orders[0]] + rest else rest
  }

  /** Over orders in id order, `FindByUser` gives each of the user's orders
      once, still in id order. */
  lemma {:induction false} FindByUserIncreasing(orders: seq<Order>, user: UserId)
    requires IdsIncreasing(orders)
    ensures IdsIncreasing(FindByUser(orders, user))
  {
    if orders != [] {
      TailIncreasing(orders);
      FindByUserIncreasing(orders[1..], user);
      if orders[0].user == Some(user) {
        ConsIncreasing(orders, FindByUser(orders[1..], user));
      }
    }
  }

  /** Dropping the first order keeps the ids increasing. */
  lemma TailIncreasing(orders: seq<Order>)
    requires orders != [] && IdsIncreasing(orders)
    ensures IdsIncreasing(orders[1..])
  {
    var tail := orders[1..];
    forall i, j | 0 <= i < j < |tail|
      ensures tail[i].id < tail[j].id
    {
      assert tail[i] == orders[i + 1] && tail[j] == orders[j + 1];
    }
  }

  /** The first order put in front of increasing orders drawn from the rest keeps them increasing. */
  lemma ConsIncreasing(orders: seq<Order>, rest: seq<Order>)
    requires orders != [] && IdsIncreasing(orders) && IdsIncreasing(rest)
    requires forall o :: o in rest ==> o in orders[1..]
    ensures IdsIncreasing([orders[0]] + rest)
  {
    forall o | o in rest
      ensures orders[0].id < o.id
    {
      var k :| 0 <= k < |orders[1..]| && orders[1..][k] == o;
      assert orders[k + 1] == o;
    }
    var r := [orders[0]] + rest;
    forall i, j | 0 <= i < j < |r|
      ensures r[i].id < r[j].id
    {
      assert r[j] == rest[j - 1] && rest[j - 1] in rest;
      if i > 0 {
        assert r[i] == rest[i - 1];
      }
    }
  }

  /** With ids in step with positions, a user's orders come out each once, in id order. */
  lemma FindByUserInIdOrder(orders: seq<Order>, user: UserId)
    ensures ValidOrders(orders) ==> IdsIncreasing(FindByUser(orders, user))
  {
    if ValidOrders(orders) {
      FindByUserIncreasing(orders, user);
    }
  }

  /** The result of a status update: the saved order (if the id was found) and the orders afterwards. */
  datatype StatusUpdate = StatusUpdate(updated: Option<Order>, orders: seq<Order>)

  /** Load the order by id, overwrite its status (whatever it was) and save it. */
  function UpdateStatus(orders: seq<Order>, id: OrderId, status: OrderStatus): (r: StatusUpdate)
    ensures r.updated.None? <==> FindById(orders, id).None?
    ensures r.updated.None? ==> r.orders == orders
    ensures r.updated.Some? ==>
      r.updated.value == FindById(orders, id).value.(status := status) && r.updated.value in r.orders
    ensures |r.orders| == |orders|
    ensures forall i :: 0 <= i < |orders| ==> r.orders[i] == orders[i].(status := r.orders[i].status)
    ensures forall i :: 0 <= i < |orders| && orders[i].id != id ==> r.orders[i] == orders[i]
    ensures ValidOrders(orders) ==> ValidOrders(r.orders)
  {
    match IndexOf(orders, id)
    case None => StatusUpdate(None, orders)
    case Some(k) =>
      var o := orders[k].(status := status);
      assert orders[k := o][k] == o;
      StatusUpdate(Some(o), orders[k := o])
  }

  /** The database rows, the two brokers' logs and the metrics counter. */
  class Store {
    var users: set<UserId>
    var products: map<ProductId, Product>
    var orders: seq<Order>
    var published: seq<Published>
    var ordersCreated: nat

    constructor (users: set<UserId>, products: map<ProductId, Product>)
      ensures Valid()
      ensures Snapshot() == State(users, products, [], [], 0)
    {
      this.users := users;
      this.products := products;
      this.orders := [];
      this.published := [];
      this.ordersCreated := 0;
    }

    function Snapshot(): State
      reads this
    {
      State(users, products, orders, published, ordersCreated)
    }

    ghost predicate Valid()
      reads this
    {
      ValidState(Snapshot())
    }
  }
}
