/** The order service's entities, the requests and responses it exchanges
    with the other services, and the pure parts of its workflow: checking
    and pricing the items, summing the total, and the whole placement of an
    order as a function of its inputs. */
module Orders {
  import opened Wrappers
  import opened Shared
  import opened Persistence
  import Dishes
  import Payments
  import Deliveries

  /** The statuses the service writes. PAYED is among them although the
      enum declared beside the service omits it. */
  datatype OrderStatus = Placed | Payed | Delivering | Delivered | Canceled

  /** A priced line of an order; `price` is the unit price in cents. */
  datatype OrderItem = OrderItem(dishId: Uuid, quantity: int, price: int)

  datatype Order = Order(
    orderId: Uuid, userId: string, restaurantId: Uuid, totalPrice: int,
    status: OrderStatus, timestamp: Timestamp, orderItems: seq<OrderItem>)

  /** A requested line; its own `price` is never used. */
  datatype OrderItemRequest = OrderItemRequest(dishId: Uuid, quantity: int, price: int)

  /** `items` is None when the request carries a null list. */
  datatype OrderRequest = OrderRequest(
    restaurantId: Uuid, userId: string, paymentMode: PaymentMode, items: Option<seq<OrderItemRequest>>)

  datatype OrderResponse = OrderResponse(
    orderId: Uuid, createdAt: Timestamp, status: OrderStatus, amount: int,
    dishes: seq<Dishes.DishResponse>,
    paymentDetails: Option<Payments.PaymentResponse>,
    deliveryDetails: Option<Deliveries.DeliveryResponse>)

  /** The exceptions the order service raises, with their messages. */
  datatype OrderError =
    | EmptyOrder(message: string)
    | DishNotFound(message: string)
    | DishNotAvailable(message: string)
    | OrderNotFound(message: string)

  function OrderNotFoundFor(id: Uuid): OrderError {
    OrderNotFound("Order with an ID of " + id + " not found")
  }

  /** A catalog lookup as the order service sees it: a successful response
      with a body, or anything else (an error status, no body, or the
      fallback's 503 with no body). */
  datatype DishLookup = NotFound | Found(body: Dishes.DishResponse)

  /** Whether a call to another service returned or threw. */
  datatype CallOutcome = Returned | Threw

  /** The calls the order service makes to the other services. */
  datatype RemoteCall =
    | GetDishById(dishId: Uuid)
    | Pay(payment: Payments.PaymentRequest)
    | InitiateDelivery(delivery: Deliveries.DeliveryRequest)
    | GetPaymentDetails(orderId: Uuid)
    | GetDeliveryDetails(orderId: Uuid)

  /** Every order is stored under its own id. */
  ghost predicate OrdersKeyed(rows: map<Uuid, Order>) {
    forall k | k in rows :: rows[k].orderId == k
  }

  // ---------------------------------------------------------------------
  // The status update query of the order repository

  /** Sets the status of the order stored under `id`, if there is one. */
  function WithStatus(orders: map<Uuid, Order>, id: Uuid, s: OrderStatus): (r: map<Uuid, Order>)
    ensures r.Keys == orders.Keys
    ensures forall k | k in orders && k != id :: r[k] == orders[k]
    ensures id in orders ==> r[id].status == s && r[id].(status := orders[id].status) == orders[id]
  {
    if id in orders then orders[id := orders[id].(status := s)] else orders
  }

  /** Writing the same status twice is writing it once. */
  lemma WithStatusTwice(orders: map<Uuid, Order>, id: Uuid, s: OrderStatus)
    ensures WithStatus(WithStatus(orders, id, s), id, s) == WithStatus(orders, id, s)
  {
  }

  /** The update query itself, run against the shared order table. */
  method UpdateStatusQuery(repo: Repository<Order>, id: Uuid, s: OrderStatus)
    requires repo.Valid() && OrdersKeyed(repo.rows)
    modifies repo
    ensures repo.Valid() && OrdersKeyed(repo.rows)
    ensures repo.rows == WithStatus(old(repo.rows), id, s) && repo.order == old(repo.order)
  {
    if id in repo.rows {
      repo.Save(id, repo.rows[id].(status := s));
    }
  }

  // ---------------------------------------------------------------------
  // Checking and pricing the requested items

  /** The catalog knows the dish and offers it. */
  predicate Orderable(l: DishLookup) {
    l.Found? && l.body.availability
  }

  /** The exception raised for an item whose lookup is not orderable. */
  function ItemError(dishId: Uuid, l: DishLookup): OrderError {
    if l.NotFound? then DishNotFound("Dish with ID " + dishId + " not found.")
    else DishNotAvailable("Dish with ID " + dishId + " is not available.")
  }

  /** Turns one requested line into a priced line, or raises. */
  function PrepareItem(item: OrderItemRequest, l: DishLookup): Result<OrderItem, OrderError> {
    if !Orderable(l) then Failure(ItemError(item.dishId, l))
    else Success(OrderItem(item.dishId, item.quantity, l.body.price))
  }

  /** The lines checked one after the other, in request order; the first
      line that is not orderable ends the check. */
  function PrepareItems(items: seq<OrderItemRequest>, catalog: Uuid -> DishLookup): (r: Result<seq<OrderItem>, OrderError>)
    ensures r.Success? <==> forall i | 0 <= i < |items| :: Orderable(catalog(items[i].dishId))
    ensures r.Success? ==> |r.value| == |items|
    ensures r.Success? ==> forall i | 0 <= i < |items| ::
      r.value[i] == OrderItem(items[i].dishId, items[i].quantity, catalog(items[i].dishId).body.price)
  {
    if items == [] then Success([])
    else match PrepareItem(items[0], catalog(items[0].dishId))
      case Failure(e) => Failure(e)
      case Success(first) =>
        match PrepareItems(items[1..], catalog)
        case Failure(e) => Failure(e)
        case Success(rest) => Success([first] + rest)
  }

  /** The lookups made while checking: one per line, up to and including
      the first line that is not orderable. */
  function CatalogCalls(items: seq<OrderItemRequest>, catalog: Uuid -> DishLookup): (r: seq<RemoteCall>)
    ensures |r| <= |items|
    ensures forall i | 0 <= i < |r| :: r[i] == GetDishById(items[i].dishId)
    ensures PrepareItems(items, catalog).Success? ==> |r| == |items|
  {
    if items == [] then []
    else
      var rest := if Orderable(catalog(items[0].dishId)) then CatalogCalls(items[1..], catalog) else [];
      [GetDishById(items[0].dishId)] + rest
  }

  /** The check fails exactly at the first line that is not orderable,
      with that line's exception, after looking up that line and the lines
      before it and none after. */
  lemma {:induction false} PrepareItemsFailsAt(items: seq<OrderItemRequest>, catalog: Uuid -> DishLookup, k: nat)
    requires k < |items| && !Orderable(catalog(items[k].dishId))
    requires forall j | 0 <= j < k :: Orderable(catalog(items[j].dishId))
    ensures PrepareItems(items, catalog) == Failure(ItemError(items[k].dishId, catalog(items[k].dishId)))
    ensures |CatalogCalls(items, catalog)| == k + 1
  {
    if k > 0 {
      PrepareItemsFailsAt(items[1..], catalog, k - 1);
    }
  }

  /** Lines priced one by one, with one lookup each, are what the check
      gives when every line is orderable. */
  lemma PreparedEveryLine(
    items: seq<OrderItemRequest>, catalog: Uuid -> DishLookup, prepared: seq<OrderItem>, made: seq<RemoteCall>)
    requires |prepared| == |items|
    requires forall j | 0 <= j < |items| ::
      Orderable(catalog(items[j].dishId))
      && prepared[j] == OrderItem(items[j].dishId, items[j].quantity, catalog(items[j].dishId).body.price)
    requires |made| == |items| && forall j | 0 <= j < |items| :: made[j] == GetDishById(items[j].dishId)
    ensures PrepareItems(items, catalog) == Success(prepared)
    ensures CatalogCalls(items, catalog) == made
  {
  }

  /** One lookup per line up to the first unorderable line, inclusive, is
      what the check makes when it fails there. */
  lemma {:induction false} LookedUpThrough(items: seq<OrderItemRequest>, catalog: Uuid -> DishLookup, made: seq<RemoteCall>, k: nat)
    requires k < |items| && !Orderable(catalog(items[k].dishId))
    requires forall j | 0 <= j < k :: Orderable(catalog(items[j].dishId))
    requires |made| == k + 1 && forall j | 0 <= j <= k :: made[j] == GetDishById(items[j].dishId)
    ensures CatalogCalls(items, catalog) == made
  {
    if k == 0 {
      assert made == [GetDishById(items[0].dishId)];
    } else {
      LookedUpThrough(items[1..], catalog, made[1..], k - 1);
      assert made == [made[0]] + made[1..];
    }
  }

  /** The empty-list check that comes before any lookup, then the lines. */
  function ValidateItems(items: Option<seq<OrderItemRequest>>, catalog: Uuid -> DishLookup): (r: Result<seq<OrderItem>, OrderError>)
    ensures items.None? || items == Some([]) ==> r == Failure(EmptyOrder("Order must have at least one item."))
    ensures r.Success? <==>
      items.Some? && items.value != [] && forall i | 0 <= i < |items.value| :: Orderable(catalog(items.value[i].dishId))
    ensures r.Success? ==> |r.value| == |items.value| > 0
    ensures items.Some? && items.value != [] ==> r == PrepareItems(items.value, catalog)
  {
    if items.None? || items.value == [] then Failure(EmptyOrder("Order must have at least one item."))
    else PrepareItems(items.value, catalog)
  }

  /** The lookups `ValidateItems` makes: none for a null or empty list. */
  function ValidationCalls(items: Option<seq<OrderItemRequest>>, catalog: Uuid -> DishLookup): seq<RemoteCall> {
    if items.None? || items.value == [] then [] else CatalogCalls(items.value, catalog)
  }

  // ---------------------------------------------------------------------
  // The total

  /** The sum of unit price times quantity over the lines, in cents. */
  function TotalPrice(items: seq<OrderItem>): (r: int)
    ensures (forall i | 0 <= i < |items| :: items[i].price >= 0 && items[i].quantity >= 0) ==> r >= 0
  {
    if items == [] then 0 else items[0].price * items[0].quantity + TotalPrice(items[1..])
  }

  lemma {:induction false} TotalPriceAppend(a: seq<OrderItem>, b: seq<OrderItem>)
    ensures TotalPrice(a + b) == TotalPrice(a) + TotalPrice(b)
  {
    if a == [] {
      assert a + b == b;
    } else {
      assert (a + b)[1..] == a[1..] + b;
      TotalPriceAppend(a[1..], b);
    }
  }

  /** Lines with positive prices and quantities of at least one cost more
      than nothing, as the payment service's positive-amount rule wants. */
  lemma {:induction false} TotalPricePositive(items: seq<OrderItem>)
    requires items != []
    requires forall i | 0 <= i < |items| :: items[i].price > 0 && items[i].quantity >= 1
    ensures TotalPrice(items) > 0
  {
    if |items| > 1 {
      TotalPricePositive(items[1..]);
    }
  }

  // ---------------------------------------------------------------------
  // Placing an order

  function NewOrder(request: OrderRequest, orderId: Uuid, items: seq<OrderItem>, now: Timestamp): Order {
    Order(orderId, request.userId, request.restaurantId, TotalPrice(items), Placed, now, items)
  }

  function PaymentFor(order: Order, mode: PaymentMode): Payments.PaymentRequest {
    Payments.PaymentRequest(order.orderId, order.totalPrice, mode)
  }

  function DeliveryFor(order: Order): Deliveries.DeliveryRequest {
    Deliveries.DeliveryRequest(order.orderId, order.userId, order.restaurantId)
  }

  /** What placing an order leaves behind: the value returned or the
      exception raised, the order table, and the calls made. */
  datatype Placement = Placement(result: Result<Uuid, OrderError>, orders: map<Uuid, Order>, calls: seq<RemoteCall>)

  /** The steps after the lines are accepted: store the order as PLACED,
      charge it (PAYED if the call returns, CANCELED if it throws), and,
      once PAYED, start its delivery (DELIVERING if that call returns). */
  function Fulfil(
    orders: map<Uuid, Order>, request: OrderRequest, items: seq<OrderItem>,
    payment: CallOutcome, delivery: CallOutcome, orderId: Uuid, now: Timestamp): (f: Placement)
    ensures f.result == Success(orderId)
    ensures f.orders.Keys == orders.Keys + {orderId}
    ensures forall k | k in orders && k != orderId :: f.orders[k] == orders[k]
    ensures f.orders[orderId].(status := Placed) == NewOrder(request, orderId, items, now)
    ensures f.orders[orderId].status != Placed
    ensures |f.calls| == (if payment == Returned then 2 else 1)
    ensures f.calls[0] == Pay(Payments.PaymentRequest(orderId, TotalPrice(items), request.paymentMode))
    ensures payment == Returned ==>
      f.calls[1] == InitiateDelivery(Deliveries.DeliveryRequest(orderId, request.userId, request.restaurantId))
  {
    var order := NewOrder(request, orderId, items, now);
    var saved := orders[orderId := order];
    var charged := WithStatus(saved, orderId, if payment == Returned then Payed else Canceled);
    var final := if payment == Returned && delivery == Returned then WithStatus(charged, orderId, Delivering) else charged;
    Placement(
      Success(orderId), final,
      [Pay(PaymentFor(order, request.paymentMode))]
        + (if payment == Returned then [InitiateDelivery(DeliveryFor(order))] else []))
  }

  /** Call logs grow by appending; grouping the appended parts does not
      matter. */
  lemma AppendAssociates(a: seq<RemoteCall>, b: seq<RemoteCall>, c: seq<RemoteCall>)
    ensures a + b + c == a + (b + c)
  {
  }

  /** The order workflow: check and price the lines, then fulfil the
      order. The lemmas below state what it guarantees. */
  function PlaceOrder(
    orders: map<Uuid, Order>, request: OrderRequest, catalog: Uuid -> DishLookup,
    payment: CallOutcome, delivery: CallOutcome, orderId: Uuid, now: Timestamp): (p: Placement)
    ensures p.result.Success? <==> ValidateItems(request.items, catalog).Success?
    ensures p.result.Success? ==> p.result == Success(orderId)
    ensures p.result.Failure? ==> p.orders == orders
    ensures ValidationCalls(request.items, catalog) <= p.calls
  {
    var validated := ValidateItems(request.items, catalog);
    var lookups := ValidationCalls(request.items, catalog);
    if validated.Failure? then Placement(Failure(validated.error), orders, lookups)
    else
      var f := Fulfil(orders, request, validated.value, payment, delivery, orderId, now);
      Placement(f.result, f.orders, lookups + f.calls)
  }

  /** A rejected order raises the check's exception, stores nothing and
      calls neither payment nor delivery; a null or empty list raises
      EmptyOrder before any lookup. */
  lemma PlaceOrderRejects(
    orders: map<Uuid, Order>, request: OrderRequest, catalog: Uuid -> DishLookup,
    payment: CallOutcome, delivery: CallOutcome, orderId: Uuid, now: Timestamp)
    requires ValidateItems(request.items, catalog).Failure?
    ensures var p := PlaceOrder(orders, request, catalog, payment, delivery, orderId, now);
      && p.result == Failure(ValidateItems(request.items, catalog).error)
      && p.orders == orders
      && (forall c | c in p.calls :: c.GetDishById?)
      && (request.items.None? || request.items == Some([]) ==>
            p == Placement(Failure(EmptyOrder("Order must have at least one item.")), orders, []))
  {
  }

  /** An accepted order returns its id and stores one new order with the
      request's user and restaurant, the priced lines, their total and the
      time; no other order changes. */
  lemma PlaceOrderStores(
    orders: map<Uuid, Order>, request: OrderRequest, catalog: Uuid -> DishLookup,
    payment: CallOutcome, delivery: CallOutcome, orderId: Uuid, now: Timestamp)
    requires orderId !in orders
    requires ValidateItems(request.items, catalog).Success?
    ensures var p := PlaceOrder(orders, request, catalog, payment, delivery, orderId, now);
      var items := ValidateItems(request.items, catalog).value;
      && p.result == Success(orderId)
      && p.orders.Keys == orders.Keys + {orderId}
      && (forall k | k in orders :: p.orders[k] == orders[k])
      && p.orders[orderId] == Order(orderId, request.userId, request.restaurantId, TotalPrice(items), p.orders[orderId].status, now, items)
  {
  }

  /** An accepted order ends CANCELED exactly when payment threw, PAYED
      exactly when payment returned and delivery threw, and DELIVERING
      exactly when both returned; it never stays PLACED. */
  lemma PlaceOrderFinalStatus(
    orders: map<Uuid, Order>, request: OrderRequest, catalog: Uuid -> DishLookup,
    payment: CallOutcome, delivery: CallOutcome, orderId: Uuid, now: Timestamp)
    requires ValidateItems(request.items, catalog).Success?
    ensures var s := PlaceOrder(orders, request, catalog, payment, delivery, orderId, now).orders[orderId].status;
      && (s == Canceled <==> payment == Threw)
      && (s == Payed <==> payment == Returned && delivery == Threw)
      && (s == Delivering <==> payment == Returned && delivery == Returned)
      && (s == Canceled || s == Payed || s == Delivering)
  {
  }

  /** An accepted order is charged its stored total in the request's
      mode, and delivery of it is requested exactly when payment returned. */
  lemma PlaceOrderCalls(
    orders: map<Uuid, Order>, request: OrderRequest, catalog: Uuid -> DishLookup,
    payment: CallOutcome, delivery: CallOutcome, orderId: Uuid, now: Timestamp)
    requires ValidateItems(request.items, catalog).Success?
    ensures var p := PlaceOrder(orders, request, catalog, payment, delivery, orderId, now);
      var o := p.orders[orderId];
      && Pay(Payments.PaymentRequest(orderId, o.totalPrice, request.paymentMode)) in p.calls
      && (InitiateDelivery(Deliveries.DeliveryRequest(orderId, o.userId, o.restaurantId)) in p.calls <==> payment == Returned)
      && (payment == Threw ==> forall c | c in p.calls :: !c.InitiateDelivery?)
  {
  }

  // ---------------------------------------------------------------------
  // Reading an order back

  /** The dishes the catalog still returns a body for, in line order. */
  function FoundDishes(items: seq<OrderItem>, catalog: Uuid -> DishLookup): (r: seq<Dishes.DishResponse>)
    ensures |r| <= |items|
  {
    if items == [] then []
    else
      var last := catalog(items[|items| - 1].dishId);
      var front := FoundDishes(items[..|items| - 1], catalog);
      if last.Found? then front + [last.body] else front
  }

  /** When the catalog returns every line's dish, the response lists
      exactly those bodies, in line order. */
  lemma {:induction false} FoundDishesAllFound(items: seq<OrderItem>, catalog: Uuid -> DishLookup)
    requires forall i | 0 <= i < |items| :: catalog(items[i].dishId).Found?
    ensures |FoundDishes(items, catalog)| == |items|
    ensures forall i | 0 <= i < |items| :: FoundDishes(items, catalog)[i] == catalog(items[i].dishId).body
  {
    if items != [] {
      var n := |items| - 1;
      assert forall i | 0 <= i < n :: items[..n][i] == items[i];
      FoundDishesAllFound(items[..n], catalog);
    }
  }

  /** Every dish in the response is the catalog's body for one of the lines. */
  lemma {:induction false} FoundDishesFromCatalog(items: seq<OrderItem>, catalog: Uuid -> DishLookup, d: Dishes.DishResponse)
    requires d in FoundDishes(items, catalog)
    ensures exists i | 0 <= i < |items| :: catalog(items[i].dishId) == Found(d)
  {
    var n := |items| - 1;
    var last := catalog(items[n].dishId);
    if last.Found? && d == last.body {
      assert catalog(items[n].dishId) == Found(d);
    } else {
      FoundDishesFromCatalog(items[..n], catalog, d);
      var i :| 0 <= i < n && catalog(items[..n][i].dishId) == Found(d);
      assert items[..n][i] == items[i];
    }
  }

  /** Every line whose dish the catalog returns has that body in the
      response: only the lines the catalog no longer returns are skipped. */
  lemma {:induction false} FoundDishesReportsFound(items: seq<OrderItem>, catalog: Uuid -> DishLookup, i: nat)
    requires i < |items| && catalog(items[i].dishId).Found?
    ensures catalog(items[i].dishId).body in FoundDishes(items, catalog)
  {
    var n := |items| - 1;
    if i < n {
      assert items[..n][i] == items[i];
      FoundDishesReportsFound(items[..n], catalog, i);
    }
  }

  /** Extending the lines by one extends the dishes found by that line's
      body, if any, and the lookups by that line's lookup. */
  lemma FoundDishesStep(items: seq<OrderItem>, catalog: Uuid -> DishLookup, i: nat)
    requires i < |items|
    ensures FoundDishes(items[..i + 1], catalog) == FoundDishes(items[..i], catalog)
      + (if catalog(items[i].dishId).Found? then [catalog(items[i].dishId).body] else [])
    ensures DishLookups(items[..i + 1]) == DishLookups(items[..i]) + [GetDishById(items[i].dishId)]
  {
    assert items[..i + 1][..i] == items[..i];
  }

  /** One lookup per line, in line order. */
  function DishLookups(items: seq<OrderItem>): seq<RemoteCall> {
    if items == [] then []
    else DishLookups(items[..|items| - 1]) + [GetDishById(items[|items| - 1].dishId)]
  }
}
