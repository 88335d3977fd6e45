/** The order service's consumer of the delivery topic: it reads each
    delivery event and moves the order it names to DELIVERED or CANCELED.
    It writes the same order table the order service writes. */
module DeliveryEvents {
  import opened Wrappers
  import opened Shared
  import opened Persistence
  import opened Orders
  import Deliveries

  /** A message read from the topic: an event, or text that does not
      deserialise into one. */
  datatype Message = Malformed | Event(orderId: Uuid, status: DeliveryStatus)

  /** The message a published delivery event becomes on the topic. */
  function Serialize(e: Deliveries.DeliveryEvent): Message {
    Event(e.orderId, e.status)
  }

  /** The order status a delivery status moves the order to, if any. */
  function StatusFor(s: DeliveryStatus): (r: Option<OrderStatus>)
    ensures r.None? <==> s == InProgress
    ensures r == Some(OrderStatus.Delivered) <==> s == DeliveryStatus.Delivered
    ensures r == Some(Canceled) <==> s == DeliveryStatus.Failed
  {
    match s
    case InProgress => None
    case Delivered => Some(OrderStatus.Delivered)
    case Failed => Some(Canceled)
  }

  /** The listener's effect on the order table: a malformed message is
      dropped, an unknown order raises OrderNotFound, DELIVERED and FAILED
      set the status whatever it was before, IN_PROGRESS changes nothing. */
  function ApplyDeliveryEvent(orders: map<Uuid, Order>, msg: Message): (r: Result<map<Uuid, Order>, OrderError>)
    ensures msg.Malformed? ==> r == Success(orders)
    ensures msg.Event? && msg.orderId !in orders ==> r == Failure(OrderNotFoundFor(msg.orderId))
    ensures msg.Event? && msg.orderId in orders ==>
      && r.Success?
      && r.value.Keys == orders.Keys
      && (forall k | k in orders && k != msg.orderId :: r.value[k] == orders[k])
      && r.value[msg.orderId].(status := orders[msg.orderId].status) == orders[msg.orderId]
      && (msg.status == DeliveryStatus.Delivered ==> r.value[msg.orderId].status == OrderStatus.Delivered)
      && (msg.status == DeliveryStatus.Failed ==> r.value[msg.orderId].status == Canceled)
      && (msg.status == InProgress ==> r.value == orders)
  {
    match msg
    case Malformed => Success(orders)
    case Event(id, status) =>
      if id !in orders then Failure(OrderNotFoundFor(id))
      else match StatusFor(status)
        case None => Success(orders)
        case Some(s) => Success(WithStatus(orders, id, s))
  }

  /** Receiving the same message twice leaves the table as receiving it once. */
  lemma RedeliveryIsHarmless(orders: map<Uuid, Order>, msg: Message)
    requires ApplyDeliveryEvent(orders, msg).Success?
    ensures ApplyDeliveryEvent(ApplyDeliveryEvent(orders, msg).value, msg) == ApplyDeliveryEvent(orders, msg)
  {
    if msg.Event? && msg.orderId in orders && StatusFor(msg.status).Some? {
      WithStatusTwice(orders, msg.orderId, StatusFor(msg.status).value);
    }
  }

  /** No status is final for the listener: a FAILED event that arrives after
      a DELIVERED one cancels the delivered order. */
  lemma FailedAfterDeliveredCancels(orders: map<Uuid, Order>, id: Uuid)
    requires id in orders
    ensures var delivered := ApplyDeliveryEvent(orders, Event(id, DeliveryStatus.Delivered));
      && delivered.Success? && delivered.value[id].status == OrderStatus.Delivered
      && var failed := ApplyDeliveryEvent(delivered.value, Event(id, DeliveryStatus.Failed));
      && failed.Success? && failed.value[id].status == Canceled
  {
  }

  /** The event a finished delivery task publishes moves a stored order
      to DELIVERED when the delivery task slept to the end and to CANCELED when it
      was interrupted. */
  lemma CompletedDeliverySettlesOrder(
    orders: map<Uuid, Order>, d: Deliveries.DeliveryDetails, how: Deliveries.Completion, now: Timestamp)
    requires d.orderId in orders
    requires d.deliveryStatus == InProgress && d.deliveredAt.None?
    ensures var effect := Deliveries.RunTask(d, how, true, now);
      && |effect.events| == 1
      && var r := ApplyDeliveryEvent(orders, Serialize(effect.events[0]));
      && r.Success?
      && r.value[d.orderId].status == (if how == Deliveries.Slept then OrderStatus.Delivered else Canceled)
  {
  }

  /** An order placed with a successful payment and delivery request ends
      DELIVERED once its delivery task finishes by sleeping to the end and
      the listener receives the event it publishes. */
  lemma PlacedOrderIsDelivered(
    orders: map<Uuid, Order>, request: OrderRequest, catalog: Uuid -> DishLookup,
    orderId: Uuid, now: Timestamp, deliveryId: Uuid, later: Timestamp)
    requires orderId !in orders
    requires ValidateItems(request.items, catalog).Success?
    ensures var placed := PlaceOrder(orders, request, catalog, Returned, Returned, orderId, now);
      var d := Deliveries.DeliveryDetails(deliveryId, orderId, request.restaurantId, request.userId, InProgress, now, None);
      var effect := Deliveries.RunTask(d, Deliveries.Slept, true, later);
      && placed.orders[orderId].status == Delivering
      && |effect.events| == 1
      && var r := ApplyDeliveryEvent(placed.orders, Serialize(effect.events[0]));
      && r.Success? && r.value[orderId].status == OrderStatus.Delivered
  {
    var placed := PlaceOrder(orders, request, catalog, Returned, Returned, orderId, now);
    var d := Deliveries.DeliveryDetails(deliveryId, orderId, request.restaurantId, request.userId, InProgress, now, None);
    PlaceOrderStores(orders, request, catalog, Returned, Returned, orderId, now);
    PlaceOrderFinalStatus(orders, request, catalog, Returned, Returned, orderId, now);
    CompletedDeliverySettlesOrder(placed.orders, d, Deliveries.Slept, later);
  }

  class DeliveryEventListener {
    /** The order table shared with the order service. */
    const orders: Repository<Order>

    ghost predicate Valid()
      reads this, orders
    {
      orders.Valid() && OrdersKeyed(orders.rows)
    }

    constructor (orders: Repository<Order>)
      requires orders.Valid() && OrdersKeyed(orders.rows)
      ensures this.orders == orders && Valid()
    {
      this.orders := orders;
    }

    /** Handles one message from the topic; an unknown order's exception
        escapes the handler. */
    method HandleDeliveryEvent(msg: Message) returns (r: Outcome<OrderError>)
      requires Valid()
      modifies orders
      ensures Valid()
      ensures var applied := ApplyDeliveryEvent(old(orders.rows), msg);
        && (applied.Failure? ==> r == Fail(applied.error) && orders.rows == old(orders.rows))
        && (applied.Success? ==> r == Pass && orders.rows == applied.value)
      ensures orders.order == old(orders.order)
    {
      match msg
      case Malformed =>
        return Pass;
      case Event(id, status) =>
        if id !in orders.rows {
          return Fail(OrderNotFoundFor(id));
        }
        if status == DeliveryStatus.Delivered {
          UpdateStatusQuery(orders, id, OrderStatus.Delivered);
        } else if status == DeliveryStatus.Failed {
          UpdateStatusQuery(orders, id, Canceled);
        }
        return Pass;
    }
  }
}
