/** One order from placement to delivery across the three services that
    take part: the order service, the delivery service and the order
    service's delivery event listener. */
module OrderLifecycle {
  import opened Wrappers
  import opened Shared
  import opened Persistence
  import opened Orders
  import opened OrderServices
  import opened DeliveryEvents
  import Deliveries

  /** The delivery service asked to deliver `request`: it stores the
      delivery, the delivery task sleeps to the end, and the one message it
      publishes names the order and DELIVERED. */
  method DeliverToEnd(request: Deliveries.DeliveryRequest, deliveryId: Uuid, startedAt: Timestamp, deliveredAt: Timestamp)
    returns (published: Message)
    ensures published == Event(request.orderId, Shared.Delivered)
  {
    var deliveries := new Repository<Deliveries.DeliveryDetails>();
    var courier := new Deliveries.DeliveryService(deliveries);
    courier.ProcessDelivery(request, deliveryId, startedAt);
    courier.Complete(deliveryId, Deliveries.Slept, true, deliveredAt);
    assert courier.topic == [Deliveries.DeliveryEvent(request.orderId, Shared.Delivered)];
    published := Serialize(courier.topic[0]);
  }

  /** The order is placed with every remote call returning, the delivery
      service delivers it, and the listener reads the published event. The
      order service and the listener hold the same order table, so the
      order placed as DELIVERING is the one the listener moves to
      DELIVERED. */
  method PlaceAndDeliver(
    request: OrderRequest, catalog: Uuid -> DishLookup, orderId: Uuid, deliveryId: Uuid,
    placedAt: Timestamp, deliveredAt: Timestamp)
    returns (r: Result<Uuid, OrderError>, placed: OrderStatus, settled: OrderStatus)
    requires ValidateItems(request.items, catalog).Success?
    ensures r == Success(orderId)
    ensures placed == Delivering && settled == OrderStatus.Delivered
  {
    var orders := new Repository<Order>();
    var service := new OrderService(orders);
    var listener := new DeliveryEventListener(orders);

    r := service.ProcessOrder(request, catalog, Returned, Returned, orderId, placedAt);
    PlaceOrderStores(map[], request, catalog, Returned, Returned, orderId, placedAt);
    PlaceOrderFinalStatus(map[], request, catalog, Returned, Returned, orderId, placedAt);
    placed := orders.rows[orderId].status;

    var published := DeliverToEnd(DeliveryFor(orders.rows[orderId]), deliveryId, placedAt, deliveredAt);
    var handled := listener.HandleDeliveryEvent(published);
    settled := orders.rows[orderId].status;
  }
}
