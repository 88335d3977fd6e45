/** The order service: it checks an order's items against the catalog,
    stores the order, charges it and starts its delivery, updates its
    status, and reads it back together with what the other services know
    about it. Calls to the other services are recorded in `calls`; what
    each call returns is an input. */
module OrderServices {
  import opened Wrappers
  import opened Shared
  import opened Persistence
  import opened Orders
  import Dishes
  import Payments
  import Deliveries

  class OrderService {
    /** The order table; the delivery event listener updates the same one. */
    const orders: Repository<Order>
    /** Every call made to the restaurant, payment and delivery services, oldest first. */
    var calls: seq<RemoteCall>

    ghost predicate Valid()
      reads this, orders
    {
      orders.Valid() && OrdersKeyed(orders.rows)
    }

    constructor (orders: Repository<Order>)
      requires orders.Valid() && OrdersKeyed(orders.rows)
      ensures this.orders == orders && calls == [] && Valid()
    {
      this.orders := orders;
      calls := [];
    }

    /** Raises OrderNotFound for an unknown id; otherwise writes the status
        with the repository's update query, whatever the current status. */
    method UpdateOrderStatus(orderId: Uuid, newStatus: OrderStatus) returns (r: Outcome<OrderError>)
      requires Valid()
      modifies orders
      ensures Valid()
      ensures orderId !in old(orders.rows) ==> r == Fail(OrderNotFoundFor(orderId)) && unchanged(orders)
      ensures orderId in old(orders.rows) ==>
        r == Pass && orders.rows == WithStatus(old(orders.rows), orderId, newStatus) && orders.order == old(orders.order)
    {
      if orderId !in orders.rows {
        return Fail(OrderNotFoundFor(orderId));
      }
      UpdateStatusQuery(orders, orderId, newStatus);
      return Pass;
    }

    /** Rejects a null or empty item list before any lookup, then looks up
        each line's dish in turn and prices the line from the catalog,
        stopping at the first dish that is missing or unavailable. */
    method ValidateAndPrepareOrderItems(request: OrderRequest, catalog: Uuid -> DishLookup)
      returns (r: Result<seq<OrderItem>, OrderError>)
      modifies this
      ensures r == ValidateItems(request.items, catalog)
      ensures calls == old(calls) + ValidationCalls(request.items, catalog)
    {
      if request.items.None? || request.items.value == [] {
        return Failure(EmptyOrder("Order must have at least one item."));
      }
      var items := request.items.value;
      var prepared: seq<OrderItem> := [];
      var made: seq<RemoteCall> := [];
      var i := 0;
      while i < |items|
        invariant 0 <= i <= |items|
        invariant |prepared| == i
        invariant forall j | 0 <= j < i ::
          Orderable(catalog(items[j].dishId))
          && prepared[j] == OrderItem(items[j].dishId, items[j].quantity, catalog(items[j].dishId).body.price)
        invariant |made| == i && forall j | 0 <= j < i :: made[j] == GetDishById(items[j].dishId)
      {
        var item := items[i];
        var response := catalog(item.dishId);
        made := made + [GetDishById(item.dishId)];
        if response.NotFound? || !response.body.availability {
          PrepareItemsFailsAt(items, catalog, i);
          LookedUpThrough(items, catalog, made, i);
          calls := calls + made;
          return Failure(ItemError(item.dishId, response));
        }
        prepared := prepared + [OrderItem(item.dishId, item.quantity, response.body.price)];
        i := i + 1;
      }
      PreparedEveryLine(items, catalog, prepared, made);
      calls := calls + made;
      return Success(prepared);
    }

    /** Stores a new PLACED order for the request's user and restaurant. */
    method SaveOrder(request: OrderRequest, items: seq<OrderItem>, totalPrice: int, orderId: Uuid, now: Timestamp)
      returns (order: Order)
      requires Valid() && orderId !in orders.rows
      modifies orders
      ensures Valid()
      ensures order == Order(orderId, request.userId, request.restaurantId, totalPrice, Placed, now, items)
      ensures orders.rows == old(orders.rows)[orderId := order]
      ensures orders.order == old(orders.order) + [orderId]
    {
      order := Order(orderId, request.userId, request.restaurantId, totalPrice, Placed, now, items);
      orders.Save(orderId, order);
    }

    /** Asks the payment service to charge the order's total in the
        request's payment mode; PAYED if the call returns, CANCELED if it
        throws. */
    method ProcessPayment(order: Order, request: OrderRequest, payment: CallOutcome) returns (paid: bool)
      requires Valid() && order.orderId in orders.rows
      modifies this, orders
      ensures Valid()
      ensures paid <==> payment == Returned
      ensures orders.rows == WithStatus(old(orders.rows), order.orderId, if paid then Payed else Canceled)
      ensures orders.order == old(orders.order)
      ensures calls == old(calls) + [Pay(PaymentFor(order, request.paymentMode))]
    {
      calls := calls + [Pay(PaymentFor(order, request.paymentMode))];
      if payment == Returned {
        var _ := UpdateOrderStatus(order.orderId, Payed);
        return true;
      } else {
        var _ := UpdateOrderStatus(order.orderId, Canceled);
        return false;
      }
    }

    /** Asks the delivery service to deliver the order; DELIVERING if the
        call returns, nothing changes if it throws. */
    method InitiateDelivery(order: Order, delivery: CallOutcome)
      requires Valid() && order.orderId in orders.rows
      modifies this, orders
      ensures Valid()
      ensures orders.rows == if delivery == Returned then WithStatus(old(orders.rows), order.orderId, Delivering) else old(orders.rows)
      ensures orders.order == old(orders.order)
      ensures calls == old(calls) + [RemoteCall.InitiateDelivery(DeliveryFor(order))]
    {
      calls := calls + [RemoteCall.InitiateDelivery(DeliveryFor(order))];
      if delivery == Returned {
        var _ := UpdateOrderStatus(order.orderId, Delivering);
      }
    }

    /** Stores, charges and dispatches an order whose lines were accepted. */
    method FulfilOrder(
      request: OrderRequest, items: seq<OrderItem>, payment: CallOutcome, delivery: CallOutcome,
      orderId: Uuid, now: Timestamp)
      requires Valid() && orderId !in orders.rows
      modifies this, orders
      ensures Valid()
      ensures var f := Fulfil(old(orders.rows), request, items, payment, delivery, orderId, now);
        orders.rows == f.orders && calls == old(calls) + f.calls
      ensures orders.order == old(orders.order) + [orderId]
    {
      var order := SaveOrder(request, items, TotalPrice(items), orderId, now);
      var paid := ProcessPayment(order, request, payment);
      if paid {
        InitiateDelivery(order, delivery);
      }
    }

    /** The whole order workflow; it does exactly what `PlaceOrder` says. */
    method ProcessOrder(
      request: OrderRequest, catalog: Uuid -> DishLookup, payment: CallOutcome, delivery: CallOutcome,
      orderId: Uuid, now: Timestamp)
      returns (r: Result<Uuid, OrderError>)
      requires Valid() && orderId !in orders.rows
      modifies this, orders
      ensures Valid()
      ensures var p := PlaceOrder(old(orders.rows), request, catalog, payment, delivery, orderId, now);
        r == p.result && orders.rows == p.orders && calls == old(calls) + p.calls
      ensures orders.order == if r.Success? then old(orders.order) + [orderId] else old(orders.order)
    {
      ghost var lookups := ValidationCalls(request.items, catalog);
      var validated := ValidateAndPrepareOrderItems(request, catalog);
      if validated.Failure? {
        return Failure(validated.error);
      }
      ghost var f := Fulfil(orders.rows, request, validated.value, payment, delivery, orderId, now);
      FulfilOrder(request, validated.value, payment, delivery, orderId, now);
      AppendAssociates(old(calls), lookups, f.calls);
      return Success(orderId);
    }

    /** Looks up each line's dish in turn and keeps the bodies the catalog
        returns, skipping lines whose dish it no longer returns. */
    method FetchDishesForOrderItems(items: seq<OrderItem>, catalog: Uuid -> DishLookup)
      returns (dishes: seq<Dishes.DishResponse>)
      modifies this
      ensures dishes == FoundDishes(items, catalog)
      ensures calls == old(calls) + DishLookups(items)
    {
      dishes := [];
      var made: seq<RemoteCall> := [];
      var i := 0;
      while i < |items|
        invariant 0 <= i <= |items|
        invariant dishes == FoundDishes(items[..i], catalog)
        invariant made == DishLookups(items[..i])
        invariant calls == old(calls)
      {
        var response := catalog(items[i].dishId);
        made := made + [GetDishById(items[i].dishId)];
        if response.Found? {
          dishes := dishes + [response.body];
        }
        FoundDishesStep(items, catalog, i);
        i := i + 1;
      }
      assert items[..i] == items;
      calls := calls + made;
    }

    /** Reads an order back with its dishes and with the payment and
        delivery details the other services return (None when they return
        no body). */
    method GetOrderDetails(
      orderId: Uuid, catalog: Uuid -> DishLookup,
      paymentDetails: Option<Payments.PaymentResponse>, deliveryDetails: Option<Deliveries.DeliveryResponse>)
      returns (r: Result<OrderResponse, OrderError>)
      requires Valid()
      modifies this
      ensures orderId !in orders.rows ==> r == Failure(OrderNotFoundFor(orderId)) && calls == old(calls)
      ensures orderId in orders.rows ==>
        var o := orders.rows[orderId];
        && r == Success(OrderResponse(orderId, o.timestamp, o.status, o.totalPrice,
                                      FoundDishes(o.orderItems, catalog), paymentDetails, deliveryDetails))
        && calls == old(calls) + DishLookups(o.orderItems) + [GetPaymentDetails(orderId), GetDeliveryDetails(orderId)]
    {
      if orderId !in orders.rows {
        return Failure(OrderNotFoundFor(orderId));
      }
      var order := orders.rows[orderId];
      var dishes := FetchDishesForOrderItems(order.orderItems, catalog);
      calls := calls + [GetPaymentDetails(order.orderId)];
      calls := calls + [GetDeliveryDetails(order.orderId)];
      return Success(OrderResponse(order.orderId, order.timestamp, order.status, order.totalPrice,
                                   dishes, paymentDetails, deliveryDetails));
    }
  }
}
