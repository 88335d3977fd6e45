# Food delivery services: a Dafny model

This project models the business core of a food-delivery system built from
Spring microservices:

- the **restaurant service** keeps restaurants and their dishes;
- the **payment service** records a payment for each order;
- the **delivery service** records a delivery and completes it from a background task, publishing a
  delivery event on the `delivery-topic` topic;
- the **order service** runs the order workflow. It checks the requested
  dishes against the catalog and prices them from it, stores the order as
  PLACED, charges it (PAYED or CANCELED), asks for delivery (DELIVERING),
  and lets its delivery event listener move the order to DELIVERED or
  CANCELED.

Each JPA repository is a `Persistence.Repository<T>`, a class holding a map
from id to record plus a listing order for `findAll`. The source asks for
no order, so the model fixes insertion order as one possible listing order. The
services are classes holding a reference to their repository. The order
service and its delivery event listener hold the same
`Repository<Order>` object, as the two Spring beans share one table.

Several inputs are not modelled by the system itself:

- Ids are strings. A fresh id generated by the persistence layer is a method
  parameter that is not yet a key.
- Clock readings are `Timestamp` parameters.
- Money is whole cents (`int`).

The order service calls the restaurant, payment and delivery services. Their
outcomes are inputs:

- The catalog is a function from dish id to `DishLookup`, either `NotFound`
  or `Found(body)`.
- Payment and delivery are each a `CallOutcome`, either `Returned` or `Threw`.

Each call the order service makes is appended to its `calls` log. This lets
the contracts say which calls happen, in which order, and with which
arguments.

Files: `wrappers.dfy` (Option, Result, Outcome), `shared.dfy` (ids, enums),
`persistence.dfy` (the repository), `restaurant_service.dfy`,
`dish_service.dfy`, `payment_service.dfy`, `delivery_service.dfy`,
`order_model.dfy` (order entities and the pure workflow), `order_service.dfy`
(the order service class), `delivery_event_listener.dfy`, and
`order_lifecycle.dfy` (one order end to end, through a shared table).

The model keeps the following behaviours of the code as written, including
where the code's own comments or declarations say otherwise:

- The listener has no guard for final statuses. A FAILED event after a
  DELIVERED one cancels the order (`DeliveryEvents.FailedAfterDeliveredCancels`).
- An event for an unknown order raises OrderNotFound out of the handler.
- The listener writes only the status; it records no delivery time on the order.
- `updateOrderStatus` writes any status without checking the transition.
- The service writes status PAYED, although the `OrderStatus` enum declared
  beside it lists no such value. `Orders.OrderStatus` includes `Payed`.
- The order service's interface declares other method names. The model
  follows `OrderService.java`, and the test that calls `processOrder` with
  two arguments is not followed.
- The delivery entity declares its user id as a UUID (DeliveryDetails.java:44), and so does the order service's delivery request, while the delivery service's own request declares it as a String (DeliveryRequest.java:25 of the delivery service) and `processDelivery` copies one into the other (DeliveryService.java:41). The model sidesteps the mismatch: `Deliveries.DeliveryDetails.userId` is a string like every other id, since all ids are `Shared.Uuid`, a string.
- `saveOrder` reads a user id from the order request, which the request
  class shown does not declare. `Orders.OrderRequest` carries `userId`.
- The Javadoc of `updateDish` (DishService.java:130-140) calls it a partial update, but it overwrites every field
  and the restaurant link. `Dishes.DishService.UpdateDish` overwrites them all.

## Model

| member | source | states |
|---|---|---|
| Restaurants.RestaurantService.GetAllRestaurants | RestaurantService/src/main/java/com/fooddeliveryapp/RestaurantService/services/RestaurantService.java:40-56 | one response per stored restaurant, in repository order, each the stored restaurant's fields; every stored restaurant appears |
| Restaurants.RestaurantService.GetRestaurantById | RestaurantService/src/main/java/com/fooddeliveryapp/RestaurantService/services/RestaurantService.java:68-80 | fails exactly when the id is absent, with "Restaurant with the given ID not found. ID: <id>"; otherwise returns the stored restaurant's fields under that id |
| Restaurants.RestaurantService.AddRestaurant | RestaurantService/src/main/java/com/fooddeliveryapp/RestaurantService/services/RestaurantService.java:91-106 | stores one new restaurant with the request's name, address and phone under the fresh id, appends it to the list order, and a lookup of the returned id gives it back |
| Restaurants.RestaurantService.UpdateRestaurant | RestaurantService/src/main/java/com/fooddeliveryapp/RestaurantService/services/RestaurantService.java:119-137 | unknown id: not-found error and the table is unchanged; otherwise name, address and phone are replaced, the id and list order kept, other restaurants untouched, and the response is the updated record |
| Restaurants.RestaurantService.DeleteRestaurant | RestaurantService/src/main/java/com/fooddeliveryapp/RestaurantService/services/RestaurantService.java:148-157 | an existing id is removed and nothing else, and the listing keeps the remaining restaurants in their order; an unknown id raises RestaurantNotFound and deletes nothing |
| Dishes.DishesOf | RestaurantService/src/main/java/com/fooddeliveryapp/RestaurantService/services/DishService.java:47 | the query returns at most as many dishes as are stored, and every dish it returns belongs to the restaurant |
| Dishes.DishesOfMembers | RestaurantService/src/main/java/com/fooddeliveryapp/RestaurantService/services/DishService.java:47 | a dish is in the query result exactly when it is stored and linked to the restaurant |
| Dishes.DishesOfAppend | RestaurantService/src/main/java/com/fooddeliveryapp/RestaurantService/services/DishService.java:47 | selecting a restaurant's dishes distributes over concatenation, so a newly added dish appears last in its restaurant's list |
| Dishes.DishService.GetAllDishesForRestaurant | RestaurantService/src/main/java/com/fooddeliveryapp/RestaurantService/services/DishService.java:44-65 | one response per stored dish of that restaurant, in storage order, copying id, name, price, description and availability; every such dish appears |
| Dishes.DishService.GetDishById | RestaurantService/src/main/java/com/fooddeliveryapp/RestaurantService/services/DishService.java:77-96 | fails exactly when the id is absent, with "Dish with a given ID not found. ID: <id>"; otherwise returns the stored dish's fields |
| Dishes.DishService.AddDishToRestaurant | RestaurantService/src/main/java/com/fooddeliveryapp/RestaurantService/services/DishService.java:107-128 | unknown restaurant: RestaurantNotFound and no dish stored; otherwise one new dish with the request's fields linked to the restaurant, returned id, appended to the list, found again by GetDishById |
| Dishes.DishService.UpdateDish | RestaurantService/src/main/java/com/fooddeliveryapp/RestaurantService/services/DishService.java:143-173 | restaurant checked before dish, each missing one raising its own not-found error with nothing saved; otherwise all four fields and the restaurant link overwritten, id and order kept, response mirrors the request |
| Payments.PaymentsFor | PaymentService/src/main/java/com/fooddeliveryservice/PaymentService/repositories/PaymentRepository.java:28 | the stored payments for an order and no others |
| Payments.PaymentsForAppend | PaymentService/src/main/java/com/fooddeliveryservice/PaymentService/repositories/PaymentRepository.java:28 | selecting an order's payments distributes over concatenation |
| Payments.FindByOrderId | PaymentService/src/main/java/com/fooddeliveryservice/PaymentService/repositories/PaymentRepository.java:28 | the Optional lookup finds a payment exactly when one stored payment matches, and that payment is for the order; it reports not-found exactly when none matches, and a non-unique result otherwise |
| Payments.FoundPaymentIsTheOnlyOne | PaymentService/src/main/java/com/fooddeliveryservice/PaymentService/repositories/PaymentRepository.java:28 | a payment the lookup finds is stored, and every stored payment of that order is that one |
| Payments.FirstPaymentIsFound | PaymentService/src/main/java/com/fooddeliveryservice/PaymentService/repositories/PaymentRepository.java:28 | once the first payment for an order is added, the single-result lookup by order id finds exactly it |
| Payments.PaymentService.GetPaymentDetailsByOrderId | PaymentService/src/main/java/com/fooddeliveryservice/PaymentService/services/PaymentService.java:36-55 | no payment for the order: "Payment with an order ID of <id> not found"; success exactly when one payment matches, and then the response carries its id, mode, status and timestamp as payedOn |
| Payments.PaymentService.CreatePayment | PaymentService/src/main/java/com/fooddeliveryservice/PaymentService/services/PaymentService.java:71-86 | stores exactly one new record with the request's order id, amount and mode, status SUCCESSFUL, stamped now, and returns its id; for an order's first payment the lookup by order id then reports it with status SUCCESSFUL |
| Deliveries.RunTask | DeliveryService/src/main/java/com/fooddeliveryapp/DeliveryService/services/DeliveryService.java:48-80 | a task that sleeps to the end makes the record DELIVERED with the delivery time; an interrupted one makes it FAILED with no delivery time; only IN_PROGRESS to DELIVERED or FAILED, nothing else changes; at most one event, published exactly when serialisation succeeds, naming the record's order and new status |
| Deliveries.DeliveryService.ProcessDelivery | DeliveryService/src/main/java/com/fooddeliveryapp/DeliveryService/services/DeliveryService.java:35-48 | stores one IN_PROGRESS record with the request's order, restaurant and user, no delivery time, and starts its task without publishing anything |
| Deliveries.DeliveryService.Complete | DeliveryService/src/main/java/com/fooddeliveryapp/DeliveryService/services/DeliveryService.java:48-80 | the started task's record is replaced by the delivery task's completed record and the topic grows by exactly the delivery task's events |
| Orders.WithStatus | OrderService/src/main/java/com/example/fooddeliveryapp/OrderService/repositories/OrderRepository.java:35-38 | the update query sets the status of the named order only, changes no other field, no other order and no key |
| Orders.WithStatusTwice | OrderService/src/main/java/com/example/fooddeliveryapp/OrderService/repositories/OrderRepository.java:37 | writing the same status twice is writing it once |
| Orders.UpdateStatusQuery | OrderService/src/main/java/com/example/fooddeliveryapp/OrderService/repositories/OrderRepository.java:35-38 | the query run on the shared table leaves it equal to WithStatus of the old table |
| Orders.PrepareItems | OrderService/src/main/java/com/example/fooddeliveryapp/OrderService/services/OrderService.java:204-222 | succeeds exactly when every line's dish is found and available; then one priced line per requested line, in order, keeping dish id and quantity and taking the price from the catalog |
| Orders.CatalogCalls | OrderService/src/main/java/com/example/fooddeliveryapp/OrderService/services/OrderService.java:204-205 | lookups go in line order, one per line checked, and every line is looked up when the check succeeds |
| Orders.PrepareItemsFailsAt | OrderService/src/main/java/com/example/fooddeliveryapp/OrderService/services/OrderService.java:204-216 | the first unorderable line decides the error: DishNotFound "Dish with ID <id> not found." or DishNotAvailable "Dish with ID <id> is not available."; exactly that line and those before it are looked up |
| Orders.ValidateItems | OrderService/src/main/java/com/example/fooddeliveryapp/OrderService/services/OrderService.java:198-223 | a null or empty list raises EmptyOrder "Order must have at least one item."; a non-empty list gets exactly the per-line check, so the first unknown or unavailable dish raises its DishNotFound or DishNotAvailable and accepted lines carry the catalog's price; success exactly when the list is non-empty and every line is orderable, with one priced line per requested line |
| Orders.TotalPrice | OrderService/src/main/java/com/example/fooddeliveryapp/OrderService/services/OrderService.java:225-229 | lines with non-negative prices and quantities have a non-negative total |
| Orders.TotalPriceAppend | OrderService/src/main/java/com/example/fooddeliveryapp/OrderService/services/OrderService.java:225-229 | the total of two runs of lines is the sum of their totals |
| Orders.TotalPricePositive | OrderService/src/main/java/com/example/fooddeliveryapp/OrderService/services/OrderService.java:225-229 | lines with positive prices and quantities of at least one have a positive total, the amount the payment request demands |
| Orders.Fulfil | OrderService/src/main/java/com/example/fooddeliveryapp/OrderService/services/OrderService.java:129-137 | saving, charging and dispatching return the order id, add exactly that order and change no other, store the new order with only its status changed and never left PLACED; the first call is the payment for the lines' total in the request's mode, and exactly when payment returned a second call follows, the delivery request for the order's id, user and restaurant |
| Orders.PlaceOrder | OrderService/src/main/java/com/example/fooddeliveryapp/OrderService/services/OrderService.java:124-142 | the workflow succeeds exactly when the item check does, then returning the order id; a rejected order leaves the table unchanged; the check's dish lookups come first in the calls made |
| Orders.PlaceOrderRejects | OrderService/src/main/java/com/example/fooddeliveryapp/OrderService/services/OrderService.java:124-127 | a failed check raises its own error, stores nothing and makes only dish lookups, no payment or delivery call; a null or empty list raises EmptyOrder "Order must have at least one item." before any call |
| Orders.PlaceOrderStores | OrderService/src/main/java/com/example/fooddeliveryapp/OrderService/services/OrderService.java:124-131 | an accepted order returns its id and adds exactly one order under it, with the request's user and restaurant, the priced lines, their total and the time; no other order changes |
| Orders.PlaceOrderFinalStatus | OrderService/src/main/java/com/example/fooddeliveryapp/OrderService/services/OrderService.java:133-137 | an accepted order ends CANCELED iff payment threw, PAYED iff payment returned and delivery threw, DELIVERING iff both returned, and never stays PLACED |
| Orders.PlaceOrderCalls | OrderService/src/main/java/com/example/fooddeliveryapp/OrderService/services/OrderService.java:133-137 | payment is asked for the stored total in the request's mode; delivery of the stored order's id, user and restaurant is asked for iff payment returned, and never after a failed payment |
| Orders.FoundDishes | OrderService/src/main/java/com/example/fooddeliveryapp/OrderService/services/OrderService.java:170-184 | at most one dish per line |
| Orders.FoundDishesAllFound | OrderService/src/main/java/com/example/fooddeliveryapp/OrderService/services/OrderService.java:170-184 | when every line's dish is found, exactly the catalog's bodies, one per line, in line order |
| Orders.FoundDishesReportsFound | OrderService/src/main/java/com/example/fooddeliveryapp/OrderService/services/OrderService.java:173-178 | every line whose dish the catalog returns has that body in the response; only lines without a body are skipped |
| Orders.FoundDishesStep | OrderService/src/main/java/com/example/fooddeliveryapp/OrderService/services/OrderService.java:173-178 | one more line adds its body to the response exactly when the catalog returns one, and adds one lookup |
| Orders.FoundDishesFromCatalog | OrderService/src/main/java/com/example/fooddeliveryapp/OrderService/services/OrderService.java:173-178 | every dish reported is the catalog's body for one of the order's lines |
| OrderServices.OrderService.UpdateOrderStatus | OrderService/src/main/java/com/example/fooddeliveryapp/OrderService/services/OrderService.java:154-166 | unknown id: OrderNotFound "Order with an ID of <id> not found" and the table unchanged; otherwise exactly the status is written, whatever it was |
| OrderServices.OrderService.ValidateAndPrepareOrderItems | OrderService/src/main/java/com/example/fooddeliveryapp/OrderService/services/OrderService.java:198-223 | the loop returns what ValidateItems specifies and makes exactly its lookups (none for a null or empty list) |
| OrderServices.OrderService.SaveOrder | OrderService/src/main/java/com/example/fooddeliveryapp/OrderService/services/OrderService.java:231-245 | stores one PLACED order with the request's user and restaurant, the lines, total and time, under the fresh id, changing no other order |
| OrderServices.OrderService.ProcessPayment | OrderService/src/main/java/com/example/fooddeliveryapp/OrderService/services/OrderService.java:247-265 | asks payment for the order's total in the request's mode; reports success exactly when the call returns, and the order becomes PAYED or CANCELED accordingly |
| OrderServices.OrderService.InitiateDelivery | OrderService/src/main/java/com/example/fooddeliveryapp/OrderService/services/OrderService.java:267-282 | asks delivery for the order's id, user and restaurant; DELIVERING when the call returns, the table unchanged when it throws |
| OrderServices.OrderService.FulfilOrder | OrderService/src/main/java/com/example/fooddeliveryapp/OrderService/services/OrderService.java:129-137 | saving, charging and dispatching an accepted order leave the table and the calls exactly as Fulfil gives them, and the order is appended to the list order |
| OrderServices.OrderService.ProcessOrder | OrderService/src/main/java/com/example/fooddeliveryapp/OrderService/services/OrderService.java:124-142 | result, order table and calls made are exactly those PlaceOrder specifies |
| OrderServices.OrderService.FetchDishesForOrderItems | OrderService/src/main/java/com/example/fooddeliveryapp/OrderService/services/OrderService.java:170-184 | the loop returns FoundDishes and looks up every line once, in order |
| OrderServices.OrderService.GetOrderDetails | OrderService/src/main/java/com/example/fooddeliveryapp/OrderService/services/OrderService.java:69-99 | unknown id: OrderNotFound and no call; otherwise the stored order's id, time, status and total with its found dishes and the payment and delivery details, after the dish lookups and the two detail calls |
| DeliveryEvents.StatusFor | OrderService/src/main/java/com/example/fooddeliveryapp/OrderService/services/DeliveryEventListener.java:48-54 | DELIVERED maps to DELIVERED, FAILED to CANCELED, and IN_PROGRESS to no status change, each in both directions |
| DeliveryEvents.ApplyDeliveryEvent | OrderService/src/main/java/com/example/fooddeliveryapp/OrderService/services/DeliveryEventListener.java:36-58 | malformed message dropped with the table unchanged; unknown order raises OrderNotFound; DELIVERED sets DELIVERED, FAILED sets CANCELED, IN_PROGRESS changes nothing; only the named order's status changes |
| DeliveryEvents.RedeliveryIsHarmless | OrderService/src/main/java/com/example/fooddeliveryapp/OrderService/services/DeliveryEventListener.java:48-54 | handling the same message twice gives the table handling it once gives |
| DeliveryEvents.FailedAfterDeliveredCancels | OrderService/src/main/java/com/example/fooddeliveryapp/OrderService/services/DeliveryEventListener.java:48-54 | a FAILED event after a DELIVERED one leaves the order CANCELED |
| DeliveryEvents.CompletedDeliverySettlesOrder | DeliveryService/src/main/java/com/fooddeliveryapp/DeliveryService/services/DeliveryService.java:48-80 | the single event a completed delivery task publishes moves the stored order to DELIVERED, or to CANCELED when the delivery task was interrupted |
| DeliveryEvents.PlacedOrderIsDelivered | OrderService/src/main/java/com/example/fooddeliveryapp/OrderService/services/OrderService.java:133-137 | an order placed with payment and delivery returning is DELIVERING, and becomes DELIVERED when its delivery task sleeps to the end and its event is handled |
| DeliveryEvents.DeliveryEventListener.HandleDeliveryEvent | OrderService/src/main/java/com/example/fooddeliveryapp/OrderService/services/DeliveryEventListener.java:36-58 | the shared table becomes what ApplyDeliveryEvent gives, or stays as it was with the OrderNotFound exception escaping |
| OrderLifecycle.DeliverToEnd | DeliveryService/src/main/java/com/fooddeliveryapp/DeliveryService/services/DeliveryService.java:35-80 | a delivery started for an order, whose task sleeps to the end with serialisation succeeding, publishes a message naming that order and DELIVERED |
| OrderLifecycle.PlaceAndDeliver | OrderService/src/main/java/com/example/fooddeliveryapp/OrderService/services/DeliveryEventListener.java:48-50 | through one shared order table, an order placed with every call returning is DELIVERING, and the listener moves it to DELIVERED once the delivery service's task publishes its event |

## Left out

- HTTP controllers, security configuration, the gateway, the user service and the exception handlers that map exceptions to HTTP codes are outside the modelled core.
- The Feign clients and their fallbacks are reduced to the inputs `DishLookup` and `CallOutcome`. A fallback's 503 with no body is `NotFound` for a dish lookup. For payment, the fallback's 503 does not throw, so it counts as `Returned`: the order becomes PAYED. The delivery fallback (DeliveryServiceFallback.java:48-53) likewise returns 503 with no body and does not throw, so it also counts as `Returned`: the order is left DELIVERING although no delivery record exists and no delivery event will ever arrive for it.
- For the details calls in `getOrderDetails`, the body the other service returns (or none) is an input.
- A deserialised delivery event always has an order id and a status in the model: `DeliveryEvents.Message.Event` cannot hold nulls. In the source, a null order id makes `findById` throw and a null status would fail the comparison, and either exception reaches the Kafka listener container as OrderNotFound does. Null fields are excluded by the types.
- Kafka and JSON are reduced to data. The topic is the `topic` sequence. Serialisation success is a boolean input, and a message that does not deserialise is `Message.Malformed`.
- Threads, the ten-second sleep and interrupts are left out. Each delivery task runs as one call of `Deliveries.DeliveryService.Complete`, at a point the caller chooses. Its sleeping to the end or being interrupted is an input. No interleaving of tasks with other operations is modelled.
- The catalog is one function from dish id to lookup result, so two lines naming the same dish always get the same answer. The source makes one remote call per line (OrderService.java:204-205), and two such calls could answer differently if the dish changed in between.
- Money is held in cents as unbounded integers, not as Java doubles. Rounding of floating-point sums is not modelled.
- The clock is not modelled: every `now` is an input.
- UUID generation is not modelled. The fresh id is an input that is not already a key.
- JPA mapping and cascades are not modelled, nor are the NOT NULL `referenceNumber` column of payments and the foreign key from dishes to restaurants. Deleting a restaurant that still has dishes succeeds in the model, whereas the database may refuse it.
- Bean-validation annotations are not enforced by the model. Only the line quantity is bounded by an annotation (`@Min(1)` on OrderItemRequest.java:20-22). The price of a priced line comes from the catalog's dish, whose price carries only `@NotNull` (DishRequest.java:20-21). The `@Positive` price of OrderItemRequest.java:24-26 is never read by `processOrder`. So nothing guarantees the premise of `Orders.TotalPricePositive`: a dish priced 0 gives a total of 0, and the payment request's `@Positive` amount (PaymentRequest.java:27-29 of the order service) would then reject the charge. The model does not check that amount either.
- Restaurants.RestaurantService.GetAllRestaurants: the source calls `findAll` with no sort or ORDER BY, and the ids are generated UUIDs, so the order of the rows it returns is left to the database. The model lists rows in insertion order. The clauses that a new restaurant or dish is listed last (`AddRestaurant`, `AddDishToRestaurant`), and that an update or delete keeps the other rows' places (`UpdateRestaurant`, `UpdateDish`, `DeleteRestaurant`), describe that choice, not a promise of the source.
- `Dishes.DishesOf` takes the dishes in storage order. The order of a derived JPA query is not specified by the source.
- `Payments.FindByOrderId` reports a second payment for the same order as `NonUniqueResult`. This is what a single-result derived query does when several rows match. The source does not handle that case.
- Logging is not modelled.
- The delivery lookup by order id called from the delivery controller is not part of this model: the delivery service shown has no such method.
- The order's `OrderItem` back-reference to its order is not modelled. Items are values inside the order.
