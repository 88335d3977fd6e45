/** DeliveryService: starts a delivery record and, from a task that runs
    later, completes it and announces the outcome on "delivery-topic". The
    task's wait and its thread are not modelled: `Complete` is the delivery task's
    body, run once per started delivery. */
module Deliveries {
  import opened Wrappers
  import opened Shared
  import opened Persistence

  datatype DeliveryDetails = DeliveryDetails(
    deliveryId: Uuid, orderId: Uuid, restaurantId: Uuid, userId: string,
    deliveryStatus: DeliveryStatus, initiatedAt: Timestamp, deliveredAt: Option<Timestamp>)

  /** Also the request the order service sends to start a delivery. */
  datatype DeliveryRequest = DeliveryRequest(orderId: Uuid, userId: string, restaurantId: Uuid)

  /** The view of a delivery the order service fetches for an order's details. */
  datatype DeliveryResponse = DeliveryResponse(
    deliveryId: Uuid, deliveryStatus: DeliveryStatus, initiatedAt: Timestamp, deliveredAt: Option<Timestamp>)

  /** The message published on the topic. */
  datatype DeliveryEvent = DeliveryEvent(orderId: Uuid, status: DeliveryStatus)

  /** How the delivery task's sleep ended: it ran out normally, or the thread was
      interrupted. */
  datatype Completion = Slept | Interrupted

  /** What one run of the delivery task leaves behind: the saved record and the
      events sent. */
  datatype Effect = Effect(record: DeliveryDetails, events: seq<DeliveryEvent>)

  /** A record moves out of IN_PROGRESS to DELIVERED or FAILED, keeps every
      other field, and carries a delivery time exactly when DELIVERED. */
  ghost predicate Completes(before: DeliveryDetails, after: DeliveryDetails) {
    && before.deliveryStatus == InProgress
    && (after.deliveryStatus == Delivered || after.deliveryStatus == Failed)
    && after.(deliveryStatus := before.deliveryStatus, deliveredAt := before.deliveredAt) == before
    && (after.deliveredAt.Some? <==> after.deliveryStatus == Delivered)
  }

  /** The body of the delivery task started for `d`; `serialized` says whether
      turning the event into JSON succeeded. */
  function RunTask(d: DeliveryDetails, how: Completion, serialized: bool, now: Timestamp): (r: Effect)
    ensures d.deliveryStatus == InProgress && d.deliveredAt == None ==> Completes(d, r.record)
    ensures how == Slept ==> r.record.deliveryStatus == Delivered && r.record.deliveredAt == Some(now)
    ensures how == Interrupted ==> r.record.deliveryStatus == Failed && r.record.deliveredAt == d.deliveredAt
    ensures |r.events| <= 1 && (|r.events| == 1 <==> serialized)
    ensures forall e | e in r.events :: e == DeliveryEvent(d.orderId, r.record.deliveryStatus)
  {
    match how
    case Slept =>
      var done := d.(deliveryStatus := Delivered, deliveredAt := Some(now));
      Effect(done, if serialized then [DeliveryEvent(done.orderId, Delivered)] else [])
    case Interrupted =>
      var failed := d.(deliveryStatus := Failed);
      Effect(failed, if serialized then [DeliveryEvent(failed.orderId, Failed)] else [])
  }

  /** Every delivery is stored under its own id. */
  ghost predicate DeliveriesKeyed(rows: map<Uuid, DeliveryDetails>) {
    forall k | k in rows :: rows[k].deliveryId == k
  }

  class DeliveryService {
    const deliveries: Repository<DeliveryDetails>
    /** Everything sent to "delivery-topic", oldest first. */
    var topic: seq<DeliveryEvent>
    /** The deliveries whose task has been started and has not yet run. */
    var pending: set<Uuid>

    ghost predicate Valid()
      reads this, deliveries
    {
      && deliveries.Valid()
      && DeliveriesKeyed(deliveries.rows)
      && forall id | id in pending ::
           id in deliveries.rows
           && deliveries.rows[id].deliveryStatus == InProgress
           && deliveries.rows[id].deliveredAt == None
    }

    constructor (deliveries: Repository<DeliveryDetails>)
      ensures this.deliveries == deliveries && topic == [] && pending == {}
    {
      this.deliveries := deliveries;
      topic, pending := [], {};
    }

    /** Stores an IN_PROGRESS record under the fresh id `newId` (the UUID
        the persistence layer generates), stamped `now`, and starts its task. */
    method ProcessDelivery(request: DeliveryRequest, newId: Uuid, now: Timestamp)
      requires Valid() && newId !in deliveries.rows
      modifies this, deliveries
      ensures Valid()
      ensures deliveries.rows == old(deliveries.rows)[newId :=
        DeliveryDetails(newId, request.orderId, request.restaurantId, request.userId, InProgress, now, None)]
      ensures pending == old(pending) + {newId} && topic == old(topic)
    {
      var delivery := DeliveryDetails(newId, request.orderId, request.restaurantId, request.userId, InProgress, now, None);
      deliveries.Save(newId, delivery);
      pending := pending + {newId};
    }

    /** The started task of delivery `id` runs: the record is completed and
        saved, and at most one event is published. */
    method Complete(id: Uuid, how: Completion, serialized: bool, now: Timestamp)
      requires Valid() && id in pending
      modifies this, deliveries
      ensures Valid()
      ensures var effect := RunTask(old(deliveries.rows[id]), how, serialized, now);
        && deliveries.rows == old(deliveries.rows)[id := effect.record]
        && Completes(old(deliveries.rows[id]), effect.record)
        && topic == old(topic) + effect.events
      ensures pending == old(pending) - {id}
    {
      var delivery := deliveries.rows[id];
      match how {
        case Slept =>
          delivery := delivery.(deliveryStatus := Delivered, deliveredAt := Some(now));
          deliveries.Save(id, delivery);
          if serialized {
            topic := topic + [DeliveryEvent(delivery.orderId, Delivered)];
          }
        case Interrupted =>
          delivery := delivery.(deliveryStatus := Failed);
          deliveries.Save(id, delivery);
          if serialized {
            topic := topic + [DeliveryEvent(delivery.orderId, Failed)];
          }
      }
      pending := pending - {id};
    }
  }
}
