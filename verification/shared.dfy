/** Types that several services of the application have in common. */
module Shared {

  /** A UUID, held as its canonical text (which is what the services
      concatenate into their exception messages). */
  type Uuid = string

  /** A `LocalDateTime.now()` reading, taken as an input. */
  type Timestamp = nat

  /** PaymentMode, identical in the order and payment services. */
  datatype PaymentMode = Cash | Card | PayPal

  /** DeliveryStatus of the delivery service. The order service declares
      its own DeliveryStatus enum, which is not part of this model; its
      listener tests an event's status for DELIVERED and FAILED, and the
      model gives events the delivery service's values. */
  datatype DeliveryStatus = InProgress | Delivered | Failed
}
