/** PaymentService: records payments and looks them up by order. */
module Payments {
  import opened Wrappers
  import opened Shared
  import opened Persistence

  datatype PaymentStatus = Successful | Failed

  /** A stored payment; `amount` is in cents. */
  datatype PaymentDetails = PaymentDetails(
    paymentId: Uuid, orderId: Uuid, paymentMode: PaymentMode,
    timestamp: Timestamp, status: PaymentStatus, amount: int)

  /** Also the request the order service sends to charge an order. */
  datatype PaymentRequest = PaymentRequest(orderId: Uuid, amount: int, paymentMode: PaymentMode)

  datatype PaymentResponse = PaymentResponse(paymentId: Uuid, paymentMode: PaymentMode, status: PaymentStatus, payedOn: Timestamp)

  /** PaymentNotFoundException, and the exception Spring Data raises when a
      query declared to return at most one row matches several. */
  datatype PaymentError = PaymentNotFound(message: string) | NonUniqueResult(orderId: Uuid)

  function PaymentNotFoundFor(orderId: Uuid): PaymentError {
    PaymentNotFound("Payment with an order ID of " + orderId + " not found")
  }

  function ToPaymentResponse(p: PaymentDetails): PaymentResponse {
    PaymentResponse(p.paymentId, p.paymentMode, p.status, p.timestamp)
  }

  /** The payments of one order, in repository order. */
  function PaymentsFor(payments: seq<PaymentDetails>, orderId: Uuid): (r: seq<PaymentDetails>)
    ensures forall p :: p in r <==> p in payments && p.orderId == orderId
  {
    if payments == [] then []
    else if payments[0].orderId == orderId then [payments[0]] + PaymentsFor(payments[1..], orderId)
    else PaymentsFor(payments[1..], orderId)
  }

  lemma {:induction false} PaymentsForAppend(a: seq<PaymentDetails>, b: seq<PaymentDetails>, orderId: Uuid)
    ensures PaymentsFor(a + b, orderId) == PaymentsFor(a, orderId) + PaymentsFor(b, orderId)
  {
    if a != [] {
      assert (a + b)[1..] == a[1..] + b;
      PaymentsForAppend(a[1..], b, orderId);
    } else {
      assert a + b == b;
    }
  }

  /** The repository query `findByOrderId`, which returns an Optional:
      no row is an empty Optional, several rows are an error. */
  function FindByOrderId(payments: seq<PaymentDetails>, orderId: Uuid): (r: Result<PaymentDetails, PaymentError>)
    ensures r.Success? <==> |PaymentsFor(payments, orderId)| == 1
    ensures r.Success? ==> r.value.orderId == orderId
    ensures r.Failure? ==> (r.error.PaymentNotFound? <==> PaymentsFor(payments, orderId) == [])
  {
    var found := PaymentsFor(payments, orderId);
    if |found| == 0 then Failure(PaymentNotFoundFor(orderId))
    else if |found| == 1 then assert found[0] in found; Success(found[0])
    else Failure(NonUniqueResult(orderId))
  }

  /** A payment the lookup by order finds is a stored payment of that
      order, and the only one. */
  lemma {:induction false} FoundPaymentIsTheOnlyOne(payments: seq<PaymentDetails>, orderId: Uuid, p: PaymentDetails)
    requires FindByOrderId(payments, orderId).Success?
    requires p in payments && p.orderId == orderId
    ensures FindByOrderId(payments, orderId).value in payments
    ensures p == FindByOrderId(payments, orderId).value
  {
    var found := PaymentsFor(payments, orderId);
    assert found[0] in found && p in found;
    assert found == [found[0]];
  }

  /** A payment recorded for an order that had none is the one the lookup
      by order finds. */
  lemma FirstPaymentIsFound(payments: seq<PaymentDetails>, p: PaymentDetails)
    requires PaymentsFor(payments, p.orderId) == []
    ensures FindByOrderId(payments + [p], p.orderId) == Success(p)
  {
    PaymentsForAppend(payments, [p], p.orderId);
    assert PaymentsFor([p], p.orderId) == [p];
  }

  /** Every stored payment is stored under its own id. */
  ghost predicate PaymentsKeyed(rows: map<Uuid, PaymentDetails>) {
    forall k | k in rows :: rows[k].paymentId == k
  }

  class PaymentService {
    const payments: Repository<PaymentDetails>

    ghost predicate Valid()
      reads this, payments
    {
      payments.Valid() && PaymentsKeyed(payments.rows)
    }

    constructor (payments: Repository<PaymentDetails>)
      ensures this.payments == payments
    {
      this.payments := payments;
    }

    function GetPaymentDetailsByOrderId(orderId: Uuid): (r: Result<PaymentResponse, PaymentError>)
      reads this, payments
      requires Valid()
      ensures PaymentsFor(payments.FindAll(), orderId) == [] ==> r == Failure(PaymentNotFoundFor(orderId))
      ensures r.Success? <==> |PaymentsFor(payments.FindAll(), orderId)| == 1
      ensures r.Success? ==>
        exists k | k in payments.rows :: payments.rows[k].orderId == orderId && r.value == ToPaymentResponse(payments.rows[k])
    {
      var found := FindByOrderId(payments.FindAll(), orderId);
      if found.Success? then
        var p := found.value;
        assert p in payments.FindAll();
        var i :| 0 <= i < |payments.order| && payments.FindAll()[i] == p;
        assert payments.rows[payments.order[i]] == p;
        Success(ToPaymentResponse(p))
      else Failure(found.error)
    }

    /** Records a SUCCESSFUL payment under the fresh id `newId` (the UUID the
        persistence layer generates), stamped `now`. */
    method CreatePayment(request: PaymentRequest, newId: Uuid, now: Timestamp) returns (id: Uuid)
      requires Valid() && newId !in payments.rows
      modifies payments
      ensures Valid()
      ensures id == newId
      ensures payments.rows == old(payments.rows)[id :=
        PaymentDetails(id, request.orderId, request.paymentMode, now, Successful, request.amount)]
      ensures PaymentsFor(old(payments.FindAll()), request.orderId) == [] ==>
        GetPaymentDetailsByOrderId(request.orderId) == Success(PaymentResponse(id, request.paymentMode, Successful, now))
    {
      var details := PaymentDetails(newId, request.orderId, request.paymentMode, now, Successful, request.amount);
      ListedAppend(payments.order, payments.rows, newId, details);
      if PaymentsFor(payments.FindAll(), request.orderId) == [] {
        FirstPaymentIsFound(payments.FindAll(), details);
      }
      payments.Save(newId, details);
      id := newId;
    }
  }
}
