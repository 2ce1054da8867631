/** The server-rendered checkout: the page that opens the gateway's payment form for
    an enrollment, and the verification of the form's callback. */
module CheckoutController {
  import opened Base
  import opened ApiErrors
  import opened Models
  import opened Seqs
  import opened Store
  import opened Razorpay
  import PaymentController

  /** The outcome of opening the checkout page: a redirect for an enrollment already
      paid for, or the page for a gateway order (`amount` in paise). */
  datatype Checkout = AlreadyPaid | CheckoutPage(orderId: string, amount: int, courseTitle: string)

  /** The checks before any write, in the order the controller makes them. */
  function CheckoutGuard(courses: seq<Course>, es: seq<Enrollment>, user: User, enrollmentId: IdParam)
    : (r: Option<Failure>)
    ensures r.None? <==>
      && enrollmentId.Given? && enrollmentId.id < |es| && es[enrollmentId.id].student == user.id
      && es[enrollmentId.id].course < |courses| && courses[es[enrollmentId.id].course].price > 0
    ensures !enrollmentId.Given? ==> r == Some(Refusal(400, "Invalid enrollment id"))
    ensures enrollmentId.Given? && enrollmentId.id >= |es| ==> r == Some(Refusal(404, "Enrollment not found"))
    ensures enrollmentId.Given? && enrollmentId.id < |es| && es[enrollmentId.id].student != user.id ==>
      r == Some(Refusal(403, "Unauthorized access to enrollment"))
    ensures (enrollmentId.Given? && enrollmentId.id < |es| && es[enrollmentId.id].student == user.id
             && es[enrollmentId.id].course >= |courses|) ==>
      r == Some(Refusal(404, "Course not found"))
    ensures (enrollmentId.Given? && enrollmentId.id < |es| && es[enrollmentId.id].student == user.id
             && es[enrollmentId.id].course < |courses| && courses[es[enrollmentId.id].course].price <= 0) ==>
      r == Some(Refusal(400, "This course does not require payment"))
  {
    if !enrollmentId.Given? then Some(Refusal(400, "Invalid enrollment id"))
    else if enrollmentId.id >= |es| then Some(Refusal(404, "Enrollment not found"))
    else if es[enrollmentId.id].student != user.id then Some(Refusal(403, "Unauthorized access to enrollment"))
    else if es[enrollmentId.id].course >= |courses| then Some(Refusal(404, "Course not found"))
    else if courses[es[enrollmentId.id].course].price <= 0 then
      Some(Refusal(400, "This course does not require payment"))
    else None
  }

  /** Whether the checkout creates a new gateway order: there is no payment yet, or
      the payment is not paid and its order id is falsy (absent or empty). */
  predicate NeedsOrder(ps: seq<Payment>, found: Option<nat>)
    requires found.Some? ==> found.value < |ps|
  {
    found.None? || (ps[found.value].status != PaymentSuccess && !Present(ps[found.value].razorpayOrderId))
  }

  /** The owner of an enrollment opens its checkout page. After the guards, the first
      payment of the (enrollment, student, course) is looked up. A `success` payment
      redirects without any change. A payment with a non-empty order id reuses that order:
      it is fetched from the gateway (an id the gateway never issued is its 400),
      nothing is written, and the page shows the
      order's own amount. Otherwise a new order of `price * 100` paise is created,
      and it is recorded on a new pending payment of `price` rupees, or on the
      existing payment, which is otherwise left as it was. */
  method RenderCheckoutPage(db: Db, gateway: Gateway, user: User, enrollmentId: IdParam)
    returns (r: Outcome<Checkout>)
    requires db.Valid() && gateway.Valid()
    modifies db, gateway
    ensures db.Valid() && gateway.Valid()
    ensures unchanged(db`courses, db`sections, db`lessons, db`enrollments, db`progress)
    ensures gateway.online == old(gateway.online)
    ensures r.Fail? || r == Ok(AlreadyPaid) ==>
      db.payments == old(db.payments) && gateway.orders == old(gateway.orders)
    ensures CheckoutGuard(db.courses, db.enrollments, user, enrollmentId).Some? ==>
      r == Fail(CheckoutGuard(db.courses, db.enrollments, user, enrollmentId).value)
    ensures CheckoutGuard(db.courses, db.enrollments, user, enrollmentId).None? ==>
      var e := enrollmentId.id;
      var c := db.enrollments[e].course;
      var course := db.courses[c];
      var found := PaymentOf(old(db.payments), e, user.id, c);
      && (found.Some? && old(db.payments)[found.value].status == PaymentSuccess ==> r == Ok(AlreadyPaid))
      && (found.Some? && old(db.payments)[found.value].status != PaymentSuccess
          && Present(old(db.payments)[found.value].razorpayOrderId) ==>
            var id := old(db.payments)[found.value].razorpayOrderId.value;
            && db.payments == old(db.payments) && gateway.orders == old(gateway.orders)
            && (gateway.online && OrderNamed(gateway.orders, id).Some? ==>
                  r == Ok(CheckoutPage(id, gateway.orders[OrderNamed(gateway.orders, id).value].amount, course.title)))
            && (!gateway.online ==> r == Fail(GatewayFailure(None)))
            && (gateway.online && OrderNamed(gateway.orders, id).None? ==>
                  r == Fail(GatewayFailure(Some(UnknownIdStatus)))))
      && (NeedsOrder(old(db.payments), found) && !gateway.online ==> r == Fail(GatewayFailure(None)))
      && (NeedsOrder(old(db.payments), found) && gateway.online ==>
            var id := OrderIdText(|old(gateway.orders)|);
            && OrderNamed(old(gateway.orders), id).None?
            && gateway.orders == old(gateway.orders) + [GatewayOrder(id, course.price * 100, "INR", OrderNotes(c, user.id, e))]
            && r == Ok(CheckoutPage(id, course.price * 100, course.title))
            && (found.None? ==>
                  db.payments == old(db.payments) + [Payment(e, user.id, c, Some(id), None, course.price, PaymentPending, None)])
            && (found.Some? ==>
                  db.payments == old(db.payments)[found.value := old(db.payments)[found.value].(razorpayOrderId := Some(id))]))
  {
    var guard := CheckoutGuard(db.courses, db.enrollments, user, enrollmentId);
    if guard.Some? {
      return Fail(guard.value);
    }
    var e := enrollmentId.id;
    var c := db.enrollments[e].course;
    var course := db.courses[c];
    var found := PaymentOf(db.payments, e, user.id, c);
    if found.Some? && db.payments[found.value].status == PaymentSuccess {
      return Ok(AlreadyPaid);
    }
    if found.None? || !Present(db.payments[found.value].razorpayOrderId) {
      var order := gateway.CreateOrder(course.price * 100, "INR", OrderNotes(c, user.id, e));
      if order.None? {
        return Fail(GatewayFailure(None));
      }
      if found.None? {
        db.payments := db.payments + [Payment(e, user.id, c, Some(order.value.id), None, course.price, PaymentPending, None)];
      } else {
        db.payments := db.payments[found.value := db.payments[found.value].(razorpayOrderId := Some(order.value.id))];
      }
      r := Ok(CheckoutPage(order.value.id, order.value.amount, course.title));
    } else {
      var order := gateway.FetchOrder(db.payments[found.value].razorpayOrderId.value);
      match order
      case Unreachable => return Fail(GatewayFailure(None));
      case Rejected(status) => return Fail(GatewayFailure(Some(status)));
      case Answer(o) => r := Ok(CheckoutPage(o.id, o.amount, course.title));
    }
  }

  // ---------------------------------------------------------------------------
  // verifyEjsPayment

  datatype EjsVerification = AlreadyPaidRedirect | Verified(enrollment: Id)

  /** The payment after a verified callback: unlike the JSON flow, this one also
      stamps `paidAt`. */
  function PaidAt(p: Payment, paymentId: string, now: Time): (q: Payment)
    ensures q.status == PaymentSuccess && q.razorpayPaymentId == Some(paymentId) && q.paidAt == Some(now)
    ensures q == PaymentController.Paid(p, paymentId).(paidAt := Some(now))
  {
    p.(status := PaymentSuccess, razorpayPaymentId := Some(paymentId), paidAt := Some(now))
  }

  /** The checkout form's callback. It follows the JSON verifier, with three
      differences: an already-paid payment redirects; a valid payment also records
      `paidAt`; and on a bad signature the `failed` status is committed and then the
      already-committed transaction is aborted, so the request fails with the
      driver's error rather than the intended 400, while the payment stays failed. */
  method VerifyEjsPayment(db: Db, sign: (string, string) -> string, secret: string,
                          orderId: Option<string>, paymentId: Option<string>, signature: Option<string>, now: Time)
    returns (r: Outcome<EjsVerification>)
    requires db.Valid()
    modifies db
    ensures db.Valid()
    ensures unchanged(db`courses, db`sections, db`lessons, db`progress)
    ensures !PaymentController.CallbackComplete(orderId, paymentId, signature) ==>
      r == Throw(400, "Missing Razorpay payment details") && unchanged(db)
    ensures (PaymentController.CallbackComplete(orderId, paymentId, signature)
             && PaymentWithOrder(old(db.payments), orderId.value).None?) ==>
      r == Throw(404, "Payment record not found") && unchanged(db)
    ensures (PaymentController.CallbackComplete(orderId, paymentId, signature)
             && PaymentWithOrder(old(db.payments), orderId.value).Some?) ==>
      var k := PaymentWithOrder(old(db.payments), orderId.value).value;
      var p := old(db.payments)[k];
      var genuine := signature.value == ExpectedSignature(sign, secret, orderId.value, paymentId.value);
      && (p.status == PaymentSuccess ==> r == Ok(AlreadyPaidRedirect) && unchanged(db))
      && (p.status != PaymentSuccess && !genuine ==>
            && r == Fail(AbortAfterCommit)
            && db.payments == old(db.payments)[k := p.(status := PaymentFailed)]
            && db.enrollments == old(db.enrollments))
      && (p.status != PaymentSuccess && genuine && p.enrollment >= |old(db.enrollments)| ==>
            r == Throw(404, "Enrollment not found") && unchanged(db))
      && (p.status != PaymentSuccess && genuine && p.enrollment < |old(db.enrollments)| ==>
            && r == Ok(Verified(p.enrollment))
            && db.payments == old(db.payments)[k := PaidAt(p, paymentId.value, now)]
            && db.enrollments == old(db.enrollments)[p.enrollment :=
                                   PaymentController.Unlocked(old(db.enrollments)[p.enrollment])])
  {
    if !PaymentController.CallbackComplete(orderId, paymentId, signature) {
      return Throw(400, "Missing Razorpay payment details");
    }
    var found := PaymentWithOrder(db.payments, orderId.value);
    if found.None? {
      return Throw(404, "Payment record not found");
    }
    var k := found.value;
    var p := db.payments[k];
    if p.status == PaymentSuccess {
      return Ok(AlreadyPaidRedirect);
    }
    if signature.value != ExpectedSignature(sign, secret, orderId.value, paymentId.value) {
      // Committed first; the abort that follows fails and replaces the 400.
      db.payments := db.payments[k := p.(status := PaymentFailed)];
      return Fail(AbortAfterCommit);
    }
    // One transaction: both writes happen, or neither.
    if p.enrollment >= |db.enrollments| {
      return Throw(404, "Enrollment not found");
    }
    var e := db.enrollments[p.enrollment];
    ReplaceEnrollmentKeepsUnique(db.enrollments, p.enrollment, PaymentController.Unlocked(e));
    db.payments := db.payments[k := PaidAt(p, paymentId.value, now)];
    db.enrollments := db.enrollments[p.enrollment := PaymentController.Unlocked(e)];
    r := Ok(Verified(p.enrollment));
  }
}
