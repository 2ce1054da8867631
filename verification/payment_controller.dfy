/** The JSON payment flow: a student asks for a gateway order for a paid course, and
    the gateway's callback is verified against the order's signature. */
module PaymentController {
  import opened Base
  import opened ApiErrors
  import opened Models
  import opened Seqs
  import opened Store
  import opened Razorpay

  /** What the client receives with a new order; `amount` is the gateway's, in paise. */
  datatype OrderCreated = OrderCreated(orderId: string, amount: int, currency: string, enrollment: Id, payment: Id)

  /** Marks every pending payment of an enrollment failed (`Payment.updateMany`). */
  function SupersedePending(ps: seq<Payment>, enrollment: Id): (r: seq<Payment>)
    ensures |r| == |ps|
    ensures forall i :: 0 <= i < |r| && r[i].enrollment == enrollment ==> r[i].status != PaymentPending
    ensures forall i :: 0 <= i < |r| && (ps[i].enrollment != enrollment || ps[i].status != PaymentPending) ==>
      r[i] == ps[i]
    ensures forall i :: 0 <= i < |r| && ps[i].enrollment == enrollment && ps[i].status == PaymentPending ==>
      r[i] == ps[i].(status := PaymentFailed)
  {
    seq(|ps|, i requires 0 <= i < |ps| =>
      if ps[i].enrollment == enrollment && ps[i].status == PaymentPending then ps[i].(status := PaymentFailed)
      else ps[i])
  }

  /** After superseding and adding one pending payment, that payment is the only
      pending one of the enrollment. */
  lemma OnlyNewPaymentPending(ps: seq<Payment>, enrollment: Id, p: Payment)
    requires p.enrollment == enrollment && p.status == PaymentPending
    ensures var after := SupersedePending(ps, enrollment) + [p];
      forall i :: 0 <= i < |after| ==>
        (after[i].enrollment == enrollment && after[i].status == PaymentPending <==> i == |ps|)
  {
    var after := SupersedePending(ps, enrollment) + [p];
    forall i | 0 <= i < |ps|
      ensures !(after[i].enrollment == enrollment && after[i].status == PaymentPending)
    {
      assert after[i] == SupersedePending(ps, enrollment)[i];
    }
  }

  /** The checks before any write, in the order the controller makes them. */
  function OrderGuard(courses: seq<Course>, user: User, courseId: IdParam): (r: Option<Failure>)
    ensures r.None? <==>
      && user.role == Student && courseId.Given? && courseId.id < |courses|
      && courses[courseId.id].price > 0 && courses[courseId.id].status == Published
    ensures user.role != Student ==> r == Some(Refusal(403, "Only students can make payments"))
    ensures user.role == Student && !courseId.Given? ==> r == Some(Refusal(400, "Invalid course id"))
    ensures user.role == Student && courseId.Given? && courseId.id >= |courses| ==>
      r == Some(Refusal(404, "Course not found"))
    ensures user.role == Student && courseId.Given? && courseId.id < |courses| && courses[courseId.id].price <= 0 ==>
      r == Some(Refusal(400, "This course is free"))
    ensures (user.role == Student && courseId.Given? && courseId.id < |courses| && courses[courseId.id].price > 0
             && courses[courseId.id].status != Published) ==>
      r == Some(Refusal(403, "Course is not available for purchase"))
  {
    if user.role != Student then Some(Refusal(403, "Only students can make payments"))
    else if !courseId.Given? then Some(Refusal(400, "Invalid course id"))
    else if courseId.id >= |courses| then Some(Refusal(404, "Course not found"))
    else if courses[courseId.id].price <= 0 then Some(Refusal(400, "This course is free"))
    else if courses[courseId.id].status != Published then
      Some(Refusal(403, "Course is not available for purchase"))
    else None
  }

  /** A student starts (or retries) paying for a course. After the guards, an active
      or completed enrollment is a 409; otherwise the student's enrollment is reused,
      or created pending and unpaid when there is none. Every attempt asks the
      gateway for a new order of `price * 100` paise, marks the enrollment's earlier
      pending payments failed and records a new pending payment of `price` rupees
      under the new order id. The enrollment is written before the gateway is called,
      so a gateway failure leaves a new enrollment behind. */
  method CreateRazorpayOrder(db: Db, gateway: Gateway, user: User, courseId: IdParam, now: Time)
    returns (r: Outcome<OrderCreated>)
    requires db.Valid() && gateway.Valid()
    modifies db, gateway
    ensures db.Valid() && gateway.Valid()
    ensures unchanged(db`courses, db`sections, db`lessons, db`progress)
    ensures gateway.online == old(gateway.online)
    ensures OrderGuard(db.courses, user, courseId).Some? ==>
      r == Fail(OrderGuard(db.courses, user, courseId).value)
    ensures OrderGuard(db.courses, user, courseId).None? ==>
      var existing := EnrollmentOf(old(db.enrollments), courseId.id, user.id);
      && (existing.Some? && Enrolled(old(db.enrollments)[existing.value]) ==>
            r == Throw(409, "You are already enrolled in this course"))
      && (existing.Some? && !Enrolled(old(db.enrollments)[existing.value]) && !gateway.online ==>
            r == Fail(GatewayFailure(None)) && db.enrollments == old(db.enrollments))
      && (existing.None? && !gateway.online ==>
            r == Fail(GatewayFailure(None))
            && db.enrollments == old(db.enrollments) + [Enrollment(courseId.id, user.id, Pending, false, now)])
      && ((existing.None? || !Enrolled(old(db.enrollments)[existing.value])) && gateway.online ==> r.Ok?)
    ensures r.Fail? && !r.failure.GatewayFailure? ==> db.enrollments == old(db.enrollments)
    ensures r.Fail? ==> db.payments == old(db.payments) && gateway.orders == old(gateway.orders)
    ensures r.Ok? ==>
      var course := courseId.id;
      var e := r.value.enrollment;
      var existing := EnrollmentOf(old(db.enrollments), course, user.id);
      && courseId.Given?
      && (existing.Some? ==> e == existing.value && db.enrollments == old(db.enrollments))
      && (existing.None? ==>
            e == |old(db.enrollments)|
            && db.enrollments == old(db.enrollments) + [Enrollment(course, user.id, Pending, false, now)])
      && r.value.amount == db.courses[course].price * 100
      && r.value.currency == "INR"
      && OrderNamed(old(gateway.orders), r.value.orderId).None?
      && gateway.orders == old(gateway.orders)
           + [GatewayOrder(r.value.orderId, r.value.amount, "INR", OrderNotes(course, user.id, e))]
      && r.value.payment == |old(db.payments)|
      && db.payments == SupersedePending(old(db.payments), e)
           + [Payment(e, user.id, course, Some(r.value.orderId), None, db.courses[course].price, PaymentPending, None)]
      && (forall i :: 0 <= i < |db.payments| ==>
            (db.payments[i].enrollment == e && db.payments[i].status == PaymentPending <==> i == r.value.payment))
  {
    var guard := OrderGuard(db.courses, user, courseId);
    if guard.Some? {
      return Fail(guard.value);
    }
    var course := db.courses[courseId.id];
    var existing := EnrollmentOf(db.enrollments, courseId.id, user.id);
    if existing.Some? && Enrolled(db.enrollments[existing.value]) {
      return Throw(409, "You are already enrolled in this course");
    }
    var e: Id;
    if existing.None? {
      var enrollment := Enrollment(courseId.id, user.id, Pending, false, now);
      AddEnrollmentKeepsUnique(db.enrollments, enrollment);
      e := |db.enrollments|;
      db.enrollments := db.enrollments + [enrollment];
    } else {
      e := existing.value;
    }
    var order := gateway.CreateOrder(course.price * 100, "INR", OrderNotes(courseId.id, user.id, e));
    if order.None? {
      return Fail(GatewayFailure(None));
    }
    var payment := Payment(e, user.id, courseId.id, Some(order.value.id), None, course.price, PaymentPending, None);
    OnlyNewPaymentPending(db.payments, e, payment);
    r := Ok(OrderCreated(order.value.id, order.value.amount, order.value.currency, e, |db.payments|));
    db.payments := SupersedePending(db.payments, e) + [payment];
  }

  // ---------------------------------------------------------------------------
  // verifyRazorpayPayment

  datatype Verification = AlreadyVerified | Activated(enrollment: Id, payment: Id)

  /** All three callback fields are present and non-empty. */
  predicate CallbackComplete(orderId: Option<string>, paymentId: Option<string>, signature: Option<string>) {
    Present(orderId) && Present(paymentId) && Present(signature)
  }

  /** The payment after a verified callback. */
  function Paid(p: Payment, paymentId: string): (q: Payment)
    ensures q.status == PaymentSuccess && q.razorpayPaymentId == Some(paymentId)
    ensures q.enrollment == p.enrollment && q.student == p.student && q.course == p.course
    ensures q.razorpayOrderId == p.razorpayOrderId && q.amount == p.amount && q.paidAt == p.paidAt
  {
    p.(razorpayPaymentId := Some(paymentId), status := PaymentSuccess)
  }

  /** The enrollment a verified payment unlocks: active and paid, whatever its
      status was (a cancelled or completed enrollment becomes active again). */
  function Unlocked(e: Enrollment): (u: Enrollment)
    ensures u.status == Active && u.isPaid
    ensures u.course == e.course && u.student == e.student && u.enrolledAt == e.enrolledAt
  {
    e.(status := Active, isPaid := true)
  }

  /** The gateway callback. Missing fields are a 400 and an unknown order a 404, both
      without writing. A payment already `success` is acknowledged without change;
      only that status short-circuits, so a payment superseded to `failed` can still
      succeed. A signature other than the HMAC of `orderId|paymentId` marks the
      payment failed and is a 400. A valid one marks the payment `success` with the
      gateway's payment id and the enrollment active and paid, together; when the
      enrollment is missing, neither is written and the answer is a 404. */
  method VerifyRazorpayPayment(db: Db, sign: (string, string) -> string, secret: string,
                               orderId: Option<string>, paymentId: Option<string>, signature: Option<string>)
    returns (r: Outcome<Verification>)
    requires db.Valid()
    modifies db
    ensures db.Valid()
    ensures unchanged(db`courses, db`sections, db`lessons, db`progress)
    ensures !CallbackComplete(orderId, paymentId, signature) ==>
      r == Throw(400, "Missing Razorpay payment details") && unchanged(db)
    ensures CallbackComplete(orderId, paymentId, signature) && PaymentWithOrder(old(db.payments), orderId.value).None? ==>
      r == Throw(404, "Payment record not found") && unchanged(db)
    ensures CallbackComplete(orderId, paymentId, signature) && PaymentWithOrder(old(db.payments), orderId.value).Some? ==>
      var k := PaymentWithOrder(old(db.payments), orderId.value).value;
      var p := old(db.payments)[k];
      var genuine := signature.value == ExpectedSignature(sign, secret, orderId.value, paymentId.value);
      && (p.status == PaymentSuccess ==> r == Ok(AlreadyVerified) && unchanged(db))
      && (p.status != PaymentSuccess && !genuine ==>
            && r == Throw(400, "Invalid payment signature")
            && db.payments == old(db.payments)[k := p.(status := PaymentFailed)]
            && db.enrollments == old(db.enrollments))
      && (p.status != PaymentSuccess && genuine && p.enrollment >= |old(db.enrollments)| ==>
            r == Throw(404, "Enrollment not found") && unchanged(db))
      && (p.status != PaymentSuccess && genuine && p.enrollment < |old(db.enrollments)| ==>
            && r == Ok(Activated(p.enrollment, k))
            && db.payments == old(db.payments)[k := Paid(p, paymentId.value)]
            && db.enrollments == old(db.enrollments)[p.enrollment := Unlocked(old(db.enrollments)[p.enrollment])])
  {
    if !CallbackComplete(orderId, paymentId, signature) {
      return Throw(400, "Missing Razorpay payment details");
    }
    var found := PaymentWithOrder(db.payments, orderId.value);
    if found.None? {
      return Throw(404, "Payment record not found");
    }
    var k := found.value;
    var p := db.payments[k];
    if p.status == PaymentSuccess {
      return Ok(AlreadyVerified);
    }
    if signature.value != ExpectedSignature(sign, secret, orderId.value, paymentId.value) {
      db.payments := db.payments[k := p.(status := PaymentFailed)];
      return Throw(400, "Invalid payment signature");
    }
    // One transaction: both writes happen, or neither.
    if p.enrollment >= |db.enrollments| {
      return Throw(404, "Enrollment not found");
    }
    var e := db.enrollments[p.enrollment];
    ReplaceEnrollmentKeepsUnique(db.enrollments, p.enrollment, Unlocked(e));
    db.payments := db.payments[k := Paid(p, paymentId.value)];
    db.enrollments := db.enrollments[p.enrollment := Unlocked(e)];
    r := Ok(Activated(p.enrollment, k));
  }
}
