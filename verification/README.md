# lms-backend: enrollment and payment lifecycle in Dafny

This project models the core of the `lms-backend` learning platform, an Express and
Mongoose service. The model covers:

- how a student enrolls in a course;
- how a paid enrollment moves from `pending` to `active` through a Razorpay order,
  in the JSON flow or in the server-rendered checkout;
- how the gateway's callback is verified against the HMAC-SHA256 signature (RFC 2104)
  of `orderId|paymentId`;
- how an instructor moves an enrollment through its lifecycle;
- how a student marks lessons completed;
- how instructors create courses, sections and lessons;
- the three dashboards that aggregate all of this;
- the error middleware that turns every thrown error into a JSON response.

## How the model is organised

- **The database (`Store`).** MongoDB is a class `Store.Db` with one field per
  collection. Each collection is a sequence whose position is the document id, so a
  smaller id is an older document.
  - `findById` is a bounds check.
  - `findOne` is the oldest matching document (`Seqs.FindFirst`).
  - `find(...).sort({ createdAt: -1 })` lists positions newest first.
  - The schemas' unique indexes and the `min: 0` price bound make up `Db.Valid()`. Every
    controller method keeps it.
- **Request handlers.** Every handler that writes is a method on `Db`. Its
  postcondition states the whole new state for every branch. A handler that only
  reads is a function.
- **Guards.** The checks a handler makes before writing are a guard function. Its
  contract gives each failure's status and message, and an if-and-only-if for the
  case where every check passes.
- **The gateway (`Razorpay`).** `Razorpay.Gateway` is a class holding the orders
  created so far and whether the service is reachable. Order ids are fresh: the k-th
  order is `order_<k>`.
- **The signature.** The hex HMAC is a function parameter `sign`, about which nothing
  is assumed.
- **Failures.** A failed request is `Fail(f)`:
  - `f` is an `ApiError`, or a Mongoose validation error, or a duplicate key, or a
    gateway failure (with the status code of the gateway's error answer, or none when
    the gateway does not answer), or a driver error, or a JavaScript `TypeError`.
  - `ErrorHandler.Respond` gives the HTTP status and message that each kind reaches
    the client with.

The model follows the code as written, also where it departs from the evident design:

- The Enrollment schema's status enum omits `pending`, although both enrollment
  handlers write it. The model uses the four statuses the controllers rely on. The
  discrepancy is recorded under Findings.
- A verified payment makes its enrollment `active` whatever its earlier status. This
  includes a cancelled or completed enrollment.
- A payment superseded to `failed` by a retry can still be verified later. Only
  `success` short-circuits a callback.
- In the checkout flow, a payment that is `failed` but carries an order id reuses that
  order.
- In the checkout flow, a bad signature commits `failed` and then aborts the committed
  transaction. The client sees the driver's error, a 500, instead of the intended 400.
- The student dashboard throws a `TypeError` (a 500) when an enrollment's course has
  been deleted.
- The admin and instructor dashboards count `unpublished` courses as drafts.
- Completing a lesson a second time fails on the progress index with a 409. It does
  not re-stamp the lesson.

## Model

| member | source | states |
|---|---|---|
| ApiErrors.NewApiError | src/utils/ApiError.js:3-5 | keeps message and code; `status` is "fail" exactly when the code's decimal text starts with 4, otherwise "error" |
| ApiErrors.ClientErrorsFail | src/utils/ApiError.js:5 | every 4xx code is classified "fail" |
| ApiErrors.ServerErrorsAreErrors | src/utils/ApiError.js:5 | every 5xx code is classified "error" |
| ErrorHandler.HandleError | src/middlewares/errorHandler.js:1-42 | never `success`; a duplicate key (11000) is a 409 naming the first key and wins over a CastError (400 `Invalid path: value`), which wins over a ValidationError (400, messages joined by ", "); otherwise the error's own non-zero status or 500, and its message or "Internal Server Error" |
| ErrorHandler.Respond | src/middlewares/errorHandler.js:4-41 | an ApiError reaches the client with its own status and message; schema validation is a 400 listing the failing paths; a unique-index violation is a 409; an error answer of the gateway keeps the gateway's own status with the message "Internal Server Error"; an unreachable gateway, driver and type errors are 500 |
| Strings.Trim | src/models/Course.js:10 | the result is the part of the input between a whitespace prefix and a whitespace suffix, with whitespace as ECMAScript defines it (including no-break, ideographic and other Unicode spaces, line terminators and the byte order mark); it is empty exactly when the input is all whitespace, and otherwise neither starts nor ends with whitespace |
| Strings.TrimIdempotent | src/controllers/sectionController.js:42 | trimming a trimmed title changes nothing |
| Strings.NatDecimalLeads | src/utils/ApiError.js:5 | the first character of a number's decimal text is its leading digit |
| Models.ParseEnrollmentStatus | src/controllers/enrollmentController.js:124-128 | a parsed status prints back as the same string |
| Models.NamesParse | src/models/Lesson.js:11 | every stored enum name of status, lesson type and level parses back to the value it names |
| Models.TrimmedRequired | src/models/Course.js:10 | a trimmed required path fails exactly when the value is all whitespace, with Mongoose's `required` message |
| Models.LevelOrDefault | src/models/Course.js:13-17 | an absent level defaults to Beginner; a given one must be one of the three enum values |
| Models.StatusEnumErrors | src/models/Enrollment.js:15-19 | the enum validator refuses a status exactly when its name is not admitted, and then with Mongoose's enum message naming the value and the `status` path |
| Models.PendingRefusedAsWritten | src/models/Enrollment.js:15-19 | the declared enum refuses `pending` with Mongoose's enum message and admits the other three |
| Models.EveryStatusAdmitted | src/controllers/enrollmentController.js:126 | with `pending` added, every status validates and the enum is exactly the set of parseable status names |
| Seqs.FindFirst | src/controllers/paymentController.js:35-38 | `findOne`: the oldest matching document, or none exactly when nothing matches |
| Seqs.Positions | src/controllers/sectionController.js:82-83 | `find`: exactly the matching positions, in ascending order |
| Seqs.PositionsNewestFirst | src/controllers/enrollmentController.js:133-138 | `find().sort({ createdAt: -1 })`: exactly the matching positions, newest first |
| Store.AddEnrollmentKeepsUnique | src/models/Enrollment.js:26 | inserting an enrollment whose (course, student) is free keeps the index unique |
| Store.ReplaceEnrollmentKeepsUnique | src/models/Enrollment.js:26 | rewriting an enrollment without changing its key keeps the index unique |
| Store.AddProgressKeepsUnique | src/models/Progress.js:26 | inserting a record whose (student, course, lesson) is free keeps the index unique |
| Store.AddSectionKeepsUnique | src/models/Section.js:16 | inserting a section whose (course, order) is free keeps the index unique |
| Store.AddLessonKeepsUnique | src/models/Lesson.js:19 | inserting a lesson whose (section, order) is free keeps the index unique |
| Razorpay.OrderIdText | src/controllers/paymentController.js:58-67 | an order id never contains the bar character that separates it from the payment id |
| Razorpay.OrderIdsDistinct | src/controllers/paymentController.js:58-67 | different orders have different ids |
| Razorpay.Gateway.CreateOrder | src/controllers/paymentController.js:58-67 | a reachable gateway appends an order under an id never used before, with the amount, currency and notes given; an unreachable one fails and changes nothing |
| Razorpay.Gateway.FetchOrder | src/controllers/payment/checkout.controller.js:86 | returns the order with that id exactly when the gateway is reachable and such an order exists; a reachable gateway rejects an id it never issued with status 400, and an unreachable one gives no status |
| Razorpay.FirstBar | src/controllers/paymentController.js:128 | in the signed text, the first bar character ends the order id |
| Razorpay.SignedTextDetermines | src/controllers/paymentController.js:126-129 | the signed text (order id, bar, payment id) determines both ids, so a signature covers exactly one (order, payment) pair |
| Pagination.NormalizePage | src/controllers/enrollmentController.js:106 | a positive page is kept, anything else is 1 |
| Pagination.NormalizeLimit | src/controllers/enrollmentController.js:107 | a positive limit is capped at 50, anything else is 10; always within 1..50 |
| Pagination.TotalPages | src/controllers/enrollmentController.js:151 | `Math.ceil(total / limit)`: the fewest pages of `limit` that hold `total` |
| Pagination.PageSlice | src/controllers/enrollmentController.js:139-140 | `.skip(s).limit(l)`: at most `l` items, the ones starting at position `s`, none past the end |
| Pagination.PageOfItem | src/controllers/enrollmentController.js:139-151 | every item appears on the page its position gives, and that page is within `totalPages` |
| Pagination.PagesPastTheEndAreEmpty | src/controllers/enrollmentController.js:139-151 | a page beyond `totalPages` is empty |
| EnrollmentController.CreateEnrollment | src/controllers/enrollmentController.js:11-67 | the five refusals in order without writing; otherwise one new enrollment for the caller, pending and unpaid for a paid course, active and paid for a free one |
| EnrollmentController.MovesGoForward | src/controllers/enrollmentController.js:187-192 | every allowed transition moves strictly forward in the lifecycle and never back to pending |
| EnrollmentController.RunAdvancesStage | src/controllers/enrollmentController.js:187-195 | along a run of allowed transitions, each move advances the stage by at least one |
| EnrollmentController.RunsAreShort | src/controllers/enrollmentController.js:187-195 | the transition table has no cycles: a run never revisits a status, makes at most two moves, and completed and cancelled are final |
| EnrollmentController.RequestedStatus | src/controllers/enrollmentController.js:165-168 | a request may name exactly active, completed or cancelled, never pending |
| EnrollmentController.Moved | src/controllers/enrollmentController.js:202-207 | a move changes only the status, and a move to active also marks the enrollment paid |
| EnrollmentController.UpdateEnrollmentStatus | src/controllers/enrollmentController.js:156-216 | the refusals in order without writing, with a 409 naming both statuses for a move outside the table; otherwise exactly that enrollment is moved |
| EnrollmentController.ListMyEnrollments | src/controllers/enrollmentController.js:69-96 | non-students are refused; a student gets exactly their active or completed enrollments, newest first |
| EnrollmentController.StatusFilter | src/controllers/enrollmentController.js:124-129 | the status query filters exactly when it names one of the four statuses |
| EnrollmentController.CourseEnrollments | src/controllers/enrollmentController.js:122-138 | exactly the course's enrollments that pass the filter, newest first |
| EnrollmentController.ListCourseEnrollments | src/controllers/enrollmentController.js:98-154 | 400, 404 and 403 for a bad id, a missing course or a caller who is not the instructor; otherwise the requested page of the filtered listing, with the total and `totalPages` of the whole listing |
| EnrollmentController.PageOfMatch | src/controllers/enrollmentController.js:131-151 | each matching enrollment lies on some page between 1 and `totalPages` |
| EnrollmentController.EveryMatchIsOnAPage | src/controllers/enrollmentController.js:98-154 | every enrollment that passes the filter is returned by the listing for some page no greater than the reported `totalPages` |
| PaymentController.SupersedePending | src/controllers/paymentController.js:70-73 | marks exactly the enrollment's pending payments failed and leaves every other payment as it was |
| PaymentController.OnlyNewPaymentPending | src/controllers/paymentController.js:70-82 | after superseding and recording the new payment, it is the enrollment's only pending payment |
| PaymentController.OrderGuard | src/controllers/paymentController.js:14-33 | the five refusals in order; it passes exactly for a student, a well-formed id and an existing, published, paid course |
| PaymentController.CreateRazorpayOrder | src/controllers/paymentController.js:10-96 | guards, then a 409 for an active or completed enrollment; otherwise it reuses or creates a pending enrollment, creates a fresh order of `price * 100` paise in INR, supersedes earlier pending payments and records one pending payment of `price` under the new order id; a gateway failure leaves only a newly created enrollment behind |
| PaymentController.Paid | src/controllers/paymentController.js:145-146 | a verified payment is `success` with the gateway's payment id, otherwise unchanged |
| PaymentController.Unlocked | src/controllers/paymentController.js:158-159 | an unlocked enrollment is active and paid, the rest unchanged |
| PaymentController.VerifyRazorpayPayment | src/controllers/paymentController.js:99-178 | 400 or 404 without writing for missing fields or an unknown order; an already successful payment is acknowledged unchanged; a bad signature marks only the payment failed (400); a good one marks the payment paid and the enrollment active and paid together, or writes nothing when the enrollment is gone (404) |
| CheckoutController.CheckoutGuard | src/controllers/payment/checkout.controller.js:20-43 | the five refusals in order; it passes exactly for the owner of an existing enrollment whose course exists and is paid |
| CheckoutController.RenderCheckoutPage | src/controllers/payment/checkout.controller.js:15-98 | a successful payment redirects unchanged; a payment with a non-empty order id reuses and fetches that order, and an order id the gateway does not know fails with the gateway's 400; otherwise a fresh order of `price * 100` paise is created and recorded on a new pending payment or on the existing one; the page shows the order's own amount |
| CheckoutController.PaidAt | src/controllers/payment/checkout.controller.js:157-159 | the checkout's verified payment is the JSON flow's, plus `paidAt` |
| CheckoutController.VerifyEjsPayment | src/controllers/payment/checkout.controller.js:100-189 | as the JSON verifier, except that a paid payment redirects, success stamps `paidAt`, and a bad signature leaves the payment failed but ends in the driver's abort-after-commit error |
| ProgressController.CompletionGuard | src/controllers/progressController.js:13-51 | the seven refusals in order; it passes exactly for a student with an active enrollment in the published course of an existing lesson and section |
| ProgressController.Completed | src/controllers/progressController.js:61-64 | the record is completed and stamped, with the same key |
| ProgressController.MarkLessonCompleted | src/controllers/progressController.js:10-76 | after the guards, an open record of the lesson is completed in place and a missing one is inserted completed; an already completed record is never changed and a second completion fails on the unique index; the result is a completed record of the caller that is stored |
| SectionController.HighestOrder | src/controllers/sectionController.js:34-37 | none exactly when the course has no sections; otherwise an order some section of the course has, and no smaller than any of them |
| SectionController.DefaultOrder | src/controllers/sectionController.js:32-39 | above every order of the course, so not taken; 1 for a course without sections |
| SectionController.SectionOrder | src/controllers/sectionController.js:32-39 | a requested order of at least 1 is used, otherwise the default |
| SectionController.DefaultOrderIsFree | src/controllers/sectionController.js:32-39 | a defaulted order never collides with the unique index, so only a requested order can |
| SectionController.NewSectionGuard | src/controllers/sectionController.js:12-29 | the four refusals in order; it passes exactly for the instructor of an existing course with a title |
| SectionController.CreateSection | src/controllers/sectionController.js:8-52 | after the guards, a blank title fails validation, a taken (course, order) fails on the index, and otherwise one section with the trimmed title is appended |
| SectionController.SectionsOf | src/controllers/sectionController.js:82 | exactly the course's sections, each once |
| SectionController.LessonsOf | src/controllers/sectionController.js:89 | exactly the section's lessons, each once |
| SectionController.InsertByOrder | src/controllers/sectionController.js:83 | insertion keeps the list ascending by order and duplicate-free, and adds exactly one position |
| SectionController.SortByOrder | src/controllers/sectionController.js:83 | `.sort({ order: 1 })`: the same positions, ascending by order |
| SectionController.ListGuard | src/controllers/sectionController.js:59-79 | a published course is public; an unpublished one needs a signed-in admin or its instructor, with a 403 for each case |
| SectionController.Views | src/controllers/sectionController.js:87-92 | one view per section in the same order, each with that section's lesson count |
| SectionController.CourseListing | src/controllers/sectionController.js:82-92 | every section of the course exactly once, ascending by order, each with its lesson count |
| SectionController.ListSections | src/controllers/sectionController.js:54-98 | the guard's refusal, or the course's complete sorted listing |
| SectionController.ListedOrdersStrictlyAscend | src/controllers/sectionController.js:83 | with (course, order) unique, the listing's orders strictly increase |
| LessonController.CheckLessonRequest | src/controllers/lessonController.js:12-41 | always a 400; it refuses exactly the requests that are not acceptable, each with the message of the first check it fails |
| LessonController.NewLesson | src/controllers/lessonController.js:71-78 | the stored lesson has the trimmed title, the requested type, content and positive order, and a duration only when it is a video |
| LessonController.CreateLesson | src/controllers/lessonController.js:8-85 | after validation: 404 for a missing section or course, 403 for a non-owner, 409 for a taken (section, order), a validation error for a blank title; otherwise exactly one lesson appended |
| CourseController.CheckCourseRequest | src/controllers/courseController.js:9-15 | a 400 for a missing field, then for a negative price; passes exactly when all four are there and the price is not negative |
| CourseController.CourseSchemaErrors | src/models/Course.js:10-17 | the schema refuses exactly a blank title or a level outside the enum, naming each failing path |
| CourseController.NewCourse | src/controllers/courseController.js:17-25 | the caller's own draft course with the trimmed title, the level defaulted to Beginner and all totals 0 |
| CourseController.CreateCourse | src/controllers/courseController.js:5-32 | the controller's refusals, then the schema's, without writing; otherwise exactly that course is appended |
| StudentDashboard.RoundPercent | src/controllers/dashboardController.js:85-87 | the integer nearest to `100 * completed / total`, halves up; within 0..100 when completed is at most total, 100 when all are done, 0 when none are |
| StudentDashboard.Entry | src/controllers/dashboardController.js:37-98 | a course without sections or lessons shows zeros; otherwise the number of its lessons, the student's completed ones among them and the rounded percentage |
| StudentDashboard.DistinctLessonsCount | src/models/Progress.js:26 | records about pairwise different lessons are as many as those lessons |
| StudentDashboard.CompletedWithinTotal | src/controllers/dashboardController.js:78-87 | with one progress record per lesson, completed lessons never exceed the course's lessons and the percentage stays within 0..100 |
| StudentDashboard.DashboardEnrollments | src/controllers/dashboardController.js:18-21 | exactly the student's active or completed enrollments, oldest first |
| StudentDashboard.Entries | src/controllers/dashboardController.js:35-100 | one entry per enrollment in order, or a `TypeError` exactly when some enrollment's course is gone |
| StudentDashboard.GetStudentDashboard | src/controllers/dashboardController.js:10-106 | non-students are refused; no enrollments gives an empty list; otherwise one entry per listed enrollment, failing exactly when a course is gone |
| StudentDashboard.DashboardPercentagesInRange | src/controllers/dashboardController.js:85-96 | every entry of a dashboard shows at most as many completed lessons as the course has and a percentage within 0..100 |
| InstructorDashboard.PublishedPlusUnpublished | src/controllers/instructorDashboardController.js:46-47 | published and draft counts add up to the number of courses |
| InstructorDashboard.EnrolledWithinAll | src/controllers/instructorDashboardController.js:40-49 | active students are never more than enrollments |
| InstructorDashboard.CompletedWithinCourse | src/controllers/instructorDashboardController.js:55-61 | a course's completed students are never more than its students |
| InstructorDashboard.CountInSplit | src/controllers/instructorDashboardController.js:36-38 | the enrollments of a list of distinct courses split into the first course's and the rest's |
| InstructorDashboard.OwnCourses | src/controllers/instructorDashboardController.js:13-15 | exactly the instructor's courses, each once |
| InstructorDashboard.Stats | src/controllers/instructorDashboardController.js:53-71 | one line per course in order, with its students and completed students |
| InstructorDashboard.StudentsAddUp | src/controllers/instructorDashboardController.js:36-67 | the per-course student counts add up to the total enrollments: each enrollment is counted on exactly one line |
| InstructorDashboard.GetInstructorDashboard | src/controllers/instructorDashboardController.js:9-80 | all zeros without courses; otherwise the total, published and non-published counts of the instructor's courses, so published plus draft is the total, active students are among the enrollments, completed among each course's students, and the lines add up to the total |
| AdminDashboard.RolesCoverUsers | src/controllers/adminDashboardController.js:10-12 | the three role counts add up to the number of users |
| AdminDashboard.DraftIsRest | src/controllers/adminDashboardController.js:16-20 | `total - published` is exactly the number of courses that are not published |
| AdminDashboard.EnrolledAmongNonPending | src/controllers/adminDashboardController.js:24-29 | active enrollments are never more than non-pending ones |
| AdminDashboard.RevenueNonNegative | src/controllers/adminDashboardController.js:32-40 | with the schema's `min: 0` on prices the revenue is never negative |
| AdminDashboard.RevenueAfterUpdate | src/controllers/adminDashboardController.js:32-40 | rewriting one enrollment changes the revenue by the difference of its two contributions |
| AdminDashboard.UnlockAddsPrice | src/controllers/adminDashboardController.js:32-40 | a verified payment that unlocks an enrollment not yet counted raises the revenue by exactly its course's price |
| AdminDashboard.GetAdminDashboard | src/controllers/adminDashboardController.js:8-62 | the role counts cover every user, the draft count is the unpublished remainder, active enrollments are among the non-pending ones, and the revenue is non-negative when prices are |

## Left out

- The authentication middleware and the routes are not part of this model. The caller arrives as a `User`, and role checks made only by route middleware (the instructor role for course, section and lesson creation) are not modelled.
- Sessions and transactions are single atomic updates. Concurrent requests, and the races between a `findOne` and a later insert, are not modelled.
- HTTP details are not modelled: status codes for success, redirects, `res.render` view data beyond the order id, amount and course title, `populate` and `select` projections, and response message strings.
- The HMAC-SHA256 computation (RFC 2104) and the merchant secret are a function parameter. Nothing is proved about the hash beyond what the signed text determines.
- Razorpay.Gateway.CreateOrder: fails only when the gateway is unreachable. An order the gateway's API refuses with its own status code is not modelled. An example is an amount below its minimum. Receipts and the key id sent to the page are left out as well.
- Timestamps (`createdAt`, `updatedAt`, `lastActivityAt`) are left out. "Newest first" uses insertion order, and `now` is a parameter.
- Ids are positions in insertion order, and deleting documents is not modelled. The only missing referenced documents that arise are ids beyond a sequence's end.
- `parseInt` on the page and limit query strings is not modelled. The parsed number, or `None` when it does not parse, is the input.
- `new URL(content)` is the parameter `urlParses`.
- Schema defaults that no modelled controller relies on are not modelled: the Enrollment status default `active` and the Payment status default `pending`. Required-path checks on references the controllers always set are not modelled either.
- Numbers are unbounded integers. Non-integer, `null` or string values of `price`, `order` and `duration` are not modelled, except that a non-integer lesson order is refused.
- StudentDashboard.RoundPercent: models `Math.round(c / t * 100)` as exact rational rounding, halves up. Floating-point error in the division is not modelled.
- The other controllers are not part of this model: authentication, AI, course listing and updates, course progress, Cloudinary uploads and the remaining checkout pages.

## Findings

| source | as written | input that shows it | evidently intended | confidence | as-written member | corrected member |
|---|---|---|---|---|---|---|
| src/models/Enrollment.js:15-19 | the status enum admits only active, completed and cancelled | creating the enrollment of a paid course, which writes status `pending` (src/controllers/enrollmentController.js:47-50, src/controllers/paymentController.js:46-53) | the enum also admits `pending`, the first state of the transition table | not executed | Models.PendingRefusedAsWritten | Models.EveryStatusAdmitted |
