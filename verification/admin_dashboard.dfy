/** The admin dashboard: users per role, courses by status, enrollments and the
    revenue of paid enrollments. */
module AdminDashboard {
  import opened Base
  import opened Models
  import opened Store
  import PaymentController

  /** `User.countDocuments({ role })`. */
  function CountRole(users: seq<User>, role: Role): nat {
    if |users| == 0 then 0
    else (if users[0].role == role then 1 else 0) + CountRole(users[1..], role)
  }

  /** Every user has exactly one of the three roles, so the three counts cover all
      users. */
  lemma {:induction false} RolesCoverUsers(users: seq<User>)
    ensures CountRole(users, Student) + CountRole(users, Instructor) + CountRole(users, Admin) == |users|
  {
    if |users| > 0 {
      RolesCoverUsers(users[1..]);
    }
  }

  /** `Course.countDocuments({ status: "published" })`. */
  function CountPublished(cs: seq<Course>): nat {
    if |cs| == 0 then 0
    else (if cs[0].status == Published then 1 else 0) + CountPublished(cs[1..])
  }

  /** The courses that are not published: drafts and unpublished courses. */
  function CountNotPublished(cs: seq<Course>): nat {
    if |cs| == 0 then 0
    else (if cs[0].status != Published then 1 else 0) + CountNotPublished(cs[1..])
  }

  /** `total - published` counts exactly the courses that are not published. */
  lemma {:induction false} DraftIsRest(cs: seq<Course>)
    ensures |cs| - CountPublished(cs) == CountNotPublished(cs)
  {
    if |cs| > 0 {
      DraftIsRest(cs[1..]);
    }
  }

  /** The enrollments that are not pending. */
  function CountNonPending(es: seq<Enrollment>): nat {
    if |es| == 0 then 0
    else (if es[0].status != Pending then 1 else 0) + CountNonPending(es[1..])
  }

  /** The active or completed enrollments. */
  function CountEnrolled(es: seq<Enrollment>): nat {
    if |es| == 0 then 0
    else (if Enrolled(es[0]) then 1 else 0) + CountEnrolled(es[1..])
  }

  /** Active and completed enrollments are never pending. */
  lemma {:induction false} EnrolledAmongNonPending(es: seq<Enrollment>)
    ensures CountEnrolled(es) <= CountNonPending(es)
  {
    if |es| > 0 {
      EnrolledAmongNonPending(es[1..]);
    }
  }

  /** `course?.price || 0`: the price of the enrollment's course, 0 when it is gone. */
  function PriceOf(cs: seq<Course>, course: Id): int {
    if course < |cs| then cs[course].price else 0
  }

  /** What one enrollment adds to the revenue: its course's price when it is paid
      and active or completed, otherwise nothing. */
  function Contribution(cs: seq<Course>, e: Enrollment): int {
    if e.isPaid && Enrolled(e) then PriceOf(cs, e.course) else 0
  }

  /** The `reduce` over paid, active or completed enrollments. */
  function Revenue(cs: seq<Course>, es: seq<Enrollment>): int {
    if |es| == 0 then 0 else Contribution(cs, es[0]) + Revenue(cs, es[1..])
  }

  /** With the schema's `min: 0` on prices, the revenue is never negative. */
  lemma {:induction false} RevenueNonNegative(cs: seq<Course>, es: seq<Enrollment>)
    requires PricesNonNegative(cs)
    ensures Revenue(cs, es) >= 0
  {
    if |es| > 0 {
      RevenueNonNegative(cs, es[1..]);
    }
  }

  /** Replacing one enrollment changes the revenue by the difference of the two
      contributions. */
  lemma {:induction false} RevenueAfterUpdate(cs: seq<Course>, es: seq<Enrollment>, k: nat, e: Enrollment)
    requires k < |es|
    ensures Revenue(cs, es[k := e]) == Revenue(cs, es) - Contribution(cs, es[k]) + Contribution(cs, e)
  {
    if k == 0 {
      assert es[k := e][1..] == es[1..];
    } else {
      RevenueAfterUpdate(cs, es[1..], k - 1, e);
      assert es[k := e][1..] == es[1..][k - 1 := e];
    }
  }

  /** A verified payment that unlocks an enrollment not yet counted (pending, or
      cancelled, or not marked paid) raises the revenue by exactly its course's
      price. */
  lemma UnlockAddsPrice(cs: seq<Course>, es: seq<Enrollment>, k: nat)
    requires k < |es| && !(es[k].isPaid && Enrolled(es[k]))
    ensures Revenue(cs, es[k := PaymentController.Unlocked(es[k])]) == Revenue(cs, es) + PriceOf(cs, es[k].course)
  {
    RevenueAfterUpdate(cs, es, k, PaymentController.Unlocked(es[k]));
  }

  datatype UserCounts = UserCounts(students: nat, instructors: nat, admins: nat)
  datatype CourseCounts = CourseCounts(total: nat, published: nat, draft: int)
  datatype EnrollmentCounts = EnrollmentCounts(total: nat, active: nat)
  datatype Dashboard = Dashboard(users: UserCounts, courses: CourseCounts, enrollments: EnrollmentCounts, revenue: int)

  /** The admin dashboard. Its figures agree with each other: the role counts cover
      every user, draft courses are exactly the unpublished remainder, active
      enrollments are among the non-pending ones, and with non-negative prices the
      revenue is non-negative. */
  function GetAdminDashboard(users: seq<User>, cs: seq<Course>, es: seq<Enrollment>): (d: Dashboard)
    ensures d.users == UserCounts(CountRole(users, Student), CountRole(users, Instructor), CountRole(users, Admin))
    ensures d.users.students + d.users.instructors + d.users.admins == |users|
    ensures d.courses.total == |cs| && d.courses.published == CountPublished(cs)
    ensures d.courses.draft == CountNotPublished(cs) && d.courses.draft >= 0
    ensures d.enrollments == EnrollmentCounts(CountNonPending(es), CountEnrolled(es))
    ensures d.enrollments.active <= d.enrollments.total
    ensures d.revenue == Revenue(cs, es)
    ensures PricesNonNegative(cs) ==> d.revenue >= 0
  {
    RolesCoverUsers(users);
    DraftIsRest(cs);
    EnrolledAmongNonPending(es);
    var d := Dashboard(
      UserCounts(CountRole(users, Student), CountRole(users, Instructor), CountRole(users, Admin)),
      CourseCounts(|cs|, CountPublished(cs), |cs| - CountPublished(cs)),
      EnrollmentCounts(CountNonPending(es), CountEnrolled(es)),
      Revenue(cs, es));
    if PricesNonNegative(cs) then
      RevenueNonNegative(cs, es);
      d
    else
      d
  }
}
