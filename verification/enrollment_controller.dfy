/** Enrolling in a course, the instructor-driven status changes, and the two
    enrollment listings. */
module EnrollmentController {
  import opened Base
  import opened ApiErrors
  import opened Models
  import opened Seqs
  import opened Store
  import opened Pagination

  // ---------------------------------------------------------------------------
  // createEnrollment

  /** A student enrolls in a course. The checks run in this order and fail without
      writing: missing id, malformed id, unknown course, non-student, already
      enrolled (whatever the status of the existing enrollment). A paid course
      starts the enrollment pending and unpaid, a free one active and paid. */
  method CreateEnrollment(db: Db, user: User, courseId: IdParam, now: Time) returns (r: Outcome<Id>)
    requires db.Valid()
    modifies db
    ensures db.Valid()
    ensures unchanged(db`courses, db`sections, db`lessons, db`payments, db`progress)
    ensures r.Fail? ==> db.enrollments == old(db.enrollments)
    ensures courseId.Absent? ==> r == Throw(400, "Course ID is required")
    ensures courseId.Malformed? ==> r == Throw(400, "Invalid course ID")
    ensures courseId.Given? && courseId.id >= |db.courses| ==> r == Throw(404, "Course not found")
    ensures courseId.Given? && courseId.id < |db.courses| && user.role != Student ==>
      r == Throw(403, "Only students can enroll in courses")
    ensures (courseId.Given? && courseId.id < |db.courses| && user.role == Student
             && EnrollmentOf(old(db.enrollments), courseId.id, user.id).Some?) ==>
      r == Throw(409, "You are already enrolled in this course")
    ensures (courseId.Given? && courseId.id < |db.courses| && user.role == Student
             && EnrollmentOf(old(db.enrollments), courseId.id, user.id).None?) ==> r.Ok?
    ensures r.Ok? ==>
      && courseId.Given?
      && r.value == |old(db.enrollments)|
      && |db.enrollments| == r.value + 1
      && db.enrollments[..r.value] == old(db.enrollments)
      && var e := db.enrollments[r.value];
         && e.course == courseId.id && e.student == user.id && e.enrolledAt == now
         && (db.courses[courseId.id].price > 0 ==> e.status == Pending && !e.isPaid)
         && (db.courses[courseId.id].price <= 0 ==> e.status == Active && e.isPaid)
  {
    if courseId.Absent? {
      return Throw(400, "Course ID is required");
    }
    if courseId.Malformed? {
      return Throw(400, "Invalid course ID");
    }
    if courseId.id >= |db.courses| {
      return Throw(404, "Course not found");
    }
    var course := db.courses[courseId.id];
    if user.role != Student {
      return Throw(403, "Only students can enroll in courses");
    }
    if EnrollmentOf(db.enrollments, courseId.id, user.id).Some? {
      return Throw(409, "You are already enrolled in this course");
    }
    var enrollment :=
      if course.price > 0 then Enrollment(courseId.id, user.id, Pending, false, now)
      else Enrollment(courseId.id, user.id, Active, true, now);
    AddEnrollmentKeepsUnique(db.enrollments, enrollment);
    r := Ok(|db.enrollments|);
    db.enrollments := db.enrollments + [enrollment];
  }

  // ---------------------------------------------------------------------------
  // The status transition table

  /** The statuses an instructor may move an enrollment to from each status. */
  function AllowedTargets(from: EnrollmentStatus): seq<EnrollmentStatus> {
    match from
    case Pending => [Active, Cancelled]
    case Active => [Completed, Cancelled]
    case Completed => []
    case Cancelled => []
  }

  predicate CanMove(from: EnrollmentStatus, to: EnrollmentStatus) {
    to in AllowedTargets(from)
  }

  /** How far along the lifecycle a status is. */
  function Stage(s: EnrollmentStatus): nat {
    match s
    case Pending => 0
    case Active => 1
    case Completed => 2
    case Cancelled => 2
  }

  /** Every allowed move goes forward, and no move leads back to pending. */
  lemma MovesGoForward(from: EnrollmentStatus, to: EnrollmentStatus)
    requires CanMove(from, to)
    ensures Stage(to) > Stage(from)
    ensures to != Pending
  {
  }

  /** A sequence of statuses each reachable from the previous by one allowed move. */
  predicate IsRun(run: seq<EnrollmentStatus>) {
    forall i :: 0 <= i < |run| - 1 ==> CanMove(run[i], run[i + 1])
  }

  /** Along a run of allowed moves the stage grows by at least one per move. */
  lemma {:induction false} RunAdvancesStage(run: seq<EnrollmentStatus>)
    requires |run| >= 1 && IsRun(run)
    ensures Stage(run[|run| - 1]) >= Stage(run[0]) + |run| - 1
    decreases |run|
  {
    if |run| > 1 {
      assert IsRun(run[1..]) by {
        forall i | 0 <= i < |run[1..]| - 1
          ensures CanMove(run[1..][i], run[1..][i + 1])
        {
          assert run[1..][i] == run[i + 1] && run[1..][i + 1] == run[i + 2];
        }
      }
      RunAdvancesStage(run[1..]);
      assert run[1..][|run[1..]| - 1] == run[|run| - 1];
      MovesGoForward(run[0], run[1]);
    }
  }

  /** The lifecycle has no cycles: a run never revisits a status, so it makes at most
      two moves, and completed and cancelled are final. */
  lemma RunsAreShort(run: seq<EnrollmentStatus>)
    requires |run| >= 1 && IsRun(run)
    ensures |run| <= 3
    ensures forall i, j :: 0 <= i < j < |run| ==> run[i] != run[j]
    ensures (run[0] == Completed || run[0] == Cancelled) ==> |run| == 1
  {
    RunAdvancesStage(run);
    forall i, j | 0 <= i < j < |run|
      ensures run[i] != run[j]
    {
      var part := run[i..j + 1];
      assert IsRun(part) by {
        forall m | 0 <= m < |part| - 1
          ensures CanMove(part[m], part[m + 1])
        {
          assert part[m] == run[i + m] && part[m + 1] == run[i + m + 1];
        }
      }
      RunAdvancesStage(part);
    }
  }

  /** The `status` of a status-change request: one of the three statuses an
      instructor may set; `pending` and anything else are refused. */
  function RequestedStatus(status: Option<string>): (t: Option<EnrollmentStatus>)
    ensures t.Some? <==> status.Some? && status.value in ["active", "completed", "cancelled"]
    ensures t.Some? ==> t.value != Pending && EnrollmentStatusName(t.value) == status.value
  {
    if status.None? then None
    else
      match ParseEnrollmentStatus(status.value)
      case Some(s) => if s == Pending then None else Some(s)
      case None => None
  }

  /** The enrollment after a permitted move: only the status changes, except that a
      move to active also marks it paid. */
  function Moved(e: Enrollment, to: EnrollmentStatus): (m: Enrollment)
    ensures m.course == e.course && m.student == e.student && m.enrolledAt == e.enrolledAt
    ensures m.status == to
    ensures to == Active ==> m.isPaid
    ensures to != Active ==> m.isPaid == e.isPaid
  {
    e.(status := to, isPaid := e.isPaid || to == Active)
  }

  /** The instructor of the course changes an enrollment's status. The checks run in
      this order and fail without writing: malformed id, status outside
      active/completed/cancelled, unknown enrollment, unknown course, caller not the
      course's instructor, move not in the transition table (409). */
  method UpdateEnrollmentStatus(db: Db, user: User, enrollmentId: IdParam, status: Option<string>)
    returns (r: Outcome<Enrollment>)
    requires db.Valid()
    modifies db
    ensures db.Valid()
    ensures unchanged(db`courses, db`sections, db`lessons, db`payments, db`progress)
    ensures r.Fail? ==> db.enrollments == old(db.enrollments)
    ensures !enrollmentId.Given? ==> r == Throw(400, "Invalid enrollment id")
    ensures enrollmentId.Given? && RequestedStatus(status).None? ==> r == Throw(400, "Invalid enrollment status")
    ensures enrollmentId.Given? && RequestedStatus(status).Some? && enrollmentId.id >= |old(db.enrollments)| ==>
      r == Throw(404, "Enrollment not found")
    ensures enrollmentId.Given? && RequestedStatus(status).Some? && enrollmentId.id < |old(db.enrollments)| ==>
      var e := old(db.enrollments[enrollmentId.id]);
      var to := RequestedStatus(status).value;
      && (e.course >= |db.courses| ==> r == Throw(404, "Course not found"))
      && (e.course < |db.courses| && db.courses[e.course].instructor != user.id ==>
            r == Throw(403, "You are not allowed to update this enrollment"))
      && (e.course < |db.courses| && db.courses[e.course].instructor == user.id && !CanMove(e.status, to) ==>
            r == Throw(409, "Cannot change enrollment status from \"" + EnrollmentStatusName(e.status)
                            + "\" to \"" + status.value + "\""))
      && (e.course < |db.courses| && db.courses[e.course].instructor == user.id && CanMove(e.status, to) ==>
            r == Ok(Moved(e, to)) && db.enrollments == old(db.enrollments)[enrollmentId.id := Moved(e, to)])
  {
    if !enrollmentId.Given? {
      return Throw(400, "Invalid enrollment id");
    }
    var target := RequestedStatus(status);
    if target.None? {
      return Throw(400, "Invalid enrollment status");
    }
    var k := enrollmentId.id;
    if k >= |db.enrollments| {
      return Throw(404, "Enrollment not found");
    }
    var e := db.enrollments[k];
    if e.course >= |db.courses| {
      return Throw(404, "Course not found");
    }
    if db.courses[e.course].instructor != user.id {
      return Throw(403, "You are not allowed to update this enrollment");
    }
    if !CanMove(e.status, target.value) {
      return Throw(409, "Cannot change enrollment status from \"" + EnrollmentStatusName(e.status)
                        + "\" to \"" + status.value + "\"");
    }
    var moved := Moved(e, target.value);
    ReplaceEnrollmentKeepsUnique(db.enrollments, k, moved);
    db.enrollments := db.enrollments[k := moved];
    r := Ok(moved);
  }

  // ---------------------------------------------------------------------------
  // Listings

  /** A student's own enrollments that are active or completed, newest first;
      anyone else is refused. */
  function ListMyEnrollments(es: seq<Enrollment>, user: User): (r: Outcome<seq<Id>>)
    ensures user.role != Student ==> r == Throw(403, "Only students can view enrollments")
    ensures user.role == Student ==> r.Ok?
    ensures r.Ok? ==> forall k :: k in r.value ==> k < |es|
    ensures r.Ok? ==> forall k :: 0 <= k < |es| ==>
      (k in r.value <==> es[k].student == user.id && Enrolled(es[k]))
    ensures r.Ok? ==> forall i, j :: 0 <= i < j < |r.value| ==> r.value[i] > r.value[j]
  {
    if user.role != Student then Throw(403, "Only students can view enrollments")
    else Ok(PositionsNewestFirst(es, (e: Enrollment) => e.student == user.id && Enrolled(e), |es|))
  }

  /** The `status` query of the course listing filters only when it names one of the
      four statuses; anything else is ignored. */
  function StatusFilter(status: Option<string>): (f: Option<EnrollmentStatus>)
    ensures f.Some? <==> status.Some? && status.value in EnrollmentEnum
    ensures f.Some? ==> EnrollmentStatusName(f.value) == status.value
  {
    if status.None? then None else ParseEnrollmentStatus(status.value)
  }

  predicate Matches(e: Enrollment, course: Id, filter: Option<EnrollmentStatus>) {
    e.course == course && (filter.None? || e.status == filter.value)
  }

  datatype PageMeta = PageMeta(total: nat, page: int, limit: int, totalPages: nat)

  datatype EnrollmentPage = EnrollmentPage(data: seq<Id>, meta: PageMeta)

  /** The enrollments of a course that pass the status filter, newest first. */
  function CourseEnrollments(es: seq<Enrollment>, course: Id, filter: Option<EnrollmentStatus>): (r: seq<Id>)
    ensures forall k :: k in r ==> k < |es|
    ensures forall k :: 0 <= k < |es| ==> (k in r <==> Matches(es[k], course, filter))
    ensures forall i, j :: 0 <= i < j < |r| ==> r[i] > r[j]
  {
    PositionsNewestFirst(es, (e: Enrollment) => Matches(e, course, filter), |es|)
  }

  /** The course's instructor lists its enrollments one page at a time. A malformed
      id is a 400, an unknown course a 404 and any other caller a 403. The page
      holds the `limit` matching enrollments after the first `(page - 1) * limit`,
      and the meta data counts all of them. */
  function ListCourseEnrollments(courses: seq<Course>, es: seq<Enrollment>, user: User, courseId: IdParam,
                                 status: Option<string>, page: Option<int>, limit: Option<int>)
    : (r: Outcome<EnrollmentPage>)
    ensures !courseId.Given? ==> r == Throw(400, "Invalid course id")
    ensures courseId.Given? && courseId.id >= |courses| ==> r == Throw(404, "Course not found")
    ensures courseId.Given? && courseId.id < |courses| && courses[courseId.id].instructor != user.id ==>
      r == Throw(403, "You are not allowed to view enrollments for this course")
    ensures courseId.Given? && courseId.id < |courses| && courses[courseId.id].instructor == user.id ==>
      var all := CourseEnrollments(es, courseId.id, StatusFilter(status));
      var p, l := NormalizePage(page), NormalizeLimit(limit);
      r == Ok(EnrollmentPage(PageSlice(all, Skip(p, l), l), PageMeta(|all|, p, l, TotalPages(|all|, l))))
  {
    if !courseId.Given? then Throw(400, "Invalid course id")
    else
      var p, l := NormalizePage(page), NormalizeLimit(limit);
      if courseId.id >= |courses| then Throw(404, "Course not found")
      else if courses[courseId.id].instructor != user.id then
        Throw(403, "You are not allowed to view enrollments for this course")
      else
        var all := CourseEnrollments(es, courseId.id, StatusFilter(status));
        Ok(EnrollmentPage(PageSlice(all, Skip(p, l), l), PageMeta(|all|, p, l, TotalPages(|all|, l))))
  }

  /** The page of the filtered listing that holds the enrollment `k`. */
  lemma PageOfMatch(es: seq<Enrollment>, course: Id, filter: Option<EnrollmentStatus>, l: int, k: nat)
    returns (page: int)
    requires l >= 1 && k < |es| && Matches(es[k], course, filter)
    ensures var all := CourseEnrollments(es, course, filter);
      page >= 1 && page <= TotalPages(|all|, l) && k in PageSlice(all, Skip(page, l), l)
  {
    var all := CourseEnrollments(es, course, filter);
    assert k in all;
    var i :| 0 <= i < |all| && all[i] == k;
    PageOfItem(all, i, l);
    page := i / l + 1;
    var data := PageSlice(all, Skip(page, l), l);
    assert data[i - Skip(page, l)] == k;
  }

  /** Every enrollment of the course that passes the filter is listed on some page
      of the listing, and that page is at most `totalPages`. */
  lemma EveryMatchIsOnAPage(courses: seq<Course>, es: seq<Enrollment>, user: User, course: Id,
                            status: Option<string>, limit: Option<int>, k: nat)
    requires course < |courses| && courses[course].instructor == user.id
    requires k < |es| && Matches(es[k], course, StatusFilter(status))
    ensures exists page: int ::
      (page >= 1 &&
       var r := ListCourseEnrollments(courses, es, user, Given(course), status, Some(page), limit);
       r.Ok? && page <= r.value.meta.totalPages && k in r.value.data)
  {
    var l := NormalizeLimit(limit);
    var page := PageOfMatch(es, course, StatusFilter(status), l, k);
    assert NormalizePage(Some(page)) == page;
    var r := ListCourseEnrollments(courses, es, user, Given(course), status, Some(page), limit);
    assert r.Ok? && page <= r.value.meta.totalPages && k in r.value.data;
  }
}
