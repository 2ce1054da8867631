/** A student's dashboard: one entry per course they are enrolled in, with how many
    of its lessons they have completed. */
module StudentDashboard {
  import opened Base
  import opened ApiErrors
  import opened Models
  import opened Seqs
  import opened Store

  /** `Math.round(completed / total * 100)` in integers, rounding halves up. */
  function RoundPercent(completed: nat, total: nat): (r: int)
    requires total > 0
    ensures 2 * r * total <= 200 * completed + total < 2 * r * total + 2 * total
    ensures completed <= total ==> 0 <= r <= 100
    ensures completed == total ==> r == 100
    ensures completed == 0 ==> r == 0
  {
    PercentFacts(completed, total);
    (200 * completed + total) / (2 * total)
  }

  lemma PercentFacts(completed: nat, total: nat)
    requires total > 0
    ensures var r := (200 * completed + total) / (2 * total);
      && 2 * r * total <= 200 * completed + total < 2 * r * total + 2 * total
      && (completed <= total ==> 0 <= r <= 100)
      && (completed == total ==> r == 100)
      && (completed == 0 ==> r == 0)
  {
    var a, b := 200 * completed + total, 2 * total;
    DivisionIs(a, b, a / b);
    PercentAtMost100(completed, total);
    if completed == total {
      DivisionIs(a, b, 100);
    }
    if completed == 0 {
      DivisionIs(a, b, 0);
    }
  }

  /** `q` is the quotient of `a` by `b` exactly when `q * b <= a < q * b + b`. */
  lemma DivisionIs(a: nat, b: nat, q: int)
    requires b > 0
    ensures q == a / b <==> q * b <= a < q * b + b
  {
    var d := a / b;
    assert d * b + a % b == a;
    if q * b <= a < q * b + b {
      if q < d {
        MulMonotone(q + 1, d, b);
      } else if q > d {
        MulMonotone(d + 1, q, b);
      }
    }
  }

  /** The rounded share of at most the whole is at most 100, and 0 of it is 0. */
  lemma PercentAtMost100(completed: nat, total: nat)
    requires total > 0
    ensures completed <= total ==> 0 <= (200 * completed + total) / (2 * total) <= 100
  {
    var a, b := 200 * completed + total, 2 * total;
    var q := a / b;
    DivisionIs(a, b, q);
    if completed <= total && q > 100 {
      MulMonotone(101, q, b);
    }
  }

  /** The lessons of a course: those whose section exists and belongs to it. */
  function CourseLessons(sections: seq<Section>, lessons: seq<Lesson>, course: Id): set<nat> {
    set l | 0 <= l < |lessons| && lessons[l].section < |sections| && sections[lessons[l].section].course == course
  }

  /** The student's completed progress records for lessons among `lessonIds` of the
      course (`Progress.countDocuments` with `completed: true`). */
  function CompletedRecords(ps: seq<Progress>, student: Id, course: Id, lessonIds: set<nat>): set<nat> {
    set k | 0 <= k < |ps| && ps[k].student == student && ps[k].course == course
                            && ps[k].lesson in lessonIds && ps[k].completed
  }

  /** The course has at least one section (`Section.find({ course })` is not empty). */
  predicate HasSections(sections: seq<Section>, course: Id) {
    exists i :: 0 <= i < |sections| && sections[i].course == course
  }

  datatype DashboardEntry = DashboardEntry(
    course: Id,
    title: string,
    thumbnail: Option<string>,
    status: EnrollmentStatus,
    totalLessons: nat,
    completedLessons: nat,
    progressPercentage: int)

  /** The entry for one enrollment whose course exists. A course without sections,
      or whose sections hold no lessons, reports zeros; otherwise the totals and the
      rounded percentage. */
  function Entry(courses: seq<Course>, sections: seq<Section>, lessons: seq<Lesson>, ps: seq<Progress>,
                 student: Id, e: Enrollment): (d: DashboardEntry)
    requires e.course < |courses|
    ensures d.course == e.course && d.title == courses[e.course].title
    ensures d.thumbnail == courses[e.course].thumbnail && d.status == e.status
    ensures d.totalLessons == |CourseLessons(sections, lessons, e.course)|
    ensures d.totalLessons == 0 ==> d.completedLessons == 0 && d.progressPercentage == 0
    ensures d.totalLessons > 0 ==>
      && d.completedLessons == |CompletedRecords(ps, student, e.course, CourseLessons(sections, lessons, e.course))|
      && d.progressPercentage == RoundPercent(d.completedLessons, d.totalLessons)
  {
    var c := courses[e.course];
    var own := CourseLessons(sections, lessons, e.course);
    if !HasSections(sections, e.course) then
      assert own == {};
      DashboardEntry(e.course, c.title, c.thumbnail, e.status, 0, 0, 0)
    else if |own| == 0 then
      DashboardEntry(e.course, c.title, c.thumbnail, e.status, 0, 0, 0)
    else
      var done := |CompletedRecords(ps, student, e.course, own)|;
      DashboardEntry(e.course, c.title, c.thumbnail, e.status, |own|, done, RoundPercent(done, |own|))
  }

  /** The lessons the records in `ks` are about. */
  function RecordLessons(ps: seq<Progress>, ks: set<nat>): set<nat>
    requires forall k :: k in ks ==> k < |ps|
  {
    set k | k in ks :: ps[k].lesson
  }

  /** Records about pairwise different lessons are as many as the lessons. */
  lemma {:induction false} DistinctLessonsCount(ps: seq<Progress>, ks: set<nat>)
    requires forall k :: k in ks ==> k < |ps|
    requires forall a, b :: a in ks && b in ks && ps[a].lesson == ps[b].lesson ==> a == b
    ensures |RecordLessons(ps, ks)| == |ks|
    decreases |ks|
  {
    if ks != {} {
      var x :| x in ks;
      var rest := ks - {x};
      DistinctLessonsCount(ps, rest);
      assert RecordLessons(ps, ks) == RecordLessons(ps, rest) + {ps[x].lesson};
    }
  }

  /** With one progress record per (student, course, lesson), a student never has
      more completed lessons than the course has lessons, so the percentage stays
      within 0..100. */
  lemma CompletedWithinTotal(courses: seq<Course>, sections: seq<Section>, lessons: seq<Lesson>,
                             ps: seq<Progress>, student: Id, e: Enrollment)
    requires UniqueProgress(ps) && e.course < |courses|
    ensures var d := Entry(courses, sections, lessons, ps, student, e);
      d.completedLessons <= d.totalLessons && 0 <= d.progressPercentage <= 100
  {
    var own := CourseLessons(sections, lessons, e.course);
    var done := CompletedRecords(ps, student, e.course, own);
    DistinctLessonsCount(ps, done);
    assert RecordLessons(ps, done) <= own;
    SubsetSize(RecordLessons(ps, done), own);
  }

  lemma {:induction false} SubsetSize(a: set<nat>, b: set<nat>)
    requires a <= b
    ensures |a| <= |b|
  {
    assert b == a + (b - a);
  }

  /** The enrollments the dashboard shows: the student's active or completed ones,
      in insertion order (`Enrollment.find({ student, status: { $in: [...] } })`). */
  function DashboardEnrollments(es: seq<Enrollment>, student: Id): (r: seq<nat>)
    ensures forall i :: 0 <= i < |r| ==> r[i] < |es|
    ensures forall k :: 0 <= k < |es| ==> (k in r <==> es[k].student == student && Enrolled(es[k]))
    ensures forall i, j :: 0 <= i < j < |r| ==> r[i] < r[j]
  {
    var r := Positions(es, (e: Enrollment) => e.student == student && Enrolled(e), |es|);
    assert forall i :: 0 <= i < |r| ==> r[i] in r;
    r
  }

  /** The error an enrollment whose course is gone raises: `populate` leaves `course`
      null and reading `_id` from it throws. */
  const NullCourse := TypeError("Cannot read properties of null (reading '_id')")

  /** One entry per enrollment in `ids`, in the same order, unless one of them has
      lost its course, in which case the whole request fails. */
  function Entries(courses: seq<Course>, sections: seq<Section>, lessons: seq<Lesson>, ps: seq<Progress>,
                   es: seq<Enrollment>, student: Id, ids: seq<nat>): (r: Outcome<seq<DashboardEntry>>)
    requires forall i :: 0 <= i < |ids| ==> ids[i] < |es|
    ensures r.Fail? <==> exists i :: 0 <= i < |ids| && es[ids[i]].course >= |courses|
    ensures r.Fail? ==> r == Fail(NullCourse)
    ensures r.Ok? ==> |r.value| == |ids| && forall i :: 0 <= i < |ids| ==>
      es[ids[i]].course < |courses| && r.value[i] == Entry(courses, sections, lessons, ps, student, es[ids[i]])
  {
    if |ids| == 0 then Ok([])
    else if es[ids[0]].course >= |courses| then Fail(NullCourse)
    else
      match Entries(courses, sections, lessons, ps, es, student, ids[1..])
      case Fail(f) => Fail(f)
      case Ok(rest) => Ok([Entry(courses, sections, lessons, ps, student, es[ids[0]])] + rest)
  }

  /** The dashboard: students only; one entry per active or completed enrollment of
      theirs, in enrollment order. */
  function GetStudentDashboard(courses: seq<Course>, sections: seq<Section>, lessons: seq<Lesson>,
                               ps: seq<Progress>, es: seq<Enrollment>, user: User)
    : (r: Outcome<seq<DashboardEntry>>)
    ensures user.role != Student ==> r == Throw(403, "Only students can access dashboard")
    ensures user.role == Student && DashboardEnrollments(es, user.id) == [] ==> r == Ok([])
    ensures user.role == Student ==>
      var mine := DashboardEnrollments(es, user.id);
      && (r.Fail? <==> exists i :: 0 <= i < |mine| && es[mine[i]].course >= |courses|)
      && (r.Ok? ==> |r.value| == |mine| && forall i :: 0 <= i < |mine| ==>
            r.value[i] == Entry(courses, sections, lessons, ps, user.id, es[mine[i]]))
  {
    if user.role != Student then Throw(403, "Only students can access dashboard")
    else
      var mine := DashboardEnrollments(es, user.id);
      if |mine| == 0 then Ok([])
      else Entries(courses, sections, lessons, ps, es, user.id, mine)
  }

  /** Every entry of a student's dashboard reports no more completed lessons than the
      course has, and a percentage in 0..100. */
  lemma DashboardPercentagesInRange(courses: seq<Course>, sections: seq<Section>, lessons: seq<Lesson>,
                                    ps: seq<Progress>, es: seq<Enrollment>, user: User)
    requires UniqueProgress(ps)
    requires GetStudentDashboard(courses, sections, lessons, ps, es, user).Ok?
    ensures var v := GetStudentDashboard(courses, sections, lessons, ps, es, user).value;
      forall i :: 0 <= i < |v| ==>
        v[i].completedLessons <= v[i].totalLessons && 0 <= v[i].progressPercentage <= 100
  {
    var v := GetStudentDashboard(courses, sections, lessons, ps, es, user).value;
    var mine := DashboardEnrollments(es, user.id);
    forall i | 0 <= i < |v|
      ensures v[i].completedLessons <= v[i].totalLessons && 0 <= v[i].progressPercentage <= 100
    {
      CompletedWithinTotal(courses, sections, lessons, ps, user.id, es[mine[i]]);
    }
  }
}
