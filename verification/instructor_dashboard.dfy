/** An instructor's dashboard: an overview of their courses and enrollments, and one
    line of figures per course. */
module InstructorDashboard {
  import opened Base
  import opened Models
  import opened Seqs

  // ---------------------------------------------------------------------------
  // Counting

  /** How many of the courses at positions `ids` are published. */
  function CountPublished(cs: seq<Course>, ids: seq<nat>): nat
    requires forall i :: 0 <= i < |ids| ==> ids[i] < |cs|
  {
    if |ids| == 0 then 0
    else (if cs[ids[0]].status == Published then 1 else 0) + CountPublished(cs, ids[1..])
  }

  /** How many of the courses at positions `ids` are not published (drafts and
      unpublished courses alike). */
  function CountUnpublished(cs: seq<Course>, ids: seq<nat>): nat
    requires forall i :: 0 <= i < |ids| ==> ids[i] < |cs|
  {
    if |ids| == 0 then 0
    else (if cs[ids[0]].status != Published then 1 else 0) + CountUnpublished(cs, ids[1..])
  }

  /** Every course is counted exactly once, as published or as not. */
  lemma {:induction false} PublishedPlusUnpublished(cs: seq<Course>, ids: seq<nat>)
    requires forall i :: 0 <= i < |ids| ==> ids[i] < |cs|
    ensures CountPublished(cs, ids) + CountUnpublished(cs, ids) == |ids|
  {
    if |ids| > 0 {
      PublishedPlusUnpublished(cs, ids[1..]);
    }
  }

  /** The enrollments whose course is among `ids` (`Enrollment.find({ course: { $in } })`). */
  function CountIn(es: seq<Enrollment>, ids: seq<nat>): nat {
    if |es| == 0 then 0
    else (if es[0].course in ids then 1 else 0) + CountIn(es[1..], ids)
  }

  /** Those of them that are active or completed. */
  function CountEnrolledIn(es: seq<Enrollment>, ids: seq<nat>): nat {
    if |es| == 0 then 0
    else (if es[0].course in ids && Enrolled(es[0]) then 1 else 0) + CountEnrolledIn(es[1..], ids)
  }

  /** The enrollments of one course. */
  function CountCourse(es: seq<Enrollment>, course: Id): nat {
    if |es| == 0 then 0
    else (if es[0].course == course then 1 else 0) + CountCourse(es[1..], course)
  }

  /** The completed enrollments of one course. */
  function CountCompleted(es: seq<Enrollment>, course: Id): nat {
    if |es| == 0 then 0
    else (if es[0].course == course && es[0].status == Completed then 1 else 0) + CountCompleted(es[1..], course)
  }

  /** Active students are a subset of all enrollments. */
  lemma {:induction false} EnrolledWithinAll(es: seq<Enrollment>, ids: seq<nat>)
    ensures CountEnrolledIn(es, ids) <= CountIn(es, ids)
  {
    if |es| > 0 {
      EnrolledWithinAll(es[1..], ids);
    }
  }

  /** A course's completed students are a subset of its students. */
  lemma {:induction false} CompletedWithinCourse(es: seq<Enrollment>, course: Id)
    ensures CountCompleted(es, course) <= CountCourse(es, course)
  {
    if |es| > 0 {
      CompletedWithinCourse(es[1..], course);
    }
  }

  /** With the first course id distinct from the rest, the enrollments of the whole
      list split into those of the first course and those of the rest. */
  lemma {:induction false} CountInSplit(es: seq<Enrollment>, ids: seq<nat>)
    requires |ids| > 0 && ids[0] !in ids[1..]
    ensures CountIn(es, ids) == CountCourse(es, ids[0]) + CountIn(es, ids[1..])
  {
    if |es| > 0 {
      CountInSplit(es[1..], ids);
      assert es[0].course in ids <==> es[0].course == ids[0] || es[0].course in ids[1..];
    }
  }

  // ---------------------------------------------------------------------------
  // The dashboard

  datatype Overview = Overview(
    totalCourses: nat,
    publishedCourses: nat,
    draftCourses: nat,
    totalEnrollments: nat,
    activeStudents: nat)

  datatype CourseStat = CourseStat(
    courseId: Id,
    title: string,
    status: CourseStatus,
    totalStudents: nat,
    completedStudents: nat)

  datatype Dashboard = Dashboard(overview: Overview, courses: seq<CourseStat>)

  /** The courses the instructor owns, in insertion order. */
  function OwnCourses(cs: seq<Course>, instructor: Id): (r: seq<nat>)
    ensures forall i :: 0 <= i < |r| ==> r[i] < |cs| && cs[r[i]].instructor == instructor
    ensures forall k :: 0 <= k < |cs| && cs[k].instructor == instructor ==> k in r
    ensures Distinct(r)
  {
    var r := Positions(cs, (c: Course) => c.instructor == instructor, |cs|);
    assert forall i :: 0 <= i < |r| ==> r[i] in r;
    r
  }

  /** One line of figures per course, in the same order. */
  function Stats(cs: seq<Course>, es: seq<Enrollment>, ids: seq<nat>): (r: seq<CourseStat>)
    requires forall i :: 0 <= i < |ids| ==> ids[i] < |cs|
    ensures |r| == |ids|
    ensures forall i :: 0 <= i < |ids| ==>
      r[i] == CourseStat(ids[i], cs[ids[i]].title, cs[ids[i]].status,
                         CountCourse(es, ids[i]), CountCompleted(es, ids[i]))
  {
    if |ids| == 0 then []
    else
      [CourseStat(ids[0], cs[ids[0]].title, cs[ids[0]].status, CountCourse(es, ids[0]), CountCompleted(es, ids[0]))]
        + Stats(cs, es, ids[1..])
  }

  /** The sum of the lines' student counts. */
  function SumStudents(stats: seq<CourseStat>): nat {
    if |stats| == 0 then 0 else stats[0].totalStudents + SumStudents(stats[1..])
  }

  /** Over distinct courses, the per-course student counts add up to the number of
      enrollments in any of them: each enrollment is counted on exactly one line. */
  lemma {:induction false} StudentsAddUp(cs: seq<Course>, es: seq<Enrollment>, ids: seq<nat>)
    requires forall i :: 0 <= i < |ids| ==> ids[i] < |cs|
    requires Distinct(ids)
    ensures SumStudents(Stats(cs, es, ids)) == CountIn(es, ids)
  {
    if |ids| == 0 {
      CountInNone(es, ids);
    } else {
      assert ids[0] !in ids[1..];
      StudentsAddUp(cs, es, ids[1..]);
      CountInSplit(es, ids);
      assert Stats(cs, es, ids)[1..] == Stats(cs, es, ids[1..]);
    }
  }

  lemma {:induction false} CountInNone(es: seq<Enrollment>, ids: seq<nat>)
    requires ids == []
    ensures CountIn(es, ids) == 0
  {
    if |es| > 0 {
      CountInNone(es[1..], ids);
    }
  }

  /** The dashboard of the instructor `instructor`. Without courses it is all zeros;
      otherwise the overview counts the courses by status and the enrollments in
      them, and there is one line per course. Its figures agree with each other:
      published and draft courses make up the total, active students are among the
      enrollments, completed students among a course's students, and the lines'
      student counts add up to the total. */
  function GetInstructorDashboard(cs: seq<Course>, es: seq<Enrollment>, instructor: Id): (d: Dashboard)
    ensures var own := OwnCourses(cs, instructor);
      && d.overview.totalCourses == |own|
      && d.overview.publishedCourses == CountPublished(cs, own)
      && d.overview.draftCourses == CountUnpublished(cs, own)
      && d.overview.totalEnrollments == CountIn(es, own)
      && d.overview.activeStudents == CountEnrolledIn(es, own)
      && d.courses == Stats(cs, es, own)
    ensures d.overview.publishedCourses + d.overview.draftCourses == d.overview.totalCourses
    ensures d.overview.activeStudents <= d.overview.totalEnrollments
    ensures forall i :: 0 <= i < |d.courses| ==> d.courses[i].completedStudents <= d.courses[i].totalStudents
    ensures SumStudents(d.courses) == d.overview.totalEnrollments
    ensures OwnCourses(cs, instructor) == [] ==> d == Dashboard(Overview(0, 0, 0, 0, 0), [])
  {
    var own := OwnCourses(cs, instructor);
    PublishedPlusUnpublished(cs, own);
    EnrolledWithinAll(es, own);
    StudentsAddUp(cs, es, own);
    forall c | c in own
      ensures CountCompleted(es, c) <= CountCourse(es, c)
    {
      CompletedWithinCourse(es, c);
    }
    if |own| == 0 then
      CountInNone(es, own);
      EnrolledWithinAll(es, own);
      Dashboard(Overview(0, 0, 0, 0, 0), [])
    else
      Dashboard(
        Overview(|own|, CountPublished(cs, own), CountUnpublished(cs, own), CountIn(es, own), CountEnrolledIn(es, own)),
        Stats(cs, es, own))
  }
}
