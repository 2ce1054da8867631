/** Marking a lesson completed: the one write a student makes to their progress. */
module ProgressController {
  import opened Base
  import opened ApiErrors
  import opened Models
  import opened Store

  /** The checks before the upsert, in the order the controller makes them: the
      caller is a student, the lesson, its section and its course exist, the course
      is published and the student holds an active enrollment in it. */
  function CompletionGuard(courses: seq<Course>, sections: seq<Section>, lessons: seq<Lesson>,
                           es: seq<Enrollment>, user: User, lessonId: IdParam): (r: Option<Failure>)
    ensures user.role != Student ==> r == Some(Refusal(403, "Only students can complete lessons"))
    ensures user.role == Student && !lessonId.Given? ==> r == Some(Refusal(400, "Invalid lesson id"))
    ensures user.role == Student && lessonId.Given? && lessonId.id >= |lessons| ==>
      r == Some(Refusal(404, "Lesson not found"))
    ensures (user.role == Student && lessonId.Given? && lessonId.id < |lessons|
             && lessons[lessonId.id].section >= |sections|) ==>
      r == Some(Refusal(404, "Section not found"))
    ensures (user.role == Student && lessonId.Given? && lessonId.id < |lessons|
             && lessons[lessonId.id].section < |sections|
             && sections[lessons[lessonId.id].section].course >= |courses|) ==>
      r == Some(Refusal(404, "Course not found"))
    ensures (user.role == Student && lessonId.Given? && lessonId.id < |lessons|
             && lessons[lessonId.id].section < |sections|
             && sections[lessons[lessonId.id].section].course < |courses|
             && courses[sections[lessons[lessonId.id].section].course].status != Published) ==>
      r == Some(Refusal(403, "Course is not published"))
    ensures (user.role == Student && lessonId.Given? && lessonId.id < |lessons|
             && lessons[lessonId.id].section < |sections|
             && sections[lessons[lessonId.id].section].course < |courses|
             && courses[sections[lessons[lessonId.id].section].course].status == Published
             && ActiveEnrollmentOf(es, sections[lessons[lessonId.id].section].course, user.id).None?) ==>
      r == Some(Refusal(403, "You must be enrolled to complete lessons"))
    ensures r.None? <==>
      && user.role == Student && lessonId.Given? && lessonId.id < |lessons|
      && lessons[lessonId.id].section < |sections|
      && sections[lessons[lessonId.id].section].course < |courses|
      && courses[sections[lessons[lessonId.id].section].course].status == Published
      && ActiveEnrollmentOf(es, sections[lessons[lessonId.id].section].course, user.id).Some?
  {
    if user.role != Student then Some(Refusal(403, "Only students can complete lessons"))
    else if !lessonId.Given? then Some(Refusal(400, "Invalid lesson id"))
    else if lessonId.id >= |lessons| then Some(Refusal(404, "Lesson not found"))
    else if lessons[lessonId.id].section >= |sections| then Some(Refusal(404, "Section not found"))
    else
      var c := sections[lessons[lessonId.id].section].course;
      if c >= |courses| then Some(Refusal(404, "Course not found"))
      else if courses[c].status != Published then Some(Refusal(403, "Course is not published"))
      else if ActiveEnrollmentOf(es, c, user.id).None? then
        Some(Refusal(403, "You must be enrolled to complete lessons"))
      else None
  }

  /** A record after the completion update. */
  function Completed(p: Progress, now: Time): (q: Progress)
    ensures q.completed && q.completedAt == Some(now)
    ensures q.student == p.student && q.course == p.course && q.lesson == p.lesson
  {
    p.(completed := true, completedAt := Some(now))
  }

  /** The upsert `{ student, course, lesson, completed: { $ne: true } }` →
      `{ completed: true, completedAt: now }`. An open record of the lesson is
      completed in place; with no record at all a completed one is inserted. When the
      only record is already completed, the filter matches nothing, the insert hits
      the unique index and the request fails with a duplicate key: a completion is
      recorded once and never re-stamped. */
  method MarkLessonCompleted(db: Db, user: User, lessonId: IdParam, now: Time) returns (r: Outcome<Progress>)
    requires db.Valid()
    modifies db
    ensures db.Valid()
    ensures unchanged(db`courses, db`sections, db`lessons, db`enrollments, db`payments)
    ensures r.Fail? ==> db.progress == old(db.progress)
    ensures |db.progress| >= |old(db.progress)|
    ensures forall i :: 0 <= i < |old(db.progress)| && old(db.progress)[i].completed ==>
      db.progress[i] == old(db.progress)[i]
    ensures CompletionGuard(db.courses, db.sections, db.lessons, db.enrollments, user, lessonId).Some? ==>
      r == Fail(CompletionGuard(db.courses, db.sections, db.lessons, db.enrollments, user, lessonId).value)
    ensures CompletionGuard(db.courses, db.sections, db.lessons, db.enrollments, user, lessonId).None? ==>
      var l := lessonId.id;
      var c := db.sections[db.lessons[l].section].course;
      var open := OpenProgressOf(old(db.progress), user.id, c, l);
      var any := ProgressOf(old(db.progress), user.id, c, l);
      && (open.Some? ==>
            && db.progress == old(db.progress)[open.value := Completed(old(db.progress)[open.value], now)]
            && r == Ok(db.progress[open.value]))
      && (open.None? && any.Some? ==>
            r == Fail(DuplicateKey(["student", "course", "lesson"])))
      && (any.None? ==>
            && db.progress == old(db.progress) + [Progress(user.id, c, l, true, Some(now))]
            && r == Ok(Progress(user.id, c, l, true, Some(now))))
    ensures r.Ok? ==>
      && r.value.completed && r.value.completedAt == Some(now) && r.value.student == user.id
      && r.value in db.progress
  {
    var guard := CompletionGuard(db.courses, db.sections, db.lessons, db.enrollments, user, lessonId);
    if guard.Some? {
      return Fail(guard.value);
    }
    var l := lessonId.id;
    var c := db.sections[db.lessons[l].section].course;
    var open := OpenProgressOf(db.progress, user.id, c, l);
    if open.Some? {
      var q := Completed(db.progress[open.value], now);
      db.progress := db.progress[open.value := q];
      return Ok(q);
    }
    if ProgressOf(db.progress, user.id, c, l).Some? {
      return Fail(DuplicateKey(["student", "course", "lesson"]));
    }
    var q := Progress(user.id, c, l, true, Some(now));
    AddProgressKeepsUnique(db.progress, q);
    db.progress := db.progress + [q];
    r := Ok(q);
  }
}
