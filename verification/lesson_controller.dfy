/** An instructor adds a lesson to a section of one of their courses. */
module LessonController {
  import opened Base
  import opened Strings
  import opened ApiErrors
  import opened Models
  import opened Store

  /** The `order` field of the request body: absent, an integer, or some other value
      (a fraction, a string, null), which `Number.isInteger` refuses. */
  datatype LessonOrder = OrderMissing | IntOrder(n: int) | NonInteger

  /** The body of a create-lesson request; a string field is `None` when absent. */
  datatype LessonRequest = LessonRequest(
    section: IdParam,
    title: Option<string>,
    kind: Option<string>,
    content: Option<string>,
    order: LessonOrder,
    duration: Option<int>)

  /** What a request must satisfy to pass validation, stated field by field: every
      required field is there, the section id is well formed, the type is `video` or
      `text`, the order is an integer of at least 1, a text lesson has some
      non-blank content, and a video lesson has a non-negative duration (if any) and
      content that parses as a URL. */
  predicate AcceptableLesson(req: LessonRequest, urlParses: string -> bool) {
    && req.section.Given? && Present(req.title) && Present(req.content)
    && Present(req.kind) && ParseLessonType(req.kind.value).Some?
    && req.order.IntOrder? && req.order.n >= 1
    && (ParseLessonType(req.kind.value) == Some(Text) ==> !AllSpace(req.content.value))
    && (ParseLessonType(req.kind.value) == Some(Video) ==>
          (req.duration.None? || req.duration.value >= 0) && urlParses(req.content.value))
  }

  /** The validation chain that runs before any lookup; `urlParses` stands for
      whether `new URL(content)` succeeds. It refuses exactly the requests that are
      not acceptable, each with the message of the first check it fails. */
  function CheckLessonRequest(req: LessonRequest, urlParses: string -> bool): (r: Option<Failure>)
    ensures r.None? <==> AcceptableLesson(req, urlParses)
    ensures r.Some? ==> r.value.Api? && r.value.error.statusCode == 400
    ensures (req.section.Absent? || !Present(req.title) || !Present(req.kind) || !Present(req.content)
             || req.order.OrderMissing?) ==>
      r == Some(Refusal(400, "All required fields must be provided"))
    ensures (Present(req.title) && Present(req.kind) && Present(req.content) && !req.order.OrderMissing?
             && req.section.Malformed?) ==>
      r == Some(Refusal(400, "Invalid section id"))
    ensures (req.section.Given? && Present(req.title) && Present(req.kind) && Present(req.content)
             && !req.order.OrderMissing? && ParseLessonType(req.kind.value).None?) ==>
      r == Some(Refusal(400, "Invalid lesson type"))
    ensures (req.section.Given? && Present(req.title) && Present(req.kind) && Present(req.content)
             && !req.order.OrderMissing? && ParseLessonType(req.kind.value) == Some(Text)
             && AllSpace(req.content.value)) ==>
      r == Some(Refusal(400, "Lesson content cannot be empty"))
    ensures (req.section.Given? && Present(req.title) && Present(req.kind) && Present(req.content)
             && !req.order.OrderMissing? && ParseLessonType(req.kind.value).Some?
             && !(ParseLessonType(req.kind.value) == Some(Text) && AllSpace(req.content.value))
             && !(req.order.IntOrder? && req.order.n >= 1)) ==>
      r == Some(Refusal(400, "Order must be a positive integer"))
    ensures (req.section.Given? && Present(req.title) && Present(req.kind) && Present(req.content)
             && req.order.IntOrder? && req.order.n >= 1 && ParseLessonType(req.kind.value) == Some(Video)
             && req.duration.Some? && req.duration.value < 0) ==>
      r == Some(Refusal(400, "Duration cannot be negative"))
    ensures (req.section.Given? && Present(req.title) && Present(req.kind) && Present(req.content)
             && req.order.IntOrder? && req.order.n >= 1 && ParseLessonType(req.kind.value) == Some(Video)
             && (req.duration.None? || req.duration.value >= 0) && !urlParses(req.content.value)) ==>
      r == Some(Refusal(400, "Invalid video URL"))
  {
    if req.section.Absent? || !Present(req.title) || !Present(req.kind) || !Present(req.content)
       || req.order.OrderMissing? then
      Some(Refusal(400, "All required fields must be provided"))
    else if req.section.Malformed? then Some(Refusal(400, "Invalid section id"))
    else if ParseLessonType(req.kind.value).None? then Some(Refusal(400, "Invalid lesson type"))
    else
      var kind := ParseLessonType(req.kind.value).value;
      if kind == Text && Trim(req.content.value) == "" then Some(Refusal(400, "Lesson content cannot be empty"))
      else if !req.order.IntOrder? || req.order.n < 1 then Some(Refusal(400, "Order must be a positive integer"))
      else if kind == Video && req.duration.Some? && req.duration.value < 0 then
        Some(Refusal(400, "Duration cannot be negative"))
      else if kind == Video && !urlParses(req.content.value) then Some(Refusal(400, "Invalid video URL"))
      else None
  }

  /** The lesson the request describes: the title trimmed, and a duration kept only
      for a video lesson. */
  function NewLesson(req: LessonRequest, urlParses: string -> bool): (l: Lesson)
    requires AcceptableLesson(req, urlParses)
    ensures l.section == req.section.id && l.order == req.order.n && l.order >= 1
    ensures LessonTypeName(l.kind) == req.kind.value && l.content == req.content.value
    ensures l.title == Trim(req.title.value)
    ensures l.kind == Text ==> l.duration.None?
    ensures l.kind == Video ==> l.duration == req.duration
    ensures l.duration.Some? ==> l.duration.value >= 0
  {
    var kind := ParseLessonType(req.kind.value).value;
    Lesson(req.section.id, Trim(req.title.value), kind, req.content.value, req.order.n,
           if kind == Video then req.duration else None)
  }

  /** Validation, then the section, its course and the caller's ownership of the
      course, in that order; a taken (section, order) is refused with 409 before the
      insert, and a title that trims to nothing fails the schema's `required`. */
  method CreateLesson(db: Db, user: User, req: LessonRequest, urlParses: string -> bool)
    returns (r: Outcome<Lesson>)
    requires db.Valid()
    modifies db
    ensures db.Valid()
    ensures unchanged(db`courses, db`sections, db`enrollments, db`payments, db`progress)
    ensures r.Fail? ==> db.lessons == old(db.lessons)
    ensures CheckLessonRequest(req, urlParses).Some? ==> r == Fail(CheckLessonRequest(req, urlParses).value)
    ensures CheckLessonRequest(req, urlParses).None? ==>
      var s := req.section.id;
      && (s >= |db.sections| ==> r == Throw(404, "Section not found"))
      && (s < |db.sections| && db.sections[s].course >= |db.courses| ==> r == Throw(404, "Course not found"))
      && (s < |db.sections| && db.sections[s].course < |db.courses|
          && db.courses[db.sections[s].course].instructor != user.id ==>
            r == Throw(403, "You are not allowed to add lessons to this section"))
      && (s < |db.sections| && db.sections[s].course < |db.courses|
          && db.courses[db.sections[s].course].instructor == user.id ==>
            && (LessonAt(old(db.lessons), s, req.order.n).Some? ==>
                  r == Throw(409, "Lesson with this order already exists in the section"))
            && (LessonAt(old(db.lessons), s, req.order.n).None? && AllSpace(req.title.value) ==>
                  r == Fail(Validation([RequiredMessage("title")])))
            && (LessonAt(old(db.lessons), s, req.order.n).None? && !AllSpace(req.title.value) ==>
                  && r == Ok(NewLesson(req, urlParses))
                  && db.lessons == old(db.lessons) + [NewLesson(req, urlParses)]))
  {
    var check := CheckLessonRequest(req, urlParses);
    if check.Some? {
      return Fail(check.value);
    }
    var s := req.section.id;
    if s >= |db.sections| {
      return Throw(404, "Section not found");
    }
    var c := db.sections[s].course;
    if c >= |db.courses| {
      return Throw(404, "Course not found");
    }
    if db.courses[c].instructor != user.id {
      return Throw(403, "You are not allowed to add lessons to this section");
    }
    if LessonAt(db.lessons, s, req.order.n).Some? {
      return Throw(409, "Lesson with this order already exists in the section");
    }
    var errs := TrimmedRequired("title", req.title.value);
    if errs != [] {
      return Fail(Validation(errs));
    }
    var l := NewLesson(req, urlParses);
    AddLessonKeepsUnique(db.lessons, l);
    db.lessons := db.lessons + [l];
    r := Ok(l);
  }
}
