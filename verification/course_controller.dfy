/** An instructor creates a course; it starts as a draft owned by them. */
module CourseController {
  import opened Base
  import opened Strings
  import opened ApiErrors
  import opened Models
  import opened Store

  /** The body of a create-course request; a field is `None` when absent. */
  datatype CourseRequest = CourseRequest(
    title: Option<string>,
    description: Option<string>,
    category: Option<string>,
    price: Option<int>,
    level: Option<string>,
    thumbnail: Option<string>)

  /** The controller's own checks: the four required fields, then the price bound.
      A price of 0 passes: free courses are allowed. */
  function CheckCourseRequest(req: CourseRequest): (r: Option<Failure>)
    ensures r.None? <==>
      Present(req.title) && Present(req.description) && Present(req.category)
      && req.price.Some? && req.price.value >= 0
    ensures (!Present(req.title) || !Present(req.description) || !Present(req.category) || req.price.None?) ==>
      r == Some(Refusal(400, "All required fields must be provided"))
    ensures (Present(req.title) && Present(req.description) && Present(req.category)
             && req.price.Some? && req.price.value < 0) ==>
      r == Some(Refusal(400, "Course price cannot be negative"))
  {
    if !Present(req.title) || !Present(req.description) || !Present(req.category) || req.price.None? then
      Some(Refusal(400, "All required fields must be provided"))
    else if req.price.value < 0 then Some(Refusal(400, "Course price cannot be negative"))
    else None
  }

  /** The schema's validators on the fields the controller does not check itself, in
      path order: the trimmed title must be non-empty and the level, when given,
      must be one of the enum's values. */
  function CourseSchemaErrors(title: string, level: Option<string>): (errs: seq<string>)
    ensures errs == [] <==> !AllSpace(title) && LevelOrDefault(level).Some?
    ensures AllSpace(title) ==> RequiredMessage("title") in errs
    ensures LevelOrDefault(level).None? ==> EnumMessage(level.value, "level") in errs
  {
    TrimmedRequired("title", title)
      + (if LevelOrDefault(level).None? then [EnumMessage(level.value, "level")] else [])
  }

  /** The stored course: the caller as instructor, the title trimmed, the level
      defaulted, a draft with all totals 0. */
  function NewCourse(user: User, req: CourseRequest): (c: Course)
    requires CheckCourseRequest(req).None?
    requires CourseSchemaErrors(req.title.value, req.level) == []
    ensures c.instructor == user.id && c.price == req.price.value && c.price >= 0
    ensures c.title == Trim(req.title.value) && c.title != ""
    ensures c.description == req.description.value && c.category == req.category.value
    ensures req.level.None? ==> c.level == Beginner
    ensures req.level.Some? ==> LevelName(c.level) == req.level.value
    ensures c.thumbnail == req.thumbnail
    ensures c.status == Draft && c.totalSections == 0 && c.totalLessons == 0 && c.totalEnrollments == 0
  {
    Course(user.id, Trim(req.title.value), req.description.value, req.category.value,
           LevelOrDefault(req.level).value, req.price.value, req.thumbnail, Draft, 0, 0, 0)
  }

  /** Validation, then the insert. Nothing is written when either the controller's
      checks or the schema's validators refuse the request. */
  method CreateCourse(db: Db, user: User, req: CourseRequest) returns (r: Outcome<Course>)
    requires db.Valid()
    modifies db
    ensures db.Valid()
    ensures unchanged(db`sections, db`lessons, db`enrollments, db`payments, db`progress)
    ensures r.Fail? ==> db.courses == old(db.courses)
    ensures CheckCourseRequest(req).Some? ==> r == Fail(CheckCourseRequest(req).value)
    ensures (CheckCourseRequest(req).None? && CourseSchemaErrors(req.title.value, req.level) != []) ==>
      r == Fail(Validation(CourseSchemaErrors(req.title.value, req.level)))
    ensures (CheckCourseRequest(req).None? && CourseSchemaErrors(req.title.value, req.level) == []) ==>
      && r == Ok(NewCourse(user, req))
      && db.courses == old(db.courses) + [NewCourse(user, req)]
  {
    var check := CheckCourseRequest(req);
    if check.Some? {
      return Fail(check.value);
    }
    var errs := CourseSchemaErrors(req.title.value, req.level);
    if errs != [] {
      return Fail(Validation(errs));
    }
    var c := NewCourse(user, req);
    db.courses := db.courses + [c];
    r := Ok(c);
  }
}
