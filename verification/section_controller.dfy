/** Sections of a course: an instructor adds them, and anyone allowed to see the
    course lists them in order. */
module SectionController {
  import opened Base
  import opened Strings
  import opened ApiErrors
  import opened Models
  import opened Seqs
  import opened Store

  // ---------------------------------------------------------------------------
  // createSection

  /** The highest `order` among the sections of `course`
      (`Section.find({ course }).sort({ order: -1 }).limit(1)`), if it has any. */
  function HighestOrder(ss: seq<Section>, course: Id): (r: Option<int>)
    ensures r.None? <==> forall i :: 0 <= i < |ss| ==> ss[i].course != course
    ensures r.Some? ==> exists i :: 0 <= i < |ss| && ss[i].course == course && ss[i].order == r.value
    ensures r.Some? ==> forall i :: 0 <= i < |ss| && ss[i].course == course ==> ss[i].order <= r.value
    decreases |ss|
  {
    if |ss| == 0 then None
    else
      var init := ss[..|ss| - 1];
      var last := ss[|ss| - 1];
      var rest := HighestOrder(init, course);
      assert forall i :: 0 <= i < |init| ==> init[i] == ss[i];
      if last.course != course then rest
      else if rest.None? || rest.value < last.order then Some(last.order)
      else rest
  }

  /** The order a new section takes when none usable is given: one past the highest,
      or 1 for a course without sections. No section of the course has it yet. */
  function DefaultOrder(ss: seq<Section>, course: Id): (o: int)
    ensures forall i :: 0 <= i < |ss| && ss[i].course == course ==> ss[i].order < o
    ensures SectionAt(ss, course, o).None?
    ensures (forall i :: 0 <= i < |ss| ==> ss[i].course != course) ==> o == 1
  {
    var h := HighestOrder(ss, course);
    if h.None? then 1 else h.value + 1
  }

  /** The order stored for a new section: the requested one when it is at least 1,
      otherwise the default. */
  function SectionOrder(ss: seq<Section>, course: Id, order: Option<int>): (o: int)
    ensures order.Some? && order.value >= 1 ==> o == order.value
    ensures order.None? || order.value < 1 ==> o == DefaultOrder(ss, course)
  {
    if order.None? || order.value < 1 then DefaultOrder(ss, course) else order.value
  }

  /** A defaulted order never collides with an existing section of the course, so
      only an explicitly requested order can fail on the unique index. */
  lemma DefaultOrderIsFree(ss: seq<Section>, course: Id, order: Option<int>)
    requires order.None? || order.value < 1
    ensures SectionAt(ss, course, SectionOrder(ss, course, order)).None?
  {
  }

  /** The checks before the write, in the order the controller makes them. */
  function NewSectionGuard(courses: seq<Course>, user: User, courseId: IdParam, title: Option<string>)
    : (r: Option<Failure>)
    ensures courseId.Absent? || !Present(title) ==> r == Some(Refusal(400, "courseId and title are required"))
    ensures courseId.Malformed? && Present(title) ==> r == Some(Refusal(400, "Invalid course id"))
    ensures courseId.Given? && Present(title) && courseId.id >= |courses| ==>
      r == Some(Refusal(404, "Course not found"))
    ensures (courseId.Given? && Present(title) && courseId.id < |courses|
             && courses[courseId.id].instructor != user.id) ==>
      r == Some(Refusal(403, "You are not allowed to add sections to this course"))
    ensures r.None? <==>
      courseId.Given? && Present(title) && courseId.id < |courses| && courses[courseId.id].instructor == user.id
  {
    if courseId.Absent? || !Present(title) then Some(Refusal(400, "courseId and title are required"))
    else if courseId.Malformed? then Some(Refusal(400, "Invalid course id"))
    else if courseId.id >= |courses| then Some(Refusal(404, "Course not found"))
    else if courses[courseId.id].instructor != user.id then
      Some(Refusal(403, "You are not allowed to add sections to this course"))
    else None
  }

  /** The course's instructor adds a section. The title is stored trimmed (one that
      trims to nothing fails the schema's `required`); the order is the requested one
      if it is at least 1 and otherwise one past the course's highest. A requested
      order that is taken fails on the unique (course, order) index. */
  method CreateSection(db: Db, user: User, courseId: IdParam, title: Option<string>, order: Option<int>)
    returns (r: Outcome<Section>)
    requires db.Valid()
    modifies db
    ensures db.Valid()
    ensures unchanged(db`courses, db`lessons, db`enrollments, db`payments, db`progress)
    ensures r.Fail? ==> db.sections == old(db.sections)
    ensures NewSectionGuard(db.courses, user, courseId, title).Some? ==>
      r == Fail(NewSectionGuard(db.courses, user, courseId, title).value)
    ensures NewSectionGuard(db.courses, user, courseId, title).None? ==>
      var c := courseId.id;
      var o := SectionOrder(old(db.sections), c, order);
      && (AllSpace(title.value) ==> r == Fail(Validation([RequiredMessage("title")])))
      && (!AllSpace(title.value) && SectionAt(old(db.sections), c, o).Some? ==>
            r == Fail(DuplicateKey(["course", "order"])))
      && (!AllSpace(title.value) && SectionAt(old(db.sections), c, o).None? ==>
            && r == Ok(Section(c, Trim(title.value), o))
            && db.sections == old(db.sections) + [Section(c, Trim(title.value), o)])
    ensures r.Ok? ==> r.value.title != "" && !IsSpace(r.value.title[0]) && !IsSpace(r.value.title[|r.value.title| - 1])
  {
    var guard := NewSectionGuard(db.courses, user, courseId, title);
    if guard.Some? {
      return Fail(guard.value);
    }
    var c := courseId.id;
    var o := SectionOrder(db.sections, c, order);
    var errs := TrimmedRequired("title", title.value);
    if errs != [] {
      return Fail(Validation(errs));
    }
    if SectionAt(db.sections, c, o).Some? {
      return Fail(DuplicateKey(["course", "order"]));
    }
    var s := Section(c, Trim(title.value), o);
    AddSectionKeepsUnique(db.sections, s);
    db.sections := db.sections + [s];
    r := Ok(s);
  }

  // ---------------------------------------------------------------------------
  // listSections

  /** A listed section with the number of lessons that belong to it. */
  datatype SectionView = SectionView(id: Id, section: Section, lessonCount: nat)

  /** `Section.find({ course })`, in insertion order. */
  function SectionsOf(ss: seq<Section>, course: Id): (r: seq<nat>)
    ensures forall k :: k in r ==> k < |ss| && ss[k].course == course
    ensures forall k :: 0 <= k < |ss| && ss[k].course == course ==> k in r
    ensures Distinct(r)
  {
    Positions(ss, (s: Section) => s.course == course, |ss|)
  }

  /** `Lesson.find({ section })`, in insertion order. */
  function LessonsOf(ls: seq<Lesson>, section: Id): (r: seq<nat>)
    ensures forall k :: k in r ==> k < |ls| && ls[k].section == section
    ensures forall k :: 0 <= k < |ls| && ls[k].section == section ==> k in r
    ensures Distinct(r)
  {
    Positions(ls, (l: Lesson) => l.section == section, |ls|)
  }

  predicate InRange(ss: seq<Section>, r: seq<nat>) {
    forall i :: 0 <= i < |r| ==> r[i] < |ss|
  }

  /** The positions `r` name sections in ascending `order`. */
  predicate AscendingOrder(ss: seq<Section>, r: seq<nat>)
    requires InRange(ss, r)
  {
    forall i, j :: 0 <= i < j < |r| ==> ss[r[i]].order <= ss[r[j]].order
  }

  /** Inserts one more position into a list kept in ascending `order`. */
  function InsertByOrder(ss: seq<Section>, x: nat, sorted: seq<nat>): (r: seq<nat>)
    requires x < |ss| && InRange(ss, sorted) && AscendingOrder(ss, sorted)
    requires Distinct(sorted) && x !in sorted
    ensures forall k :: k in r <==> k == x || k in sorted
    ensures |r| == |sorted| + 1
    ensures InRange(ss, r) && AscendingOrder(ss, r) && Distinct(r)
  {
    if |sorted| == 0 then [x]
    else if ss[x].order <= ss[sorted[0]].order then [x] + sorted
    else
      var tail := InsertByOrder(ss, x, sorted[1..]);
      assert forall i :: 0 <= i < |sorted| ==> sorted[i] in sorted;
      Prepend(ss, sorted[0], tail);
      [sorted[0]] + tail
  }

  /** A position in front of an ascending, duplicate-free list, ordered no later
      than any of its members and not one of them, keeps it so. */
  lemma Prepend(ss: seq<Section>, h: nat, t: seq<nat>)
    requires h < |ss| && InRange(ss, t) && AscendingOrder(ss, t) && Distinct(t)
    requires forall k :: k in t ==> ss[h].order <= ss[k].order && k != h
    ensures InRange(ss, [h] + t) && AscendingOrder(ss, [h] + t) && Distinct([h] + t)
  {
    assert forall i :: 0 <= i < |t| ==> t[i] in t;
  }

  /** `.sort({ order: 1 })`: the same positions, in ascending `order`. */
  function SortByOrder(ss: seq<Section>, ids: seq<nat>): (r: seq<nat>)
    requires InRange(ss, ids) && Distinct(ids)
    ensures forall k :: k in r <==> k in ids
    ensures |r| == |ids|
    ensures InRange(ss, r) && AscendingOrder(ss, r) && Distinct(r)
  {
    if |ids| == 0 then []
    else
      assert ids[0] !in ids[1..];
      InsertByOrder(ss, ids[0], SortByOrder(ss, ids[1..]))
  }

  /** Who may list the sections: a published course is public; otherwise the caller
      must be signed in and be an admin or the course's instructor. */
  function ListGuard(courses: seq<Course>, user: Option<User>, courseId: IdParam): (r: Option<Failure>)
    ensures !courseId.Given? ==> r == Some(Refusal(400, "Invalid course id"))
    ensures courseId.Given? && courseId.id >= |courses| ==> r == Some(Refusal(404, "Course not found"))
    ensures (courseId.Given? && courseId.id < |courses| && courses[courseId.id].status != Published
             && user.None?) ==>
      r == Some(Refusal(403, "Course is not published"))
    ensures (courseId.Given? && courseId.id < |courses| && courses[courseId.id].status != Published
             && user.Some? && user.value.role != Admin && courses[courseId.id].instructor != user.value.id) ==>
      r == Some(Refusal(403, "You are not allowed to access this course sections"))
    ensures r.None? <==>
      && courseId.Given? && courseId.id < |courses|
      && (courses[courseId.id].status == Published
          || (user.Some? && (user.value.role == Admin || courses[courseId.id].instructor == user.value.id)))
  {
    if !courseId.Given? then Some(Refusal(400, "Invalid course id"))
    else if courseId.id >= |courses| then Some(Refusal(404, "Course not found"))
    else if courses[courseId.id].status != Published then
      if user.None? then Some(Refusal(403, "Course is not published"))
      else if user.value.role != Admin && courses[courseId.id].instructor != user.value.id then
        Some(Refusal(403, "You are not allowed to access this course sections"))
      else None
    else None
  }

  /** The ids of a listing, in its order. */
  function ViewIds(v: seq<SectionView>): (r: seq<nat>)
    ensures |r| == |v| && forall i :: 0 <= i < |v| ==> r[i] == v[i].id
  {
    if |v| == 0 then [] else [v[0].id] + ViewIds(v[1..])
  }

  function Views(ss: seq<Section>, ls: seq<Lesson>, ids: seq<nat>): (r: seq<SectionView>)
    requires InRange(ss, ids)
    ensures ViewIds(r) == ids
    ensures forall i :: 0 <= i < |r| ==> r[i].section == ss[ids[i]] && r[i].lessonCount == |LessonsOf(ls, ids[i])|
  {
    if |ids| == 0 then []
    else [SectionView(ids[0], ss[ids[0]], |LessonsOf(ls, ids[0])|)] + Views(ss, ls, ids[1..])
  }

  /** `v` lists every section of `course` exactly once, in ascending `order`, each
      with the number of its lessons. */
  predicate ListsCourse(ss: seq<Section>, ls: seq<Lesson>, course: Id, v: seq<SectionView>) {
    && (forall i :: 0 <= i < |v| ==>
          && v[i].id < |ss| && v[i].section == ss[v[i].id] && v[i].section.course == course
          && v[i].lessonCount == |LessonsOf(ls, v[i].id)|)
    && (forall k :: 0 <= k < |ss| && ss[k].course == course ==> k in ViewIds(v))
    && (forall i, j :: 0 <= i < j < |v| ==> v[i].id != v[j].id && v[i].section.order <= v[j].section.order)
  }

  /** The sections of a course, sorted by order, each with its lesson count. */
  function CourseListing(ss: seq<Section>, ls: seq<Lesson>, course: Id): (v: seq<SectionView>)
    ensures ListsCourse(ss, ls, course, v)
  {
    var own := SectionsOf(ss, course);
    assert forall i :: 0 <= i < |own| ==> own[i] in own;
    var ids := SortByOrder(ss, own);
    var v := Views(ss, ls, ids);
    assert forall i :: 0 <= i < |ids| ==> ids[i] in ids;
    v
  }

  /** The sections of a course in ascending order, each exactly once and with the
      number of its lessons, for whoever may see the course. */
  function ListSections(courses: seq<Course>, ss: seq<Section>, ls: seq<Lesson>,
                        user: Option<User>, courseId: IdParam): (r: Outcome<seq<SectionView>>)
    ensures ListGuard(courses, user, courseId).Some? ==> r == Fail(ListGuard(courses, user, courseId).value)
    ensures ListGuard(courses, user, courseId).None? ==> r.Ok? && ListsCourse(ss, ls, courseId.id, r.value)
  {
    var guard := ListGuard(courses, user, courseId);
    if guard.Some? then Fail(guard.value) else Ok(CourseListing(ss, ls, courseId.id))
  }

  /** With (course, order) unique, the listing is strictly ascending in `order`. */
  lemma ListedOrdersStrictlyAscend(courses: seq<Course>, ss: seq<Section>, ls: seq<Lesson>,
                                   user: Option<User>, courseId: IdParam)
    requires UniqueSections(ss)
    requires ListSections(courses, ss, ls, user, courseId).Ok?
    ensures var v := ListSections(courses, ss, ls, user, courseId).value;
      forall i, j :: 0 <= i < j < |v| ==> v[i].section.order < v[j].section.order
  {
    var v := ListSections(courses, ss, ls, user, courseId).value;
    forall i, j | 0 <= i < j < |v|
      ensures v[i].section.order < v[j].section.order
    {
      var a, b := v[i].id, v[j].id;
      if a < b {
        assert !(ss[a].course == ss[b].course && ss[a].order == ss[b].order);
      } else {
        assert !(ss[b].course == ss[a].course && ss[b].order == ss[a].order);
      }
    }
  }
}
