/** The database the controllers share: one collection per model, each kept as a
    sequence indexed by document id, with the schemas' unique indexes as invariant. */
module Store {
  import opened Base
  import opened Models
  import opened Seqs

  /** Unique index { course: 1, student: 1 } of the Enrollment schema. */
  predicate UniqueEnrollments(es: seq<Enrollment>) {
    forall i, j :: 0 <= i < j < |es| ==> !(es[i].course == es[j].course && es[i].student == es[j].student)
  }

  /** Unique index { course: 1, order: 1 } of the Section schema. */
  predicate UniqueSections(ss: seq<Section>) {
    forall i, j :: 0 <= i < j < |ss| ==> !(ss[i].course == ss[j].course && ss[i].order == ss[j].order)
  }

  /** Unique index { section: 1, order: 1 } of the Lesson schema. */
  predicate UniqueLessons(ls: seq<Lesson>) {
    forall i, j :: 0 <= i < j < |ls| ==> !(ls[i].section == ls[j].section && ls[i].order == ls[j].order)
  }

  /** Unique index { student: 1, course: 1, lesson: 1 } of the Progress schema. */
  predicate UniqueProgress(ps: seq<Progress>) {
    forall i, j :: 0 <= i < j < |ps| ==>
      !(ps[i].student == ps[j].student && ps[i].course == ps[j].course && ps[i].lesson == ps[j].lesson)
  }

  /** The `min: 0` bound on a course price. */
  predicate PricesNonNegative(cs: seq<Course>) {
    forall i :: 0 <= i < |cs| ==> cs[i].price >= 0
  }

  // ---------------------------------------------------------------------------
  // The `findOne` filters the controllers use

  /** `Enrollment.findOne({ course, student })`. */
  function EnrollmentOf(es: seq<Enrollment>, course: Id, student: Id): Option<nat> {
    FindFirst(es, (e: Enrollment) => e.course == course && e.student == student)
  }

  /** `Enrollment.findOne({ student, course, status: "active" })`. */
  function ActiveEnrollmentOf(es: seq<Enrollment>, course: Id, student: Id): Option<nat> {
    FindFirst(es, (e: Enrollment) => e.course == course && e.student == student && e.status == Active)
  }

  /** `Payment.findOne({ razorpayOrderId })`. */
  function PaymentWithOrder(ps: seq<Payment>, orderId: string): Option<nat> {
    FindFirst(ps, (p: Payment) => p.razorpayOrderId == Some(orderId))
  }

  /** `Payment.findOne({ enrollment, student, course })`. */
  function PaymentOf(ps: seq<Payment>, enrollment: Id, student: Id, course: Id): Option<nat> {
    FindFirst(ps, (p: Payment) => p.enrollment == enrollment && p.student == student && p.course == course)
  }

  /** `Section.findOne({ course, order })`, the key of the section index. */
  function SectionAt(ss: seq<Section>, course: Id, order: int): Option<nat> {
    FindFirst(ss, (s: Section) => s.course == course && s.order == order)
  }

  /** `Lesson.findOne({ section, order })`, the key of the lesson index. */
  function LessonAt(ls: seq<Lesson>, section: Id, order: int): Option<nat> {
    FindFirst(ls, (l: Lesson) => l.section == section && l.order == order)
  }

  /** The progress record with the key of the progress index. */
  function ProgressOf(ps: seq<Progress>, student: Id, course: Id, lesson: Id): Option<nat> {
    FindFirst(ps, (p: Progress) => p.student == student && p.course == course && p.lesson == lesson)
  }

  /** The upsert filter `{ student, course, lesson, completed: { $ne: true } }`. */
  function OpenProgressOf(ps: seq<Progress>, student: Id, course: Id, lesson: Id): Option<nat> {
    FindFirst(ps, (p: Progress) => p.student == student && p.course == course && p.lesson == lesson && !p.completed)
  }

  class Db {
    var courses: seq<Course>
    var sections: seq<Section>
    var lessons: seq<Lesson>
    var enrollments: seq<Enrollment>
    var payments: seq<Payment>
    var progress: seq<Progress>

    /** What MongoDB and the schemas guarantee of every stored state. */
    ghost predicate Valid()
      reads this
    {
      && UniqueEnrollments(enrollments)
      && UniqueSections(sections)
      && UniqueLessons(lessons)
      && UniqueProgress(progress)
      && PricesNonNegative(courses)
    }

    constructor()
      ensures Valid()
      ensures courses == [] && sections == [] && lessons == []
      ensures enrollments == [] && payments == [] && progress == []
    {
      courses, sections, lessons := [], [], [];
      enrollments, payments, progress := [], [], [];
    }
  }

  /** Inserting an enrollment whose key is not taken keeps the index unique. */
  lemma AddEnrollmentKeepsUnique(es: seq<Enrollment>, e: Enrollment)
    requires UniqueEnrollments(es)
    requires EnrollmentOf(es, e.course, e.student).None?
    ensures UniqueEnrollments(es + [e])
  {
    var s := es + [e];
    forall i, j | 0 <= i < j < |s|
      ensures !(s[i].course == s[j].course && s[i].student == s[j].student)
    {
      if j == |es| {
        assert s[i] == es[i];
      }
    }
  }

  /** Changing fields outside the key keeps the enrollment index unique. */
  lemma ReplaceEnrollmentKeepsUnique(es: seq<Enrollment>, k: nat, e: Enrollment)
    requires UniqueEnrollments(es)
    requires k < |es| && e.course == es[k].course && e.student == es[k].student
    ensures UniqueEnrollments(es[k := e])
  {
  }

  /** Inserting a progress record whose key is not taken keeps the index unique. */
  lemma AddProgressKeepsUnique(ps: seq<Progress>, p: Progress)
    requires UniqueProgress(ps)
    requires ProgressOf(ps, p.student, p.course, p.lesson).None?
    ensures UniqueProgress(ps + [p])
  {
    var s := ps + [p];
    forall i, j | 0 <= i < j < |s|
      ensures !(s[i].student == s[j].student && s[i].course == s[j].course && s[i].lesson == s[j].lesson)
    {
      if j == |ps| {
        assert s[i] == ps[i];
      }
    }
  }

  /** Inserting a section whose (course, order) is not taken keeps the index unique. */
  lemma AddSectionKeepsUnique(ss: seq<Section>, x: Section)
    requires UniqueSections(ss)
    requires SectionAt(ss, x.course, x.order).None?
    ensures UniqueSections(ss + [x])
  {
    var s := ss + [x];
    forall i, j | 0 <= i < j < |s|
      ensures !(s[i].course == s[j].course && s[i].order == s[j].order)
    {
      if j == |ss| {
        assert s[i] == ss[i];
      }
    }
  }

  /** Inserting a lesson whose (section, order) is not taken keeps the index unique. */
  lemma AddLessonKeepsUnique(ls: seq<Lesson>, x: Lesson)
    requires UniqueLessons(ls)
    requires LessonAt(ls, x.section, x.order).None?
    ensures UniqueLessons(ls + [x])
  {
    var s := ls + [x];
    forall i, j | 0 <= i < j < |s|
      ensures !(s[i].section == s[j].section && s[i].order == s[j].order)
    {
      if j == |ls| {
        assert s[i] == ls[i];
      }
    }
  }
}
