/** The documents of the six collections the enrollment and payment lifecycle works
    on, with the enums, defaults and validators of their Mongoose schemas. */
module Models {
  import opened Base
  import opened Strings

  /** The lifecycle of an enrollment. The schema's enum lists only active, completed
      and cancelled (src/models/Enrollment.js:15-19), but the controllers write
      `pending` for unpaid enrollments and the transition table starts from it, so
      the model uses the four states the controllers rely on; `EnrollmentEnumAsWritten`
      below records what the schema itself admits. */
  datatype EnrollmentStatus = Pending | Active | Completed | Cancelled

  datatype PaymentStatus = PaymentPending | PaymentSuccess | PaymentFailed

  datatype CourseStatus = Draft | Published | Unpublished

  datatype Level = Beginner | Intermediate | Advanced

  datatype LessonType = Video | Text

  datatype Course = Course(
    instructor: Id,
    title: string,
    description: string,
    category: string,
    level: Level,
    price: int,
    thumbnail: Option<string>,
    status: CourseStatus,
    totalSections: int,
    totalLessons: int,
    totalEnrollments: int)

  datatype Enrollment = Enrollment(
    course: Id,
    student: Id,
    status: EnrollmentStatus,
    isPaid: bool,
    enrolledAt: Time)

  datatype Payment = Payment(
    enrollment: Id,
    student: Id,
    course: Id,
    razorpayOrderId: Option<string>,
    razorpayPaymentId: Option<string>,
    amount: int,
    status: PaymentStatus,
    paidAt: Option<Time>)

  datatype Progress = Progress(
    student: Id,
    course: Id,
    lesson: Id,
    completed: bool,
    completedAt: Option<Time>)

  datatype Section = Section(course: Id, title: string, order: int)

  datatype Lesson = Lesson(
    section: Id,
    title: string,
    kind: LessonType,
    content: string,
    order: int,
    duration: Option<int>)

  /** An enrollment that gives access to its course: active or completed. */
  predicate Enrolled(e: Enrollment) {
    e.status == Active || e.status == Completed
  }

  // ---------------------------------------------------------------------------
  // Enum values as stored strings

  function EnrollmentStatusName(s: EnrollmentStatus): string
  {
    match s
    case Pending => "pending"
    case Active => "active"
    case Completed => "completed"
    case Cancelled => "cancelled"
  }

  /** Reads a status string of a request; anything but the four names is refused. */
  function ParseEnrollmentStatus(t: string): (r: Option<EnrollmentStatus>)
    ensures r.Some? ==> EnrollmentStatusName(r.value) == t
  {
    if t == "pending" then Some(Pending)
    else if t == "active" then Some(Active)
    else if t == "completed" then Some(Completed)
    else if t == "cancelled" then Some(Cancelled)
    else None
  }

  function LessonTypeName(k: LessonType): string
  {
    match k
    case Video => "video"
    case Text => "text"
  }

  function ParseLessonType(t: string): (r: Option<LessonType>)
    ensures r.Some? ==> LessonTypeName(r.value) == t
  {
    if t == "video" then Some(Video) else if t == "text" then Some(Text) else None
  }

  function LevelName(l: Level): string
  {
    match l
    case Beginner => "Beginner"
    case Intermediate => "Intermediate"
    case Advanced => "Advanced"
  }

  function ParseLevel(t: string): (r: Option<Level>)
    ensures r.Some? ==> LevelName(r.value) == t
  {
    if t == "Beginner" then Some(Beginner)
    else if t == "Intermediate" then Some(Intermediate)
    else if t == "Advanced" then Some(Advanced)
    else None
  }

  /** Every stored name reads back as the value it names. */
  lemma NamesParse()
    ensures forall s :: ParseEnrollmentStatus(EnrollmentStatusName(s)) == Some(s)
    ensures forall k :: ParseLessonType(LessonTypeName(k)) == Some(k)
    ensures forall l :: ParseLevel(LevelName(l)) == Some(l)
  {
  }

  // ---------------------------------------------------------------------------
  // Schema validation (the messages Mongoose puts in a ValidationError)

  function RequiredMessage(path: string): string {
    "Path `" + path + "` is required."
  }

  function EnumMessage(value: string, path: string): string {
    "`" + value + "` is not a valid enum value for path `" + path + "`."
  }

  /** A string path with `trim: true` and `required: true`: the value is trimmed
      first, and an empty result fails the required validator. */
  function TrimmedRequired(path: string, value: string): (errs: seq<string>)
    ensures errs == [] <==> !AllSpace(value)
    ensures errs != [] ==> errs == [RequiredMessage(path)]
  {
    if Trim(value) == "" then [RequiredMessage(path)] else []
  }

  /** The course level as the schema stores it: absent means the default Beginner,
      and a string outside the enum is a validation error. */
  function LevelOrDefault(level: Option<string>): (r: Option<Level>)
    ensures level.None? ==> r == Some(Beginner)
    ensures level.Some? ==> r == ParseLevel(level.value)
  {
    if level.None? then Some(Beginner) else ParseLevel(level.value)
  }

  /** The values of the Enrollment schema's status enum as the schema declares them. */
  const EnrollmentEnumAsWritten: seq<string> := ["active", "completed", "cancelled"]

  /** The values the controllers and the transition table need the enum to admit. */
  const EnrollmentEnum: seq<string> := ["pending", "active", "completed", "cancelled"]

  /** The enum validator of the status path against a list of admitted values. */
  function StatusEnumErrors(admitted: seq<string>, s: EnrollmentStatus): (errs: seq<string>)
    ensures errs == [] <==> EnrollmentStatusName(s) in admitted
    ensures errs != [] ==> errs == [EnumMessage(EnrollmentStatusName(s), "status")]
  {
    if EnrollmentStatusName(s) in admitted then []
    else [EnumMessage(EnrollmentStatusName(s), "status")]
  }

  /** As declared, the schema refuses `pending`, the status every unpaid enrollment
      is created with, and accepts the other three. */
  lemma PendingRefusedAsWritten()
    ensures StatusEnumErrors(EnrollmentEnumAsWritten, Pending)
      == [EnumMessage("pending", "status")]
    ensures forall s :: s != Pending ==> StatusEnumErrors(EnrollmentEnumAsWritten, s) == []
  {
    assert EnrollmentStatusName(Pending) !in EnrollmentEnumAsWritten;
  }

  /** With `pending` added, the enum admits exactly the statuses a request may name. */
  lemma EveryStatusAdmitted()
    ensures forall s :: StatusEnumErrors(EnrollmentEnum, s) == []
    ensures forall t :: t in EnrollmentEnum <==> ParseEnrollmentStatus(t).Some?
  {
  }
}
