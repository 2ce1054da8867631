/** Identities, request parameters and users shared by every part of the model. */
module Base {

  /** A database id (a Mongo ObjectId). Each collection numbers its documents 0, 1,
      2, ... in insertion order, so a smaller id is an older document, and the store
      keeps every collection as a sequence indexed by id. */
  type Id = nat

  /** An opaque timestamp (`new Date()`, `Date.now`). */
  type Time = int

  datatype Option<T> = None | Some(value: T)

  /** The role enum of the user schema. */
  datatype Role = Student | Instructor | Admin

  /** The authenticated caller (`req.user`). */
  datatype User = User(id: Id, role: Role)

  /** An id taken from a request, as `mongoose.Types.ObjectId.isValid` and the
      falsy checks of the controllers see it: missing (undefined, null or ""),
      present but not a well-formed ObjectId, or a well-formed id. */
  datatype IdParam = Absent | Malformed | Given(id: Id)

  /** JavaScript truthiness of an optional string field: undefined, null and "" are falsy. */
  predicate Present(s: Option<string>) {
    s.Some? && s.value != ""
  }

  function Min(a: int, b: int): int {
    if a <= b then a else b
  }

  /** Multiplying by a non-negative factor keeps the order. */
  lemma MulMonotone(a: int, b: int, c: int)
    requires a <= b && c >= 0
    ensures a * c <= b * c
  {
  }
}
