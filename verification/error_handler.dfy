/** The Express error middleware: turns whatever a controller threw into the JSON
    error response. */
module ErrorHandler {
  import opened Base
  import opened Strings
  import opened ApiErrors

  /** The properties of a thrown error that the middleware reads. */
  datatype ErrorObject = ErrorObject(
    name: string,
    statusCode: Option<int>,
    message: Option<string>,
    fieldMessages: seq<string>, // `Object.values(err.errors)`, each entry's message
    path: string,               // a CastError's path
    value: string,              // a CastError's value, as text
    code: Option<int>,
    keyValueFields: seq<string>) // `Object.keys(err.keyValue)`

  /** The body sent with the error status: `{ success, statusCode, message }`. */
  datatype ErrorResponse = ErrorResponse(success: bool, statusCode: int, message: string)

  /** The first key of `err.keyValue`, as a template literal prints it. */
  function FirstField(fields: seq<string>): string {
    if |fields| > 0 then fields[0] else "undefined"
  }

  /** The error middleware. The checks run in order and a later match overrides an
      earlier one, so a duplicate key wins over everything, a CastError over a
      ValidationError, and both over the error's own status code and message. */
  function HandleError(err: ErrorObject): (r: ErrorResponse)
    ensures !r.success
    ensures r.statusCode != 0
    ensures err.code == Some(11000) ==>
      r.statusCode == 409 && r.message == "Duplicate value for field: " + FirstField(err.keyValueFields)
    ensures err.code != Some(11000) && err.name == "CastError" ==>
      r.statusCode == 400 && r.message == "Invalid " + err.path + ": " + err.value
    ensures err.code != Some(11000) && err.name == "ValidationError" ==>
      r.statusCode == 400 && r.message == Join(err.fieldMessages, ", ")
    ensures err.code != Some(11000) && err.name != "CastError" && err.name != "ValidationError" ==>
      && (err.statusCode.Some? && err.statusCode.value != 0 ==> r.statusCode == err.statusCode.value)
      && (err.statusCode.None? || err.statusCode.value == 0 ==> r.statusCode == 500)
      && r.message == (if Present(err.message) then err.message.value else "Internal Server Error")
  {
    var status0 := if err.statusCode.Some? && err.statusCode.value != 0 then err.statusCode.value else 500;
    var message0 := if Present(err.message) then err.message.value else "Internal Server Error";
    var status1 := if err.name == "ValidationError" then 400 else status0;
    var message1 := if err.name == "ValidationError" then Join(err.fieldMessages, ", ") else message0;
    var status2 := if err.name == "CastError" then 400 else status1;
    var message2 := if err.name == "CastError" then "Invalid " + err.path + ": " + err.value else message1;
    var status3 := if err.code == Some(11000) then 409 else status2;
    var message3 :=
      if err.code == Some(11000) then "Duplicate value for field: " + FirstField(err.keyValueFields) else message2;
    ErrorResponse(false, status3, message3)
  }

  /** The error object each kind of controller failure throws. */
  function Thrown(f: Failure): ErrorObject {
    match f
    case Api(e) => ErrorObject("Error", Some(e.statusCode), Some(e.message), [], "", "", None, [])
    case Validation(messages) =>
      ErrorObject("ValidationError", None, Some("Validation failed"), messages, "", "", None, [])
    case DuplicateKey(fields) =>
      ErrorObject("MongoServerError", None, Some("E11000 duplicate key error"), [], "", "", Some(11000), fields)
    case GatewayFailure(status) => ErrorObject("", status, None, [], "", "", None, [])
    case AbortAfterCommit =>
      ErrorObject("MongoTransactionError", None,
                  Some("Cannot call abortTransaction after calling commitTransaction"), [], "", "", None, [])
    case TypeError(message) => ErrorObject("TypeError", None, Some(message), [], "", "", None, [])
  }

  /** The response a client sees for a controller failure: an ApiError keeps its own
      status code and message, a schema validation failure is a 400 listing the
      failing paths, a unique-index violation a 409, an error answer of the gateway
      its own status code with the default message, and everything else a 500. */
  function Respond(f: Failure): (r: ErrorResponse)
    ensures !r.success
    ensures f.Api? && f.error.statusCode != 0 ==> r.statusCode == f.error.statusCode
    ensures f.Api? && f.error.message != "" ==> r.message == f.error.message
    ensures f.Validation? ==> r.statusCode == 400 && r.message == Join(f.messages, ", ")
    ensures f.DuplicateKey? ==> r.statusCode == 409 && r.message == "Duplicate value for field: " + FirstField(f.fields)
    ensures f.GatewayFailure? && f.gatewayStatus.Some? && f.gatewayStatus.value != 0 ==>
      r.statusCode == f.gatewayStatus.value && r.message == "Internal Server Error"
    ensures f.GatewayFailure? && (f.gatewayStatus.None? || f.gatewayStatus.value == 0) ==>
      r.statusCode == 500 && r.message == "Internal Server Error"
    ensures f.AbortAfterCommit? || f.TypeError? ==> r.statusCode == 500
  {
    HandleError(Thrown(f))
  }
}
