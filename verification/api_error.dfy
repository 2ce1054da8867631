/** `ApiError` and the failures a controller can end with. */
module ApiErrors {
  import opened Base
  import opened Strings

  /** An `ApiError`: the message and status code it was built with, and its
      "fail"/"error" classification. */
  datatype ApiError = ApiError(message: string, statusCode: int, status: string)

  /** `new ApiError(statusCode, message)`: `status` is "fail" exactly when the
      decimal text of the status code starts with "4", which for an integer code
      means it is non-negative with leading digit 4. */
  function NewApiError(statusCode: int, message: string): (e: ApiError)
    ensures e.message == message && e.statusCode == statusCode
    ensures e.status == "fail" || e.status == "error"
    ensures e.status == "fail" <==> 0 <= statusCode && LeadingDigit(statusCode) == 4
  {
    var text := IntDecimal(statusCode);
    NatDecimalLeads(if statusCode >= 0 then statusCode else 0);
    ApiError(message, statusCode, if text[0] == '4' then "fail" else "error")
  }

  /** Every 4xx status code is classified "fail". */
  lemma ClientErrorsFail(statusCode: int, message: string)
    requires 400 <= statusCode <= 499
    ensures NewApiError(statusCode, message).status == "fail"
  {
    assert LeadingDigit(statusCode) == LeadingDigit(statusCode / 10) == LeadingDigit(statusCode / 100);
  }

  /** Every 5xx status code (500, 502, 503 among them) is classified "error". */
  lemma ServerErrorsAreErrors(statusCode: int, message: string)
    requires 500 <= statusCode <= 599
    ensures NewApiError(statusCode, message).status == "error"
  {
    assert LeadingDigit(statusCode) == LeadingDigit(statusCode / 10) == LeadingDigit(statusCode / 100);
  }

  /** What a controller throws, or what a call it makes throws for it. */
  datatype Failure =
    | Api(error: ApiError)              // `throw new ApiError(statusCode, message)`
    | Validation(messages: seq<string>) // Mongoose ValidationError, one message per failing path
    | DuplicateKey(fields: seq<string>) // MongoServerError E11000, the unique index's fields
    | GatewayFailure(gatewayStatus: Option<int>) // the gateway SDK rejected the call: with the
                                                 // `statusCode` of the gateway's API error, or
                                                 // without one when the gateway did not answer
    | AbortAfterCommit                  // the driver refuses abortTransaction after commitTransaction
    | TypeError(message: string)        // a JavaScript TypeError in the controller

  /** The result of a controller: its response data, or the failure it ends with. */
  datatype Outcome<T> = Ok(value: T) | Fail(failure: Failure)

  /** The failure of `throw new ApiError(statusCode, message)`. */
  function Refusal(statusCode: int, message: string): Failure {
    Api(NewApiError(statusCode, message))
  }

  /** `throw new ApiError(statusCode, message)` as the outcome of a controller. */
  function Throw<T>(statusCode: int, message: string): Outcome<T> {
    Fail(Refusal(statusCode, message))
  }
}
