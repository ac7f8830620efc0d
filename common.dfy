/** Values shared by every service: optional values, results, the HTTP exception
    kinds the services throw, and the shape of an upstream HTTP reply. */
module Common {

  datatype Option<+T> = None | Some(value: T)

  /** Why a 503 was raised by the analysis service. */
  datatype Unavailable = ApiKeyMissing | QuotaExhausted | LlmFailed

  /** The exception kinds the services throw. `Unhandled` is an exception that is not
      an HTTP exception (a database or network error left uncaught); the framework
      answers it with a bare 500. */
  datatype Error =
    | BadRequest
    | Unauthorized
    | Forbidden
    | NotFound
    | Conflict
    | ServiceUnavailable(why: Unavailable)
    | InternalServerError
    | Unhandled

  datatype Result<+T> = Ok(value: T) | Err(error: Error)

  /** JavaScript truthiness of a nullable string: null, undefined and "" are falsy. */
  predicate Truthy(s: Option<string>)
  {
    s.Some? && s.value != ""
  }

  /** The fields of an upstream error body that the services look at. */
  datatype ErrorBody = ErrorBody(blockedBy: Option<string>, code: Option<string>)

  /** What one upstream HTTP call produced: the decoded body, or a failure carrying the
      response status (None when there was no response at all) and the error body. */
  datatype Reply<+T> = Answered(data: T) | Failed(status: Option<int>, body: ErrorBody)

  /** `error?.response?.status || 500`: a missing (or zero) status counts as 500. */
  function StatusOr500(status: Option<int>): int
  {
    if status.Some? && status.value != 0 then status.value else 500
  }

  /** A 403 whose body says the marketplace's policy agent refused the request. */
  predicate BlockedByPolicy(status: int, body: ErrorBody)
  {
    status == 403
    && (body.blockedBy == Some("PolicyAgent") || body.code == Some("PA_UNAUTHORIZED_RESULT_FROM_POLICIES"))
  }
}
