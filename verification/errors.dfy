/** The uniform JSON error response and the vocabulary every interceptor
    uses to describe what it did to a request: what it wrote, whether it
    aborted the chain, and how many times it called the next handler. */
module Errors {
  import opened Common

  const StatusNoContent: int := 204
  const StatusUnauthorized: int := 401
  const StatusNotFound: int := 404
  const StatusMethodNotAllowed: int := 405
  const StatusGatewayTimeout: int := 504

  /** The body `{ok, error, code, details}`; `details` is `nil` or a value. */
  datatype ErrorBody = ErrorBody(ok: bool, error: string, code: string, details: Option<string>)

  /** What an interceptor wrote to the response writer. */
  datatype Written =
    | Nothing
    | StatusOnly(status: int)
    | Json(status: int, body: ErrorBody)

  /** The observable effect of one interceptor on one request. */
  datatype Effect = Effect(written: Written, aborted: bool, nextCalls: nat)
  {
    /** The status this interceptor put on the response, if any. */
    function Status(): Option<int> {
      match written
      case Nothing => None
      case StatusOnly(s) => Some(s)
      case Json(s, _) => Some(s)
    }
  }

  /** An interceptor that only hands the request on. */
  const Pass: Effect := Effect(Nothing, false, 1)

  /** `RespondError`: write the JSON error body with the given status and
      abort the chain. */
  function RespondError(status: int, code: string, message: string, details: Option<string>): (e: Effect)
    ensures e.aborted && e.nextCalls == 0
    ensures e.Status() == Some(status)
    ensures e.written.Json? && !e.written.body.ok
    ensures e.written.body.error == message && e.written.body.code == code
    ensures e.written.body.details == details
  {
    Effect(Json(status, ErrorBody(false, message, code, details)), true, 0)
  }

  /** The handler for unknown routes. */
  function NotFoundHandler(): (e: Effect)
    ensures e.aborted && e.nextCalls == 0
    ensures e.Status() == Some(404)
    ensures e.written.Json? && e.written.body.code == "not_found" && e.written.body.details == None
  {
    RespondError(StatusNotFound, "not_found", "endpoint not found", None)
  }

  /** The handler for a known route hit with an unregistered method. */
  function MethodNotAllowedHandler(): (e: Effect)
    ensures e.aborted && e.nextCalls == 0
    ensures e.Status() == Some(405)
    ensures e.written.Json? && e.written.body.code == "method_not_allowed"
  {
    RespondError(StatusMethodNotAllowed, "method_not_allowed", "method not allowed", None)
  }
}
