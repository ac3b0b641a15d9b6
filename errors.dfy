/** The four `@app.errorhandler` functions and the uniform body they return. */
module Errors {
  import opened Questions

  /** The failures a request can end in. */
  datatype Status = BadRequest | NotFound | MethodNotAllowed | Unprocessable

  function Code(s: Status): int {
    match s
    case BadRequest => 400
    case NotFound => 404
    case MethodNotAllowed => 405
    case Unprocessable => 422
  }

  /** `{"success": False, "error": <code>, "message": <text>}`. */
  datatype ErrorBody = ErrorBody(success: bool, error: int, message: string)

  /** The body a handler returns, sent with the status code `Code(s)`. */
  function Envelope(s: Status): ErrorBody {
    match s
    case BadRequest => ErrorBody(false, 400, "Bad Request")
    case NotFound => ErrorBody(false, 404, "Resource Not Found")
    case MethodNotAllowed => ErrorBody(false, 405, "Method Not Allowed")
    case Unprocessable => ErrorBody(false, 422, "Unprocessable Entity")
  }

  /** Which registered handler Flask invokes for an aborted status code. */
  function HandlerFor(code: int): Option<Status> {
    if code == 400 then Some(BadRequest)
    else if code == 404 then Some(NotFound)
    else if code == 405 then Some(MethodNotAllowed)
    else if code == 422 then Some(Unprocessable)
    else None
  }

  /** Every envelope reports failure under its own status code, and that
      code leads back to the handler that built it. */
  lemma EnvelopeReportsItsCode(s: Status)
    ensures !Envelope(s).success
    ensures Envelope(s).error == Code(s)
    ensures HandlerFor(Code(s)) == Some(s)
  {
  }

  /** Exactly the four codes 400, 404, 405 and 422 have a handler, and each
      handler answers only its own code. */
  lemma HandlerForExact(code: int)
    ensures HandlerFor(code).Some? <==> code == 400 || code == 404 || code == 405 || code == 422
    ensures HandlerFor(code).Some? ==> Code(HandlerFor(code).value) == code
  {
  }

  /** Distinct failures are told apart by both their code and their message. */
  lemma EnvelopesDistinct(s: Status, t: Status)
    requires s != t
    ensures Envelope(s).error != Envelope(t).error
    ensures Envelope(s).message != Envelope(t).message
  {
  }
}
