/**
 * `handleDomainError`: the HTTP status and message sent for whatever a use case throws.  The
 * body always carries `status: 'error'`.
 */
module ErrorHandler {
  import opened DomainErrors

  const UnexpectedMessage: string := "An unexpected error occurred."

  datatype ErrorReply = ErrorReply(httpStatus: int, bodyStatus: string, message: string)

  /** The status each subclass of DomainError is sent with; a bare DomainError is a server error. */
  function StatusOfKind(kind: DomainKind): (code: int)
    ensures code in {400, 401, 403, 404, 409, 422, 500}
    ensures code == 500 <==> kind == Base
  {
    match kind
    case NotFound => 404
    case Forbidden => 403
    case Unauthorized => 401
    case Validation => 400
    case Conflict => 409
    case BusinessRule => 422
    case Base => 500
  }

  /** The error class a client can read back from a status other than 500. */
  function KindOfStatus(code: int): (kind: DomainKind)
    ensures code !in {400, 401, 403, 404, 409, 422} ==> kind == Base
  {
    if code == 404 then NotFound
    else if code == 403 then Forbidden
    else if code == 401 then Unauthorized
    else if code == 400 then Validation
    else if code == 409 then Conflict
    else if code == 422 then BusinessRule
    else Base
  }

  /** `handleDomainError(error, reply)`: the status and body it sends. */
  function HandleDomainError(error: Thrown): (r: ErrorReply)
    ensures r.httpStatus in {400, 401, 403, 404, 409, 422, 500}
    ensures r.bodyStatus == "error"
    ensures error.DomainErr? ==> r.message == error.message && r.httpStatus == StatusOfKind(error.kind)
    ensures error.PlainErr? ==> r.httpStatus == 500 && r.message == error.message
    ensures error.NotAnError? ==> r.httpStatus == 500 && r.message == UnexpectedMessage
  {
    match error
    case DomainErr(kind, message) => ErrorReply(StatusOfKind(kind), "error", message)
    case PlainErr(message) => ErrorReply(500, "error", message)
    case NotAnError => ErrorReply(500, "error", UnexpectedMessage)
  }

  /**
   * Every error class but the bare DomainError gets a status of its own: the class can be
   * read back from the status.
   */
  lemma StatusIdentifiesKind(kind: DomainKind, message: string)
    ensures KindOfStatus(HandleDomainError(DomainErr(kind, message)).httpStatus) == kind
  {
  }

  /** Two domain errors are sent with the same status exactly when they are of the same class. */
  lemma StatusInjective(k1: DomainKind, k2: DomainKind)
    ensures StatusOfKind(k1) == StatusOfKind(k2) <==> k1 == k2
  {
    StatusIdentifiesKind(k1, "");
    StatusIdentifiesKind(k2, "");
  }

  /** A plain `Error` thrown by an older use case is always a server error, whatever its message. */
  lemma PlainErrorsAreServerErrors(message: string)
    ensures HandleDomainError(PlainErr(message)) == ErrorReply(500, "error", message)
  {
  }
}
