/**
 * The server's exception classes and the HTTP error each one becomes:
 * a status code and a `detail` of the shape `{error_code, error_info}`,
 * where `error_info` is the message passed to the constructor or the
 * class's own default message. An exception that cannot be constructed
 * escapes as a `TypeError`, which the framework answers with status 500.
 */
module ApiExceptions {
  import opened Common

  /** The `detail` of an error response. */
  datatype Detail = Detail(errorCode: int, errorInfo: string)

  /** What raising an exception class produces: an HTTP error, or a failed construction. */
  datatype Raised = HttpError(status: int, detail: Detail) | ConstructionFailed

  /** The exception classes; `ServerError` stands for no class. */
  predicate IsApiException(e: ApiError)
  {
    e != ServerError
  }

  /** The status code each class passes to its base. */
  function Status(e: ApiError): (s: int)
    requires IsApiException(e)
    ensures 400 <= s < 500
  {
    match e
    case InvalidCredentials => 401
    case TokenExpired => 401
    case Unauthorized => 401
    case InvalidRequest => 400
    case NotFound => 404
    case Forbidden => 403
  }

  /** The `error_code` each class puts in its detail. */
  function ErrorCode(e: ApiError): (c: int)
    requires IsApiException(e)
    ensures 4000 <= c <= 4005
  {
    match e
    case InvalidCredentials => 4000
    case TokenExpired => 4001
    case Unauthorized => 4002
    case InvalidRequest => 4003
    case NotFound => 4004
    case Forbidden => 4005
  }

  /** The default `detail` argument of each constructor: a non-empty message. */
  function DefaultInfo(e: ApiError): (s: string)
    requires IsApiException(e)
    ensures |s| > 0
  {
    match e
    case InvalidCredentials => "Invalid Credentials"
    case TokenExpired => "Token expired"
    case Unauthorized => "Access Denied"
    case InvalidRequest => "Invalid Request"
    case NotFound => "Not Found"
    case Forbidden => "Request forbidden"
  }

  /** Raising class `e` with an optional message, as the constructors intend. */
  function RaiseIntended(e: ApiError, info: Option<string>): (r: Raised)
    requires IsApiException(e)
    ensures r.HttpError?
    ensures r.status == Status(e) && r.detail.errorCode == ErrorCode(e)
    ensures info.Some? ==> r.detail.errorInfo == info.value
    ensures info.None? ==> r.detail.errorInfo == DefaultInfo(e)
  {
    HttpError(Status(e), Detail(ErrorCode(e), if info.Some? then info.value else DefaultInfo(e)))
  }

  /**
   * Raising class `e` as the constructors are written: the token-expired
   * constructor calls `__init__` on an unbound `super` object with keyword
   * arguments, which raises `TypeError`; every other class builds its error.
   */
  function RaiseAsWritten(e: ApiError, info: Option<string>): (r: Raised)
    requires IsApiException(e)
    ensures e == TokenExpired ==> r == ConstructionFailed
    ensures e != TokenExpired ==> r == RaiseIntended(e, info)
  {
    if e == TokenExpired then ConstructionFailed else RaiseIntended(e, info)
  }

  /** The status code the client receives. */
  function StatusSent(r: Raised): (s: int)
    ensures r.HttpError? ==> s == r.status
    ensures r.ConstructionFailed? ==> s == 500
  {
    if r.HttpError? then r.status else 500
  }

  /** The table: statuses and codes of the classes as intended. */
  lemma Table()
    ensures Status(InvalidCredentials) == 401 && ErrorCode(InvalidCredentials) == 4000
    ensures Status(TokenExpired) == 401 && ErrorCode(TokenExpired) == 4001
    ensures Status(Unauthorized) == 401 && ErrorCode(Unauthorized) == 4002
    ensures Status(InvalidRequest) == 400 && ErrorCode(InvalidRequest) == 4003
    ensures Status(NotFound) == 404 && ErrorCode(NotFound) == 4004
    ensures Status(Forbidden) == 403 && ErrorCode(Forbidden) == 4005
  {
  }

  /** The error codes tell the classes apart: no two classes share one. */
  lemma CodesDistinct(e1: ApiError, e2: ApiError)
    requires IsApiException(e1) && IsApiException(e2) && e1 != e2
    ensures ErrorCode(e1) != ErrorCode(e2)
  {
  }

  /**
   * As written, raising the token-expired class sends status 500 instead
   * of 401, with no `error_code`; all other classes are as intended.
   */
  lemma TokenExpiredDefect(info: Option<string>)
    ensures StatusSent(RaiseAsWritten(TokenExpired, info)) == 500
    ensures StatusSent(RaiseIntended(TokenExpired, info)) == 401
    ensures forall e :: IsApiException(e) && e != TokenExpired ==> RaiseAsWritten(e, info) == RaiseIntended(e, info)
  {
  }
}
