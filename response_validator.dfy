/**
 * The client's check of every server response: status 200 passes the
 * response through unchanged; any other status raises `APIException`
 * with the body's `detail` when there is one, and with the default
 * detail otherwise. A body that is not JSON makes `response.json()`
 * raise before any exception is built.
 */
module ResponseValidation {
  import opened Common
  import opened ApiExceptions

  datatype Json = JString(s: string) | JNumber(n: int) | JObject(fields: map<string, Json>)

  /** A response body: a JSON object, or text that does not parse as JSON. */
  datatype Body = Object(fields: map<string, Json>) | NotJson

  datatype HttpResponse = HttpResponse(status: int, body: Body)

  /** The outcome of `response_validator`. */
  datatype Validated = Passed(response: HttpResponse) | ApiFailure(detail: Json) | Undecodable

  /** The default `detail` of `APIException`. */
  const DEFAULT_DETAIL: Json := JString("API Exception Occurred")

  function ResponseValidator(response: HttpResponse): (v: Validated)
    ensures response.status == 200 <==> v.Passed?
    ensures v.Passed? ==> v.response == response
    ensures response.status != 200 && response.body.Object? && "detail" in response.body.fields ==>
              v == ApiFailure(response.body.fields["detail"])
    ensures response.status != 200 && response.body.Object? && "detail" !in response.body.fields ==>
              v == ApiFailure(DEFAULT_DETAIL)
    ensures v.Undecodable? <==> response.status != 200 && response.body.NotJson?
  {
    if response.status == 200 then Passed(response)
    else match response.body
      case NotJson => Undecodable
      case Object(fields) => if "detail" in fields then ApiFailure(fields["detail"]) else ApiFailure(DEFAULT_DETAIL)
  }

  /**
   * The response the framework sends for a raised exception: the status
   * and a JSON body `{"detail": {"error_code": ..., "error_info": ...}}`;
   * a failed construction becomes a plain-text 500 response.
   */
  function ErrorResponse(r: Raised): (resp: HttpResponse)
    ensures resp.status == StatusSent(r)
  {
    match r
    case HttpError(status, d) =>
      HttpResponse(status, Object(map["detail" := JObject(map["error_code" := JNumber(d.errorCode),
                                                             "error_info" := JString(d.errorInfo)])]))
    case ConstructionFailed => HttpResponse(500, NotJson)
  }

  /**
   * End to end: for every exception class that constructs, the client's
   * APIException carries the server's error code and message; the
   * token-expired class as written reaches the client as an undecodable
   * body instead.
   */
  lemma ClientSeesServerDetail(e: ApiError, info: Option<string>)
    requires IsApiException(e)
    ensures var d := RaiseIntended(e, info).detail;
            ResponseValidator(ErrorResponse(RaiseIntended(e, info)))
              == ApiFailure(JObject(map["error_code" := JNumber(d.errorCode), "error_info" := JString(d.errorInfo)]))
    ensures e != TokenExpired ==>
              ResponseValidator(ErrorResponse(RaiseAsWritten(e, info)))
                == ResponseValidator(ErrorResponse(RaiseIntended(e, info)))
    ensures ResponseValidator(ErrorResponse(RaiseAsWritten(TokenExpired, info))) == Undecodable
  {
  }
}
