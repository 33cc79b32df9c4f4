/** The response interceptor of the shared HTTP client: successful responses
    pass through, failed ones are normalised into an `ApiError`. */
module ApiClient {
  import opened Wrappers
  import opened Interfaces

  const UNKNOWN_ERROR: string := "Error desconocido"

  /** A successful transport response: the decoded body and the HTTP status. */
  datatype HttpResponse<T> = HttpResponse(data: T, status: int)

  /** The body of an error response, as far as the interceptor looks into it. */
  datatype ErrorBody = ErrorBody(message: Option<string>)

  /** The response attached to a failed request (absent for network errors
      and timeouts). */
  datatype ErrorResponse = ErrorResponse(status: int, data: Option<ErrorBody>)

  /** A failed request as the transport reports it: every field may be missing. */
  datatype RawError = RawError(response: Option<ErrorResponse>, message: Option<string>, code: Option<string>)

  /** JavaScript truthiness of an optional string: present and non-empty. */
  predicate Truthy(s: Option<string>)
  {
    s.Some? && s.value != ""
  }

  /** `s || fallback` for an optional string. */
  function OrElse(s: Option<string>, fallback: string): (r: string)
    ensures Truthy(s) ==> r == s.value
    ensures !Truthy(s) ==> r == fallback
  {
    if Truthy(s) then s.value else fallback
  }

  /** `error.response?.data?.message`. */
  function ServerMessage(e: RawError): (m: Option<string>)
    ensures m.Some? ==> e.response.Some? && e.response.value.data.Some?
    ensures e.response.Some? && e.response.value.data.Some? ==> m == e.response.value.data.value.message
  {
    match e.response
    case None => None
    case Some(resp) =>
      match resp.data
      case None => None
      case Some(body) => body.message
  }

  /** The error interceptor: builds the uniform error from a raw one. */
  function NormaliseError(e: RawError): (r: ApiError)
    ensures r.message != ""
    ensures Truthy(ServerMessage(e)) ==> r.message == ServerMessage(e).value
    ensures !Truthy(ServerMessage(e)) && Truthy(e.message) ==> r.message == e.message.value
    ensures !Truthy(ServerMessage(e)) && !Truthy(e.message) ==> r.message == UNKNOWN_ERROR
    ensures r.status.Some? <==> e.response.Some?
    ensures e.response.Some? ==> r.status == Some(e.response.value.status)
    ensures r.code == e.code
  {
    ApiError(
      OrElse(ServerMessage(e), OrElse(e.message, UNKNOWN_ERROR)),
      if e.response.Some? then Some(e.response.value.status) else None,
      e.code)
  }

  /** Both handlers of the interceptor: a success passes through unchanged,
      a failure is rejected with its normalised error. */
  function Intercept<T>(outcome: Result<T, RawError>): (r: Result<T, ApiError>)
    ensures r.Success? <==> outcome.Success?
    ensures outcome.Success? ==> r.value == outcome.value
    ensures outcome.Failure? ==> r.error == NormaliseError(outcome.error)
  {
    match outcome
    case Success(response) => Success(response)
    case Failure(e) => Failure(NormaliseError(e))
  }

  /** The normalised message is always one of the three candidates, and a
      truthy server message hides whatever the transport said. */
  lemma MessageSources(e: RawError, transport: Option<string>)
    ensures var m := NormaliseError(e).message;
      (ServerMessage(e).Some? && m == ServerMessage(e).value)
      || (e.message.Some? && m == e.message.value)
      || m == UNKNOWN_ERROR
    ensures Truthy(ServerMessage(e)) ==>
      NormaliseError(e.(message := transport)).message == NormaliseError(e).message
  {
  }
}
