/** Classification of one OCSP call. The HTTP exchange and the validation of
    the response (section 4.2 of RFC 6960, done by the OCSP library's
    ParseResponse) are inputs: an Exchange says what the network and the
    parser produced, and OcspProbe turns it into the call result and error
    that the probe loop acts on. */
module Classify {
  import opened Types

  const StatusOK: int := 200

  /** OCSP certificate status codes as the OCSP library numbers them. */
  const Good: int := 0
  const Revoked: int := 1
  const Unknown: int := 2
  const ServerFailed: int := 3

  /** A status that a successfully parsed response can carry. */
  type CertStatus = s: int | Good <= s <= Unknown

  /** What reading and parsing a 200 response body produced. */
  datatype Body = ReadFailed | Malformed | Parsed(status: CertStatus)

  /** What one HTTP POST of an OCSP request produced: a transport error
      (`timeout` is whether the client classifies it as a timeout), or a
      response with its status code and body. */
  datatype Exchange = TransportFailed(timeout: bool) | Responded(httpStatus: int, body: Body)

  datatype ProbeError = Transport(timeout: bool) | BadStatus(code: int) | ReadError | ParseError

  datatype CallResult = CallResult(httpStatus: int, ocspStatus: int)

  /** The call result together with the error, if any, that ocspProbe returns. */
  datatype Outcome = Outcome(call: CallResult, err: Option<ProbeError>)

  /** Only errors from the HTTP client itself can be client timeouts. */
  predicate IsClientTimeout(e: ProbeError)
  {
    e == Transport(true)
  }

  /** A call succeeds iff a 200 response carried a body that parsed. */
  predicate Succeeded(x: Exchange)
  {
    x.Responded? && x.httpStatus == StatusOK && x.body.Parsed?
  }

  /** ocspProbe: start from HTTP status 0 and the "server failed" OCSP
      status, and return at the first of a transport error, a non-200
      status, a body that cannot be read and a response that does not parse;
      only a parsed response sets the OCSP status, and only it is no error. */
  function OcspProbe(x: Exchange): (o: Outcome)
    ensures o.err.None? <==> Succeeded(x)
    ensures o.call.httpStatus == (if x.Responded? then x.httpStatus else 0)
    ensures o.call.ocspStatus != ServerFailed <==> o.err.None?
    ensures o.err.None? ==> o.call == CallResult(StatusOK, x.body.status)
    ensures (o.err.Some? && IsClientTimeout(o.err.value)) <==> x == TransportFailed(true)
  {
    match x
    case TransportFailed(t) => Outcome(CallResult(0, ServerFailed), Some(Transport(t)))
    case Responded(code, body) =>
      var call := CallResult(code, ServerFailed);
      if code != StatusOK then Outcome(call, Some(BadStatus(code)))
      else
        match body
        case ReadFailed => Outcome(call, Some(ReadError))
        case Malformed => Outcome(call, Some(ParseError))
        case Parsed(s) => Outcome(call.(ocspStatus := s), None)
  }
}
