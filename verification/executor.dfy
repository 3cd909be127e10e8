/** `Request.Run`: the stored-error short-circuit, the abort signal, the
    fetch argument map, and the mapping of the host's reply. The host's reply
    to the fetch call is a parameter: the network is not modelled. */
module Executor {
  import opened Wrappers
  import opened Errors
  import opened DeferredBridge
  import opened Timeout
  import opened OutgoingStream
  import opened ResponseAdapter

  /** The request fields `Run` reads. `currentReader` is `None` when no body
      was set (a nil `io.Reader`); a reader is given by the results of its reads. */
  datatype Request = Request(
    error: Option<Error>,
    verb: string,
    url: string,
    headers: map<string, string>,
    currentReader: Option<seq<SourceRead>>,
    currentTimeout: Option<Duration>)

  /** The `ReadableStream` built by `createReadableStream` over a (possibly nil) reader. */
  datatype BodyStream = BodyStream(source: Option<seq<SourceRead>>)

  /** A value in the fetch argument map. A signal of `None` is `undefined`. */
  datatype ArgValue =
    | SignalArg(millis: Option<int>)
    | MethodArg(verb: string)
    | HeadersArg(headers: map<string, string>)
    | BodyArg(stream: BodyStream)

  /** The host `fetch(url, args)` call. */
  datatype FetchCall = FetchCall(url: string, args: map<string, ArgValue>)

  /** `Response{RawResponse: ...}`. */
  datatype Response = Response(raw: HttpResponse)

  /** What `Run` did: the fetch call it made, if any, and what it returned. */
  datatype RunOutcome = RunOutcome(call: Option<FetchCall>, result: Result<Response, Error>)

  predicate ForbidsBody(verb: string) {
    verb == "GET" || verb == "HEAD"
  }

  /** The fetch argument map: all four entries are built, then `body` is
      deleted for `GET` and `HEAD`. The body stream wraps `currentReader`
      itself; the empty reader the code substitutes for a nil one is never used. */
  function FetchArgs(req: Request, signal: Option<int>): (args: map<string, ArgValue>)
    ensures "signal" in args && args["signal"] == SignalArg(signal)
    ensures "method" in args && args["method"] == MethodArg(req.verb)
    ensures "headers" in args && args["headers"] == HeadersArg(req.headers)
    ensures "body" in args <==> req.verb != "GET" && req.verb != "HEAD"
    ensures "body" in args ==> args["body"] == BodyArg(BodyStream(req.currentReader))
    ensures args.Keys <= {"signal", "method", "headers", "body"}
  {
    var full := map[
      "signal" := SignalArg(signal),
      "method" := MethodArg(req.verb),
      "headers" := HeadersArg(req.headers),
      "body" := BodyArg(BodyStream(req.currentReader))];
    if ForbidsBody(req.verb) then full - {"body"} else full
  }

  /** `Run`, given the settlement of the host's reply to the fetch call. */
  function Run(req: Request, defaultTimeout: Duration, reply: Settlement<HostResponse>): (out: RunOutcome)
    requires reply.Resolved? ==> reply.value.blob.Resolved?
    ensures req.error.Some? ==> out == RunOutcome(None, Failure(req.error.value))
    ensures req.error.None? ==>
      && out.call.Some?
      && out.call.value.url == req.url
      && out.call.value.args == FetchArgs(req, SignalFor(req.currentTimeout, defaultTimeout))
    ensures req.error.None? && reply.Rejected? ==> out.result == Failure(RejectionError(reply.payload))
    ensures req.error.None? && reply.Resolved? ==> out.result == Success(Response(Fetch2Http(reply.value)))
  {
    if req.error.Some? then RunOutcome(None, Failure(req.error.value))
    else
      var signal := SignalFor(req.currentTimeout, defaultTimeout);
      var call := FetchCall(req.url, FetchArgs(req, signal));
      match Await(reply)
      case Failure(e) => RunOutcome(Some(call), Failure(e))
      case Success(res) => RunOutcome(Some(call), Success(Response(Fetch2Http(res))))
  }

  /** `GET` and `HEAD` requests never send a body, whatever reader they carry;
      the comparison is case-sensitive, so a lower-case `get` does send one. */
  lemma NoBodyForGetOrHead(req: Request, defaultTimeout: Duration, reply: Settlement<HostResponse>)
    requires req.error.None? && (reply.Resolved? ==> reply.value.blob.Resolved?)
    ensures var args := Run(req, defaultTimeout, reply).call.value.args;
      && (req.verb in {"GET", "HEAD"} ==> "body" !in args)
      && (req.verb == "get" ==> "body" in args)
  {
  }

  /** A request without a body that is not `GET` or `HEAD` streams from a nil
      reader rather than from an empty one. */
  lemma BodyStreamIgnoresDefaultReader(req: Request, defaultTimeout: Duration, reply: Settlement<HostResponse>)
    requires req.error.None? && req.currentReader.None? && !ForbidsBody(req.verb)
    requires reply.Resolved? ==> reply.value.blob.Resolved?
    ensures Run(req, defaultTimeout, reply).call.value.args["body"] == BodyArg(BodyStream(None))
  {
  }

  /** An explicit zero timeout sends no signal even when a default is set;
      a sub-millisecond timeout sends a signal of zero milliseconds. */
  lemma ExplicitTimeouts(req: Request, defaultTimeout: Duration, reply: Settlement<HostResponse>)
    requires req.error.None? && (reply.Resolved? ==> reply.value.blob.Resolved?)
    ensures req.currentTimeout == Some(0) ==>
      Run(req, defaultTimeout, reply).call.value.args["signal"] == SignalArg(None)
    ensures req.currentTimeout.Some? && 0 < req.currentTimeout.value < NanosPerMilli ==>
      Run(req, defaultTimeout, reply).call.value.args["signal"] == SignalArg(Some(0))
  {
  }
}
