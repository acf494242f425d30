/**
 * The outcome of a gRPC-Web call: packages/nice-grpc-web/src/client/parseTrailer.ts, makeCall.ts and
 * createUnaryMethod.ts.
 */
module Call {
  import opened Basics
  import opened DecodeResponse
  import opened MetadataStore

  type Md = m: Contents | WellFormed(m) witness map[]

  type Status = s: nat | s <= 16
  const OK: Status := 0
  const UNKNOWN: Status := 2
  const INTERNAL: Status := 13

  /** A `ClientError`, an `AbortError`, or anything else that can be thrown. */
  datatype Error = ClientError(status: Status, details: string) | AbortError | Other(message: string)

  /** Conversions the call relies on, and the user's callbacks, which may throw. */
  datatype CallEnv = CallEnv(
    parseStatus: string -> Option<Status>,
    decodeUri: string -> Option<string>,
    errorMessage: Error -> string,
    onHeader: Md -> Option<Error>,
    onTrailer: Md -> Option<Error>)

  // ------------------------------------------------------------------------------------------
  // parseTrailer

  datatype ParsedTrailer = ParsedTrailer(status: Status, message: Option<string>, trailer: Md)

  function GetText(md: Md, key: string): Option<string> {
    match First(md, key)
    case Some(Text(s)) => Some(s)
    case _ => None
  }

  function StripStatus(md: Md): Md {
    ApplyKeepsWellFormed(md, DeleteOp("grpc-status"));
    ApplyKeepsWellFormed(Without(md, "grpc-status"), DeleteOp("grpc-message"));
    Without(Without(md, "grpc-status"), "grpc-message")
  }

  function ParseTrailer(env: CallEnv, md: Md): Result<ParsedTrailer, Error> {
    match GetText(md, "grpc-status")
    case None => Err(Other("Received no status code from server"))
    case Some(statusValue) =>
      match env.parseStatus(statusValue)
      case None => Err(Other("Received invalid status code from server: " + statusValue))
      case Some(status) =>
        var message := GetText(md, "grpc-message");
        var decoded := if message.Some? && env.decodeUri(message.value).Some?
                       then env.decodeUri(message.value) else message;
        Ok(ParsedTrailer(status, decoded, StripStatus(md)))
  }

  /** The text under a key of a store object. */
  method TextOf(store: Metadata, key: string) returns (r: Option<string>)
    requires store.Valid()
    ensures r == GetText(store.Contents(), key)
  {
    var value := store.Get(key);
    match value {
      case Some(Text(s)) => return Some(s);
      case _ => return None;
    }
  }

  datatype ParsedStore = ParsedStore(status: Status, message: Option<string>, trailer: Metadata)

  /** The status keys are deleted from a copy; the trailer itself stays as it is. */
  method StripStore(trailer: Metadata) returns (copy: Metadata)
    requires trailer.Valid()
    ensures fresh(copy) && copy.Valid() && copy.Contents() == StripStatus(trailer.Contents())
  {
    copy := Copy(trailer);
    ghost var m := copy.Contents();
    DeleteStatus(copy);
    assert copy.Contents() == StripStatus(m) && trailer.Contents() == m;
  }

  method DeleteStatus(store: Metadata)
    requires store.Valid()
    modifies store
    ensures store.Valid() && store.Contents() == old(StripStatus(store.Contents()))
  {
    store.Delete("grpc-status");
    store.Delete("grpc-message");
  }

  /** The same on store objects, as written. */
  method ParseTrailerStore(env: CallEnv, trailer: Metadata) returns (r: Result<ParsedStore, Error>)
    requires trailer.Valid()
    ensures r.Err? ==> ParseTrailer(env, trailer.Contents()) == Err(r.error)
    ensures r.Ok? ==> fresh(r.value.trailer) && r.value.trailer.Valid()
    ensures r.Ok? ==> ParseTrailer(env, trailer.Contents())
                      == Ok(ParsedTrailer(r.value.status, r.value.message, r.value.trailer.Contents()))
  {
    var statusValue := TextOf(trailer, "grpc-status");
    if statusValue.None? {
      return Err(Other("Received no status code from server"));
    }
    var status := env.parseStatus(statusValue.value);
    if status.None? {
      return Err(Other("Received invalid status code from server: " + statusValue.value));
    }
    var message := TextOf(trailer, "grpc-message");
    if message.Some? {
      var decoded := env.decodeUri(message.value);
      if decoded.Some? {
        message := decoded;
      }
    }
    var trailerCopy := StripStore(trailer);
    return Ok(ParsedStore(status.value, message, trailerCopy));
  }

  // ------------------------------------------------------------------------------------------
  // makeCall: the closures around the decoder

  datatype UserCall = OnHeader(header: Md) | OnTrailer(trailer: Md)

  datatype CallState = CallState(
    receivedTrailersOnly: bool,
    status: Option<Status>,
    message: Option<string>,
    userCalls: seq<UserCall>)

  const INIT_CALL := CallState(false, None, None, [])

  /** A state after a closure ran, and the error it threw, if any. */
  datatype Outcome = Outcome(state: CallState, error: Option<Error>)

  function TrailerOutcome(env: CallEnv, cs: CallState, trailer: Md): Outcome {
    if cs.receivedTrailersOnly then
      Outcome(cs, if |trailer| > 0
                  then Some(ClientError(INTERNAL, "Received non-empty trailer after trailers-only response"))
                  else None)
    else
      match ParseTrailer(env, trailer)
      case Err(e) => Outcome(cs, Some(e))
      case Ok(p) =>
        Outcome(cs.(status := Some(p.status), message := p.message, userCalls := cs.userCalls + [OnTrailer(p.trailer)]),
                env.onTrailer(p.trailer))
  }

  predicate IsTrailersOnly(header: Md) { "grpc-status" in header }

  function HeaderOutcome(env: CallEnv, cs: CallState, header: Md): Outcome {
    if IsTrailersOnly(header) then
      var r := TrailerOutcome(env, cs, header);
      if r.error.Some? then r else Outcome(r.state.(receivedTrailersOnly := true), None)
    else
      Outcome(cs.(userCalls := cs.userCalls + [OnHeader(header)]), env.onHeader(header))
  }

  function OnEvent<T>(env: CallEnv, cs: CallState, event: Event<Md, T>): Outcome {
    match event
    case Header(h) => HeaderOutcome(env, cs, h)
    case Trailer(t) => TrailerOutcome(env, cs, t)
    case Message(_) => Outcome(cs, None)
  }

  /** The closures' variables after a list of deliveries. */
  function After<T>(env: CallEnv, events: seq<Event<Md, T>>): CallState
    decreases |events|
  {
    if events == [] then INIT_CALL
    else OnEvent(env, After(env, events[..|events| - 1]), events[|events| - 1]).state
  }

  /** The closures as the decoder sees them: whether the latest delivery throws. */
  function React<T>(env: CallEnv, events: seq<Event<Md, T>>): Option<Error> {
    if events == [] then None
    else OnEvent(env, After(env, events[..|events| - 1]), events[|events| - 1]).error
  }

  function DecoderEnv<T>(env: CallEnv, decodeMetadata: seq<byte> -> Result<Md, Error>,
                         decode: seq<byte> -> Result<T, Error>): Env<Md, T, Error> {
    Env(decodeMetadata, decode, events => React(env, events))
  }

  class CallClosures {
    const env: CallEnv
    var receivedTrailersOnly: bool
    var status: Option<Status>
    var message: Option<string>
    var userCalls: seq<UserCall>

    ghost function View(): CallState
      reads this
    {
      CallState(receivedTrailersOnly, status, message, userCalls)
    }

    constructor (env: CallEnv)
      ensures View() == INIT_CALL && this.env == env
    {
      this.env := env;
      receivedTrailersOnly, status, message, userCalls := false, None, None, [];
    }

    method HandleTrailer(trailer: Md) returns (error: Option<Error>)
      modifies this
      ensures Outcome(View(), error) == TrailerOutcome(env, old(View()), trailer)
    {
      if receivedTrailersOnly {
        if |trailer| > 0 {
          return Some(ClientError(INTERNAL, "Received non-empty trailer after trailers-only response"));
        }
        return None;
      }
      var parsed := ParseTrailer(env, trailer);
      if parsed.Err? {
        return Some(parsed.error);
      }
      status, message := Some(parsed.value.status), parsed.value.message;
      userCalls := userCalls + [OnTrailer(parsed.value.trailer)];
      return env.onTrailer(parsed.value.trailer);
    }

    method OnHeader(header: Md) returns (error: Option<Error>)
      modifies this
      ensures Outcome(View(), error) == HeaderOutcome(env, old(View()), header)
    {
      if IsTrailersOnly(header) {
        error := HandleTrailer(header);
        if error.None? {
          receivedTrailersOnly := true;
        }
      } else {
        userCalls := userCalls + [UserCall.OnHeader(header)];
        error := env.onHeader(header);
      }
    }
  }

  // ------------------------------------------------------------------------------------------
  // makeCall: how a finished call ends

  function ViolationMessage(v: Violation): string {
    match v
    case MultipleHeaders => "Received multiple headers"
    case HeaderAfterData => "Received header after data"
    case HeaderAfterTrailer => "Received header after trailer"
    case MultipleTrailers => "Received multiple trailers"
    case DataAfterTrailer => "Received data after trailer"
    case DataBeforeHeader => "Received data before header"
    case CompressedMessage => "Compressed messages not supported"
  }

  function ThrownError(f: Failure<Error>): Error {
    match f
    case Protocol(v) => Other(ViolationMessage(v))
    case Thrown(e) => e
  }

  /** `handleTransportErrors`: everything but an abort becomes a transport error. */
  function TransportError(env: CallEnv, e: Error): Error {
    if e.AbortError? then e else ClientError(UNKNOWN, "Transport error: " + env.errorMessage(e))
  }

  const NO_STATUS := "Response stream closed without gRPC status. This may indicate a misconfigured CORS policy on the "
    + "server: Access-Control-Expose-Headers must include \"grpc-status\" and \"grpc-message\"."

  /** The priorities, highest first: recorded failure, request error, passed-on errors, wrapped errors, no status. */
  function Ending(env: CallEnv, cs: CallState, failure: Option<Failure<Error>>,
                  requestError: Option<Error>): Option<Error> {
    if cs.status.Some? && cs.status.value != OK then
      Some(ClientError(cs.status.value, if cs.message.Some? then cs.message.value else ""))
    else if failure.Some? && requestError.Some? then requestError
    else if failure.Some? && !ThrownError(failure.value).Other? then Some(ThrownError(failure.value))
    else if failure.Some? then Some(ClientError(INTERNAL, env.errorMessage(ThrownError(failure.value))))
    else if cs.status.None? then Some(ClientError(UNKNOWN, NO_STATUS))
    else None
  }

  /** try / catch / finally as written: the `finally` block's throw replaces a pending one. */
  method Finish(env: CallEnv, status: Option<Status>, message: Option<string>,
                failure: Option<Failure<Error>>, requestError: Option<Error>) returns (thrown: Option<Error>)
    ensures forall cs: CallState :: cs.status == status && cs.message == message ==>
              thrown == Ending(env, cs, failure, requestError)
  {
    thrown := None;
    if failure.Some? {
      var err := ThrownError(failure.value);
      if requestError.Some? {
        thrown := requestError;
      } else if err.ClientError? || err.AbortError? {
        thrown := Some(err);
      } else {
        thrown := Some(ClientError(INTERNAL, env.errorMessage(err)));
      }
    }
    if status.Some? && status.value != OK {
      thrown := Some(ClientError(status.value, match message case Some(m) => m case None => ""));
    }
    if thrown.Some? {
      return;
    }
    if status.None? {
      return Some(ClientError(UNKNOWN, NO_STATUS));
    }
  }

  function Messages<M, T>(events: seq<Event<M, T>>): seq<T>
    decreases |events|
  {
    if events == [] then []
    else
      Messages(events[..|events| - 1])
      + match events[|events| - 1] case Message(m) => [m] case _ => []
  }

  /** A call driven to completion: what it yielded and what it threw. */
  datatype CallResult<T> = CallResult(messages: seq<T>, thrown: Option<Error>)

  /** What the environment contributes to one call. */
  datatype Script<!T> = Script(
    decodeMetadata: seq<byte> -> Result<Md, Error>,
    decode: seq<byte> -> Result<T, Error>,
    frames: seq<TransportFrame<Md>>,
    transportFailure: Option<Error>,
    requestError: Option<Error>)

  /** Where the decoder ends up. */
  function Decoded<T>(env: CallEnv, script: Script<T>): Session<Md, T, Error> {
    var failure := match script.transportFailure case Some(e) => Some(TransportError(env, e)) case None => None;
    InitState().HandleFrames(DecoderEnv(env, script.decodeMetadata, script.decode), script.frames)
    .Close(failure).session
  }

  function Completed<T>(env: CallEnv, script: Script<T>): CallResult<T> {
    var s := Decoded(env, script);
    CallResult(Messages(s.events), Ending(env, After(env, s.events), s.error, script.requestError))
  }

  method MakeCall<T>(env: CallEnv, script: Script<T>) returns (r: CallResult<T>)
    ensures r == Completed(env, script)
  {
    var failure := match script.transportFailure case Some(e) => Some(TransportError(env, e)) case None => None;
    var decoder := new Decoder(DecoderEnv(env, script.decodeMetadata, script.decode));
    decoder.Run(script.frames, failure);
    var closures := new CallClosures(env);
    Replay(closures, decoder.events);
    var thrown := Finish(env, closures.status, closures.message, decoder.error, script.requestError);
    return CallResult(Messages(decoder.events), thrown);
  }

  /** The closures, called with what the decoder delivered, in order. */
  method Replay<T>(closures: CallClosures, events: seq<Event<Md, T>>)
    requires closures.View() == INIT_CALL
    modifies closures
    ensures closures.View() == After(closures.env, events)
  {
    for i := 0 to |events|
      invariant closures.View() == After(closures.env, events[..i])
    {
      var error: Option<Error> := None;
      match events[i] {
        case Header(h) => error := closures.OnHeader(h);
        case Trailer(t) => error := closures.HandleTrailer(t);
        case Message(_) =>
      }
      assert events[..i + 1][..i] == events[..i];
      assert error == React(closures.env, events[..i + 1]);
    }
    assert events[..|events|] == events;
  }

  // ------------------------------------------------------------------------------------------
  // unaryMethod: exactly one message

  const MANY_RESPONSES := ClientError(INTERNAL, "Received more than one message from server for unary method")
  const NO_RESPONSE := ClientError(INTERNAL, "Server did not return a response")

  /** Too many messages win over everything, then the call's own error, then a missing message. */
  function UnaryResult<T>(call: CallResult<T>): Result<T, Error> {
    if |call.messages| > 1 then Err(MANY_RESPONSES)
    else if call.thrown.Some? then Err(call.thrown.value)
    else if call.messages == [] then Err(NO_RESPONSE)
    else Ok(call.messages[0])
  }

  /** The loop stops at a second message; otherwise it ends with the call. */
  method UnaryMethod<T>(call: CallResult<T>) returns (r: Result<T, Error>)
    ensures r == UnaryResult(call)
  {
    var unaryResponse: Option<T> := None;
    var i := 0;
    while i < |call.messages|
      invariant i <= |call.messages| && i <= 1
      invariant unaryResponse == if i == 0 then None else Some(call.messages[0])
    {
      if unaryResponse.Some? {
        return Err(MANY_RESPONSES);
      }
      unaryResponse := Some(call.messages[i]);
      i := i + 1;
    }
    if call.thrown.Some? {
      return Err(call.thrown.value);
    }
    if unaryResponse.None? {
      return Err(NO_RESPONSE);
    }
    return Ok(unaryResponse.value);
  }
}
