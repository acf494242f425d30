/** What a caller of a gRPC-Web method can rely on. */
module CallTheorems {
  import opened Basics
  import opened DecodeResponse
  import opened DecodeTheorems
  import opened TrailerOrder
  import opened MetadataStore
  import opened Call

  // ------------------------------------------------------------------------------------------
  // The user's callbacks

  /** The closures' state while nothing has thrown. */
  ghost predicate Progress<T>(events: seq<Event<Md, T>>, cs: CallState) {
    && (cs.status.Some? <==> HasTrailer(events) || cs.receivedTrailersOnly)
    && (cs.receivedTrailersOnly ==> |cs.userCalls| == 1 && cs.userCalls[0].OnTrailer?)
    && (!cs.receivedTrailersOnly ==>
          && |cs.userCalls| == (if Started(events) then 1 else 0) + (if HasTrailer(events) then 1 else 0)
          && (Started(events) ==> cs.userCalls[0] == OnHeader(events[0].header))
          && (HasTrailer(events) ==> cs.userCalls[|cs.userCalls| - 1].OnTrailer?))
    && (cs.receivedTrailersOnly ==> Started(events))
  }

  ghost predicate Started<T>(events: seq<Event<Md, T>>) {
    events != [] && events[0].Header?
  }

  /** `onHeader` and `onTrailer` each at most once, in this order. */
  ghost predicate OnceInOrder(calls: seq<UserCall>) {
    || calls == []
    || |calls| == 1
    || (|calls| == 2 && calls[0].OnHeader? && calls[1].OnTrailer?)
  }

  ghost predicate Quiet<T>(env: CallEnv, events: seq<Event<Md, T>>) {
    forall n :: 0 < n <= |events| ==> React(env, events[..n]).None?
  }

  lemma {:induction false} QuietProgress<T>(env: CallEnv, events: seq<Event<Md, T>>)
    requires Ordered(events) && Quiet(env, events)
    ensures Progress(events, After(env, events))
    decreases |events|
  {
    if events != [] {
      var init := events[..|events| - 1];
      OrderedPrefix(events);
      assert forall n :: 0 < n <= |init| ==> init[..n] == events[..n];
      QuietProgress(env, init);
      assert events[..|events|] == events;
      StepProgress(env, init, events[|events| - 1]);
      assert events == init + [events[|events| - 1]];
    }
  }

  lemma OrderedPrefix<T>(events: seq<Event<Md, T>>)
    requires Ordered(events) && events != []
    ensures Ordered(events[..|events| - 1])
    ensures events[|events| - 1].Header? ==> |events| == 1
    ensures events[|events| - 1].Trailer? ==> !HasTrailer(events[..|events| - 1])
  {
  }

  lemma StepProgress<T>(env: CallEnv, init: seq<Event<Md, T>>, last: Event<Md, T>)
    requires Progress(init, After(env, init))
    requires last.Header? ==> init == []
    requires last.Trailer? ==> !HasTrailer(init)
    ensures OnEvent(env, After(env, init), last).error.None? ==>
              Progress(init + [last], OnEvent(env, After(env, init), last).state)
    ensures OnceInOrder(OnEvent(env, After(env, init), last).state.userCalls)
  {
    var events := init + [last];
    assert last.Trailer? ==> events[|init|].Trailer?;
    assert forall i :: 0 <= i < |init| ==> events[i] == init[i];
    assert HasTrailer(events) <==> HasTrailer(init) || last.Trailer?;
  }

  /** Whatever the transport delivers and the callbacks throw, the user sees at most a header, then a trailer. */
  lemma UserCallsOnceInOrder<T>(env: CallEnv, script: Script<T>)
    ensures OnceInOrder(After(env, Decoded(env, script).events).userCalls)
  {
    var denv := DecoderEnv(env, script.decodeMetadata, script.decode);
    RunKeepsOrder(denv, InitState(), script.frames);
    var events := Decoded(env, script).events;
    if events != [] {
      var init := events[..|events| - 1];
      OrderedPrefix(events);
      forall n | 0 < n <= |init|
        ensures React(env, init[..n]).None?
      {
        assert init[..n] == events[..n];
        assert denv.react(events[..n]).None?;
      }
      QuietProgress(env, init);
      StepProgress(env, init, events[|events| - 1]);
    }
  }

  // ------------------------------------------------------------------------------------------
  // The recorded status

  /** Event `i` carries metadata from the server with this status. */
  ghost predicate Carries<T>(env: CallEnv, events: seq<Event<Md, T>>, i: int, status: Status) {
    && 0 <= i < |events|
    && match events[i]
       case Header(h) => IsTrailersOnly(h) && ParseTrailer(env, h).Ok? && ParseTrailer(env, h).value.status == status
       case Trailer(t) => ParseTrailer(env, t).Ok? && ParseTrailer(env, t).value.status == status
       case Message(_) => false
  }

  lemma {:induction false} StatusCarried<T>(env: CallEnv, events: seq<Event<Md, T>>)
    ensures var status := After(env, events).status;
            status.Some? ==> exists i :: Carries(env, events, i, status.value)
    decreases |events|
  {
    if events != [] {
      var init, n := events[..|events| - 1], |events| - 1;
      StatusCarried(env, init);
      var status := After(env, events).status;
      if status.Some? {
        if status == After(env, init).status {
          var i :| Carries(env, init, i, status.value);
          assert Carries(env, events, i, status.value);
        } else {
          assert Carries(env, events, n, status.value);
        }
      }
    }
  }

  /**
   * A call succeeds exactly when decoding went through and the recorded status is OK; and then the server did
   * send that status. Nothing else, not even a request error, decides.
   */
  lemma SuccessExactly<T>(env: CallEnv, script: Script<T>)
    ensures var s := Decoded(env, script);
      && (Completed(env, script).thrown.None? <==> s.error.None? && After(env, s.events).status == Some(OK))
      && (Completed(env, script).thrown.None? ==> exists i :: Carries(env, s.events, i, OK))
  {
    StatusCarried(env, Decoded(env, script).events);
  }

  /** A unary call resolves with `m` exactly when decoding went through, gave just `m`, and the status is OK. */
  lemma UnaryResolvesExactly<T>(env: CallEnv, script: Script<T>, m: T)
    ensures var s := Decoded(env, script);
      UnaryResult(Completed(env, script)) == Ok(m)
      <==> s.error.None? && Messages(s.events) == [m] && After(env, s.events).status == Some(OK)
  {
    SuccessExactly(env, script);
  }

  // ------------------------------------------------------------------------------------------
  // The status a call has recorded, told from what the server sent

  ghost predicate TrailersOnlyStart<T>(events: seq<Event<Md, T>>) {
    Started(events) && "grpc-status" in events[0].header
  }

  ghost function LastTrailer<T>(events: seq<Event<Md, T>>): Option<Md>
    decreases |events|
  {
    if events == [] then None
    else
      match events[|events| - 1]
      case Trailer(t) => Some(t)
      case _ => LastTrailer(events[..|events| - 1])
  }

  /** A header that carries a status is what counts, and else the trailer. */
  ghost function Sent<T>(env: CallEnv, events: seq<Event<Md, T>>): Option<ParsedTrailer> {
    var md := if TrailersOnlyStart(events) then Some(events[0].header) else LastTrailer(events);
    if md.Some? && ParseTrailer(env, md.value).Ok? then Some(ParseTrailer(env, md.value).value) else None
  }

  /** The closures have recorded what was sent. */
  ghost predicate Recorded(cs: CallState, sent: Option<ParsedTrailer>) {
    match sent
    case Some(p) => cs.status == Some(p.status) && cs.message == p.message
    case None => cs.status.None? && cs.message.None?
  }

  lemma {:induction false} RecordedExactly<T>(env: CallEnv, events: seq<Event<Md, T>>)
    requires Ordered(events) && forall n :: 0 < n < |events| ==> React(env, events[..n]).None?
    ensures Recorded(After(env, events), Sent(env, events))
    ensures React(env, events).None? ==> (After(env, events).receivedTrailersOnly <==> TrailersOnlyStart(events))
    decreases |events|
  {
    if events != [] {
      var init, last := events[..|events| - 1], events[|events| - 1];
      OrderedPrefix(events);
      assert forall n :: 0 < n < |init| ==> init[..n] == events[..n];
      RecordedExactly(env, init);
      assert init != [] ==> React(env, init).None?;
      NextRecorded(env, init, last);
      assert events == init + [last];
    }
  }

  lemma {:induction false} NextRecorded<T>(env: CallEnv, init: seq<Event<Md, T>>, last: Event<Md, T>)
    requires Recorded(After(env, init), Sent(env, init))
    requires After(env, init).receivedTrailersOnly <==> TrailersOnlyStart(init)
    requires (last.Header? ==> init == []) && (last.Trailer? ==> !HasTrailer(init))
    ensures var r := OnEvent(env, After(env, init), last);
      && Recorded(r.state, Sent(env, init + [last]))
      && (r.error.None? ==> (r.state.receivedTrailersOnly <==> TrailersOnlyStart(init + [last])))
  {
    assert (init + [last])[..|init|] == init;
    NoLastTrailer(init);
    if init != [] {
      assert (init + [last])[0] == init[0];
    }
  }

  lemma {:induction false} NoLastTrailer<T>(events: seq<Event<Md, T>>)
    ensures LastTrailer(events).Some? <==> HasTrailer(events)
    decreases |events|
  {
    if events != [] {
      var init, last := events[..|events| - 1], events[|events| - 1];
      NoLastTrailer(init);
      assert events == init + [last];
      assert HasTrailer(events) <==> HasTrailer(init) || last.Trailer? by {
        TrailerSnoc(init, last);
      }
    }
  }

  lemma {:induction false} TrailerSnoc<T>(init: seq<Event<Md, T>>, last: Event<Md, T>)
    ensures HasTrailer(init + [last]) <==> HasTrailer(init) || last.Trailer?
  {
    var events := init + [last];
    assert events[|init|] == last && forall i :: 0 <= i < |init| ==> events[i] == init[i];
  }

  /** Whatever the transport delivers, the closures end up with the status and message that were sent. */
  lemma {:induction false} RunRecorded<T>(env: CallEnv, script: Script<T>)
    ensures var events := Decoded(env, script).events;
      Recorded(After(env, events), Sent(env, events))
  {
    var denv := DecoderEnv(env, script.decodeMetadata, script.decode);
    RunKeepsOrder(denv, InitState(), script.frames);
    var events := Decoded(env, script).events;
    forall n | 0 < n < |events|
      ensures React(env, events[..n]).None?
    {
      assert denv.react(events[..n]).None?;
    }
    RecordedExactly(env, events);
  }

  /** What is read out of a trailer, key by key. */
  lemma {:induction false} ParseTrailerExactly(env: CallEnv, md: Md)
    ensures "grpc-status" !in md ==> ParseTrailer(env, md) == Err(Other("Received no status code from server"))
    ensures "grpc-status" in md ==>
      && md["grpc-status"] == [Text(md["grpc-status"][0].text)]
      && var text := md["grpc-status"][0].text;
         if env.parseStatus(text).None? then
           ParseTrailer(env, md) == Err(Other("Received invalid status code from server: " + text))
         else
           && ParseTrailer(env, md).Ok?
           && var p := ParseTrailer(env, md).value;
              && p.status == env.parseStatus(text).value
              && p.message == (if "grpc-message" !in md then None
                               else if env.decodeUri(md["grpc-message"][0].text).Some?
                               then env.decodeUri(md["grpc-message"][0].text)
                               else Some(md["grpc-message"][0].text))
              && p.trailer == map k | k in md && k != "grpc-status" && k != "grpc-message" :: md[k]
  {
    LegalKeyNormal("grpc-status");
    LegalKeyNormal("grpc-message");
    assert forall k :: k in md ==> WellFormedEntry(k, md[k]);
    assert StripStatus(md) == map k | k in md && k != "grpc-status" && k != "grpc-message" :: md[k];
  }

  /**
   * What a delivery does at the user's side, and what it throws: a header goes to `onHeader`, unless it carries a
   * status and is taken for the trailer; a trailer goes to `onTrailer` without the status, or is ignored or refused
   * after such a header.
   */
  lemma {:induction false} CallbackExactly<T>(env: CallEnv, events: seq<Event<Md, T>>, event: Event<Md, T>)
    requires Ordered(events + [event]) && Quiet(env, events)
    ensures var calls, calls' := After(env, events).userCalls, After(env, events + [event]).userCalls;
            var thrown := React(env, events + [event]);
      match event
      case Message(_) => calls' == calls && thrown.None?
      case Header(h) =>
        if "grpc-status" !in h then calls' == calls + [OnHeader(h)] && thrown == env.onHeader(h)
        else SeenAsTrailer(env, h, calls, calls', thrown)
      case Trailer(t) =>
        if !TrailersOnlyStart(events) then SeenAsTrailer(env, t, calls, calls', thrown)
        else
          && calls' == calls
          && thrown == if t == map[] then None
                       else Some(ClientError(13, "Received non-empty trailer after trailers-only response"))
  {
    assert (events + [event])[..|events|] == events;
    OrderedPrefix(events + [event]);
    if events != [] {
      assert events[..|events|] == events;
    }
    RecordedExactly(env, events);
  }

  ghost predicate SeenAsTrailer(env: CallEnv, md: Md, calls: seq<UserCall>, calls': seq<UserCall>,
                                thrown: Option<Error>) {
    match ParseTrailer(env, md)
    case Err(e) => calls' == calls && thrown == Some(e)
    case Ok(p) => calls' == calls + [OnTrailer(p.trailer)] && thrown == env.onTrailer(p.trailer)
  }

  // ------------------------------------------------------------------------------------------
  // How a call ends

  /** The text that goes with a status. */
  function StatusText(p: ParsedTrailer): string { if p.message.Some? then p.message.value else "" }

  function ViolationText(v: Violation): string {
    match v
    case MultipleHeaders => "Received multiple headers"
    case HeaderAfterData => "Received header after data"
    case HeaderAfterTrailer => "Received header after trailer"
    case MultipleTrailers => "Received multiple trailers"
    case DataAfterTrailer => "Received data after trailer"
    case DataBeforeHeader => "Received data before header"
    case CompressedMessage => "Compressed messages not supported"
  }

  /** What a failure of the decoder is thrown as. */
  ghost predicate ThrownFor(env: CallEnv, failure: Failure<Error>, thrown: Option<Error>) {
    match failure
    case Thrown(ClientError(code, details)) => thrown == Some(ClientError(code, details))
    case Thrown(AbortError) => thrown == Some(AbortError)
    case Thrown(Other(m)) => thrown == Some(ClientError(13, env.errorMessage(Other(m))))
    case Protocol(v) => thrown == Some(ClientError(13, env.errorMessage(Other(ViolationText(v)))))
  }

  /** How a call ends: what the server sent, how decoding ended, and whether the request failed decide. */
  ghost predicate EndsWith(env: CallEnv, sent: Option<ParsedTrailer>, failure: Option<Failure<Error>>,
                           requestError: Option<Error>, thrown: Option<Error>) {
    if sent.Some? && sent.value.status != 0 then
      thrown == Some(ClientError(sent.value.status, StatusText(sent.value)))
    else if failure.Some? then
      if requestError.Some? then thrown == requestError else ThrownFor(env, failure.value, thrown)
    else if sent.None? then thrown == Some(ClientError(2, NO_STATUS))
    else thrown.None?
  }

  lemma {:induction false} EndingExactly(env: CallEnv, cs: CallState, sent: Option<ParsedTrailer>,
                                          failure: Option<Failure<Error>>, requestError: Option<Error>)
    requires Recorded(cs, sent)
    ensures EndsWith(env, sent, failure, requestError, Ending(env, cs, failure, requestError))
  {
  }

  /**
   * What a call throws: the failure the server sent, whatever else happened; else, if decoding went wrong, the error
   * of the request, or client and abort errors as they are, or any other error wrapped; else the lack of a status.
   */
  lemma {:induction false} ThrownExactly<T>(env: CallEnv, script: Script<T>)
    ensures var s := Decoded(env, script);
      EndsWith(env, Sent(env, s.events), s.error, script.requestError, Completed(env, script).thrown)
  {
    RunRecorded(env, script);
    var s := Decoded(env, script);
    EndingExactly(env, After(env, s.events), Sent(env, s.events), s.error, script.requestError);
  }

  /** A transport failure counts if nothing went wrong before: an abort as it is, anything else as a transport error. */
  lemma {:induction false} TransportFailure<T>(env: CallEnv, script: Script<T>)
    ensures var before := InitState().HandleFrames(DecoderEnv(env, script.decodeMetadata, script.decode),
                                              script.frames);
      && Decoded(env, script).events == before.session.events
      && (before.session.error.Some? || script.transportFailure.None? ==>
            Decoded(env, script).error == before.session.error)
      && (before.session.error.None? && script.transportFailure.Some? ==>
            Decoded(env, script).error
            == Some(Thrown(if script.transportFailure.value == AbortError then AbortError
                           else ClientError(2, "Transport error: " + env.errorMessage(script.transportFailure.value)))))
  {
  }

  /** What a unary call makes of the messages and the end of the call. */
  lemma {:induction false} UnaryExactly<T>(call: CallResult<T>)
    ensures |call.messages| >= 2 ==>
              UnaryResult(call) == Err(ClientError(13, "Received more than one message from server for unary method"))
    ensures |call.messages| <= 1 && call.thrown.Some? ==> UnaryResult(call) == Err(call.thrown.value)
    ensures |call.messages| == 0 && call.thrown.None? ==>
              UnaryResult(call) == Err(ClientError(13, "Server did not return a response"))
    ensures |call.messages| == 1 && call.thrown.None? ==> UnaryResult(call) == Ok(call.messages[0])
  {
  }
}
