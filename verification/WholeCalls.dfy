/** Whole responses, wherever header and trailer travel and however the bytes are cut, and what a caller gets. */
module WholeCalls {
  import opened Basics
  import opened Framing
  import opened DecodeResponse
  import opened DecodeTheorems
  import opened DecodeOutcomes
  import opened TrailerOrder
  import opened Call
  import opened CallTheorems

  /** Every payload decodes. */
  predicate Decodable<T>(decode: seq<byte> -> Result<T, Error>, payloads: seq<seq<byte>>) {
    forall i :: 0 <= i < |payloads| ==> decode(payloads[i]).Ok?
  }

  function DecodeAll<T>(decode: seq<byte> -> Result<T, Error>, payloads: seq<seq<byte>>): (r: seq<T>)
    requires Decodable(decode, payloads)
    ensures |r| == |payloads| && forall i :: 0 <= i < |r| ==> decode(payloads[i]) == Ok(r[i])
  {
    seq(|payloads|, i requires 0 <= i < |payloads| => decode(payloads[i]).value)
  }

  /** An uncompressed metadata block that decodes to this. */
  ghost predicate CarriesMetadata<T>(script: Script<T>, raw: seq<byte>, md: Md) {
    && IsBlock(raw) && !CompressedBlock(raw) && MetadataBlock(raw)
    && script.decodeMetadata(raw[LPM_HEADER_LENGTH..]) == Ok(md)
  }

  /**
   * How header and trailer travel: as a transport frame of their own, or as a metadata block in the data. The fetch
   * transport gives a header frame and a trailer block, Node.js two frames, WebSocket two blocks.
   */
  datatype Shape = Shape(headerBlock: Option<seq<byte>>, trailerBlock: Option<seq<byte>>)

  function Listed<A>(o: Option<A>): seq<A> { if o.Some? then [o.value] else [] }

  function BlocksOf(shape: Shape, payloads: seq<seq<byte>>): seq<seq<byte>> {
    Listed(shape.headerBlock) + Frames(payloads) + Listed(shape.trailerBlock)
  }

  function FramesOf(shape: Shape, header: Md, trailer: Md, chunks: seq<seq<byte>>): seq<TransportFrame<Md>> {
    (if shape.headerBlock.Some? then [] else [HeaderFrame(header)])
    + DataFrames(chunks)
    + (if shape.trailerBlock.Some? then [] else [TrailerFrame(trailer)])
  }

  /** What the server has to say: headers, any number of messages, and a trailer that carries a status. */
  ghost predicate Says<T>(env: CallEnv, script: Script<T>, shape: Shape, header: Md, payloads: seq<seq<byte>>,
                          trailer: Md) {
    && "grpc-status" !in header && env.onHeader(header).None?
    && Encodable(payloads) && Decodable(script.decode, payloads)
    && ParseTrailer(env, trailer).Ok? && env.onTrailer(ParseTrailer(env, trailer).value.trailer).None?
    && (shape.headerBlock.Some? ==> CarriesMetadata(script, shape.headerBlock.value, header))
    && (shape.trailerBlock.Some? ==> CarriesMetadata(script, shape.trailerBlock.value, trailer))
  }

  /** The same as transport frames, with the bytes cut in any way. */
  ghost predicate Answers<T>(env: CallEnv, script: Script<T>, shape: Shape, header: Md, payloads: seq<seq<byte>>,
                             trailer: Md, chunks: seq<seq<byte>>) {
    && Says(env, script, shape, header, payloads, trailer)
    && script.frames == FramesOf(shape, header, trailer, chunks) && script.transportFailure.None?
    && (shape.trailerBlock.Some? ==> chunks != [] && chunks[|chunks| - 1] != [])
    && Flatten(chunks) == Flatten(BlocksOf(shape, payloads))
  }

  /** The events of an answer. */
  function EventsOf<T>(header: Md, messages: seq<T>, trailer: Md): (events: seq<Event<Md, T>>)
    ensures |events| == |messages| + 2
    ensures forall i :: 0 <= i < |events| ==>
              events[i] == if i == 0 then Header(header)
                           else if i <= |messages| then Message(messages[i - 1]) else Trailer(trailer)
  {
    [Header(header)] + seq(|messages|, i requires 0 <= i < |messages| => Message(messages[i])) + [Trailer(trailer)]
  }

  lemma {:induction false} SnocEvents<T>(env: CallEnv, events: seq<Event<Md, T>>, event: Event<Md, T>)
    ensures After(env, events + [event]) == OnEvent(env, After(env, events), event).state
    ensures React(env, events + [event]) == OnEvent(env, After(env, events), event).error
    ensures Messages(events + [event]) == Messages(events) + match event case Message(m) => [m] case _ => []
  {
    assert (events + [event])[..|events|] == events;
  }

  /** The closures after the header and some messages. */
  lemma {:induction false} AfterMessages<T>(env: CallEnv, header: Md, messages: seq<T>, trailer: Md, n: nat)
    requires "grpc-status" !in header && env.onHeader(header).None? && n <= |messages|
    ensures var events := EventsOf(header, messages, trailer)[..n + 1];
      && After(env, events) == CallState(false, None, None, [OnHeader(header)])
      && React(env, events).None? && Messages(events) == messages[..n]
  {
    var all := EventsOf(header, messages, trailer);
    if n == 0 {
      assert all[..1] == [] + [all[0]];
      SnocEvents(env, [], all[0]);
    } else {
      AfterMessages(env, header, messages, trailer, n - 1);
      OneMessage(env, all[..n], messages[n - 1], messages[..n - 1], all[..n + 1], messages[..n]);
    }
  }

  /** One message more changes nothing for the closures. */
  lemma {:induction false} OneMessage<T>(env: CallEnv, events: seq<Event<Md, T>>, m: T, messages: seq<T>,
                                          events': seq<Event<Md, T>>, messages': seq<T>)
    requires Messages(events) == messages
    requires events' == events + [Message(m)] && messages' == messages + [m]
    ensures After(env, events') == After(env, events) && React(env, events').None? && Messages(events') == messages'
  {
    SnocEvents(env, events, Message(m));
  }

  /** The closures at the end of an answer. */
  lemma {:induction false} AfterAnswer<T>(env: CallEnv, header: Md, messages: seq<T>, trailer: Md)
    requires "grpc-status" !in header && env.onHeader(header).None? && ParseTrailer(env, trailer).Ok?
    ensures var events, p := EventsOf(header, messages, trailer), ParseTrailer(env, trailer).value;
      && After(env, events) == CallState(false, Some(p.status), p.message, [OnHeader(header), OnTrailer(p.trailer)])
      && React(env, events) == env.onTrailer(p.trailer) && Messages(events) == messages
  {
    var all, n := EventsOf(header, messages, trailer), |messages| + 1;
    AfterMessages(env, header, messages, trailer, |messages|);
    assert all == all[..n] + [Trailer(trailer)];
    SnocEvents(env, all[..n], Trailer(trailer));
    assert messages[..|messages|] == messages && messages + [] == messages;
  }

  /** Where the data frames' events begin and end. */
  function First(shape: Shape): nat { if shape.headerBlock.Some? then 0 else 1 }

  function Last(shape: Shape, payloads: seq<seq<byte>>): nat { |payloads| + if shape.trailerBlock.Some? then 2 else 1 }

  ghost function EnvOf<T>(env: CallEnv, script: Script<T>): Env<Md, T, Error> {
    DecoderEnv(env, script.decodeMetadata, script.decode)
  }

  /** The block of an event that travels in the data. */
  lemma {:induction false} BlockOf(shape: Shape, payloads: seq<seq<byte>>, k: nat)
    requires First(shape) <= k < Last(shape, payloads)
    ensures |BlocksOf(shape, payloads)| == Last(shape, payloads) - First(shape)
    ensures var raw := BlocksOf(shape, payloads)[k - First(shape)];
      if k == 0 then raw == shape.headerBlock.value
      else if k <= |payloads| then raw == Frame(payloads[k - 1])
      else shape.trailerBlock.Some? && raw == shape.trailerBlock.value
  {
  }

  lemma {:induction false} FrameDue<T>(script: Script<T>, payload: seq<byte>)
    requires |payload| < UINT32_LIMIT
    ensures var raw := Frame(payload);
      IsBlock(raw) && !CompressedBlock(raw) && !MetadataBlock(raw) && raw[LPM_HEADER_LENGTH..] == payload
  {
    FramePrefix(payload);
    assert Frame(payload)[0] == 0;
  }

  /** Which of the events before the k-th are headers and trailers. */
  lemma {:induction false} KindsBefore<T>(header: Md, messages: seq<T>, trailer: Md, k: nat)
    requires k < |messages| + 2
    ensures var before := EventsOf(header, messages, trailer)[..k];
      (HasHeader(before) <==> k > 0) && !HasTrailer(before)
  {
    var all := EventsOf(header, messages, trailer);
    if k > 0 {
      assert all[..k][0] == Header(header);
    }
  }

  lemma {:induction false} EventDue<T>(env: CallEnv, script: Script<T>, shape: Shape, header: Md,
                                        payloads: seq<seq<byte>>, trailer: Md, k: nat)
    requires Says(env, script, shape, header, payloads, trailer)
    requires First(shape) <= k < Last(shape, payloads)
    ensures var all := EventsOf(header, DecodeAll(script.decode, payloads), trailer);
            var blocks := BlocksOf(shape, payloads);
      && |blocks| == Last(shape, payloads) - First(shape)
      && IsBlock(blocks[k - First(shape)]) && Due(EnvOf(env, script), all[..k], blocks[k - First(shape)], all[k])
  {
    var messages := DecodeAll(script.decode, payloads);
    KindsBefore(header, messages, trailer, k);
    BlockOf(shape, payloads, k);
    if 0 < k <= |payloads| {
      FrameDue(script, payloads[k - 1]);
    }
  }

  lemma {:induction false} EventCalm<T>(env: CallEnv, script: Script<T>, shape: Shape, header: Md,
                                         payloads: seq<seq<byte>>, trailer: Md, k: nat)
    requires Says(env, script, shape, header, payloads, trailer) && k < |payloads| + 2
    ensures var all := EventsOf(header, DecodeAll(script.decode, payloads), trailer);
            EnvOf(env, script).react(all[..k + 1]).None?
  {
    var messages := DecodeAll(script.decode, payloads);
    var all := EventsOf(header, messages, trailer);
    assert EnvOf(env, script).react(all[..k + 1]) == React(env, all[..k + 1]);
    if k <= |messages| {
      AfterMessages(env, header, messages, trailer, k);
    } else {
      assert all[..k + 1] == all;
      AfterAnswer(env, header, messages, trailer);
    }
  }

  /** Event `k` travels in the data, is due there, and does not throw. */
  ghost predicate StepDue<M, T, E>(denv: Env<M, T, E>, all: seq<Event<M, T>>, blocks: seq<seq<byte>>, a: nat, k: nat)
    requires a <= k < |all| && k - a < |blocks|
  {
    && IsBlock(blocks[k - a]) && Due(denv, all[..k], blocks[k - a], all[k])
    && denv.react(all[..k + 1]).None?
  }

  lemma {:induction false} AnswerDue<T>(env: CallEnv, script: Script<T>, shape: Shape, header: Md,
                                         payloads: seq<seq<byte>>, trailer: Md)
    requires Says(env, script, shape, header, payloads, trailer)
    ensures var all := EventsOf(header, DecodeAll(script.decode, payloads), trailer);
            var a, b := First(shape), Last(shape, payloads);
            AllDue(EnvOf(env, script), all[..a], BlocksOf(shape, payloads), all[a..b])
  {
    var all := EventsOf(header, DecodeAll(script.decode, payloads), trailer);
    var a, b, blocks := First(shape), Last(shape, payloads), BlocksOf(shape, payloads);
    assert |blocks| == b - a;
    forall k | a <= k < b
      ensures StepDue(EnvOf(env, script), all, blocks, a, k)
    {
      EventDue(env, script, shape, header, payloads, trailer, k);
      EventCalm(env, script, shape, header, payloads, trailer, k);
    }
    StepsDue(EnvOf(env, script), all, blocks, a, b);
  }

  lemma {:induction false} StepsDue<M, T, E>(denv: Env<M, T, E>, all: seq<Event<M, T>>, blocks: seq<seq<byte>>,
                                              a: nat, b: nat)
    requires a <= b <= |all| && |blocks| == b - a
    requires forall k :: a <= k < b ==> StepDue(denv, all, blocks, a, k)
    ensures AllDue(denv, all[..a], blocks, all[a..b])
  {
    forall i | 0 <= i < b - a
      ensures DueAt(denv, all[..a], blocks, all[a..b], i)
    {
      assert StepDue(denv, all, blocks, a, a + i);
      DueWithin(denv, all, blocks, a, b, i);
    }
  }

  lemma {:induction false} DueWithin<M, T, E>(denv: Env<M, T, E>, all: seq<Event<M, T>>, blocks: seq<seq<byte>>,
                                               a: nat, b: nat, i: nat)
    requires a <= b <= |all| && |blocks| == b - a > i && IsBlock(blocks[i])
    requires Due(denv, all[..a + i], blocks[i], all[a + i]) && denv.react(all[..a + i + 1]).None?
    ensures DueAt(denv, all[..a], blocks, all[a..b], i)
  {
    SliceSlice(all, a, b, i);
    SliceSlice(all, a, b, i + 1);
  }

  lemma {:induction false} SliceSlice<A>(s: seq<A>, a: nat, b: nat, i: nat)
    requires a + i <= b <= |s|
    ensures s[..a] + s[a..b][..i] == s[..a + i] && (i < b - a ==> s[a..b][i] == s[a + i])
  {
  }

  /** The decoder before the data frames. */
  ghost function StartOf<T>(env: CallEnv, script: Script<T>, shape: Shape, header: Md): State<Md, T, Error> {
    if shape.headerBlock.Some? then InitState()
    else InitState().HandleFrame(EnvOf(env, script), HeaderFrame(header))
  }

  lemma {:induction false} StartReady<T>(env: CallEnv, script: Script<T>, shape: Shape, header: Md, messages: seq<T>,
                                          trailer: Md)
    requires "grpc-status" !in header && env.onHeader(header).None?
    ensures var st := StartOf(env, script, shape, header);
      && Consistent(EnvOf(env, script), st.session) && st.session.error.None? && st.pending == []
      && !HasTrailer(st.session.events) && st.session.events == EventsOf(header, messages, trailer)[..First(shape)]
  {
    var denv, all := EnvOf(env, script), EventsOf(header, messages, trailer);
    AfterMessages(env, header, messages, trailer, 0);
    assert [] + [all[0]] == all[..1];
    assert denv.react(all[..1]) == React(env, all[..1]);
    FrameKeepsOrder(denv, InitState(), HeaderFrame(header));
  }

  lemma {:induction false} DataDelivered<T>(env: CallEnv, script: Script<T>, shape: Shape, header: Md,
                                             payloads: seq<seq<byte>>, trailer: Md, chunks: seq<seq<byte>>)
    requires Answers(env, script, shape, header, payloads, trailer, chunks)
    ensures var st := StartOf(env, script, shape, header).HandleFrames(EnvOf(env, script), DataFrames(chunks));
      && Consistent(EnvOf(env, script), st.session) && st.session.error.None?
      && st.session.events == EventsOf(header, DecodeAll(script.decode, payloads), trailer)[..Last(shape, payloads)]
  {
    var messages := DecodeAll(script.decode, payloads);
    var all := EventsOf(header, messages, trailer);
    StartReady(env, script, shape, header, messages, trailer);
    AnswerDue(env, script, shape, header, payloads, trailer);
    LastTrailerDue(shape, header, messages, payloads, trailer, chunks);
    PartDelivered(EnvOf(env, script), StartOf(env, script, shape, header), all, First(shape), Last(shape, payloads),
                  BlocksOf(shape, payloads), chunks);
  }

  lemma {:induction false} PartDelivered<M, T, E>(denv: Env<M, T, E>, st: State<M, T, E>, all: seq<Event<M, T>>,
                                                   a: nat, b: nat, blocks: seq<seq<byte>>, chunks: seq<seq<byte>>)
    requires a <= b <= |all| && st.session.events == all[..a]
    requires Consistent(denv, st.session) && st.session.error.None? && st.pending == []
    requires !HasTrailer(st.session.events)
    requires AllDue(denv, all[..a], blocks, all[a..b]) && TrailerLast(all[a..b], chunks)
    requires Flatten(chunks) == Flatten(blocks)
    ensures var r := st.HandleFrames(denv, DataFrames(chunks));
      Consistent(denv, r.session) && r.session.error.None? && r.session.events == all[..b]
  {
    BytesDelivered(denv, st, blocks, all[a..b], chunks);
    assert all[..a] + all[a..b] == all[..b];
  }

  lemma {:induction false} LastTrailerDue<T>(shape: Shape, header: Md, messages: seq<T>, payloads: seq<seq<byte>>,
                                              trailer: Md, chunks: seq<seq<byte>>)
    requires |messages| == |payloads| && (shape.trailerBlock.Some? ==> chunks != [] && chunks[|chunks| - 1] != [])
    ensures TrailerLast(EventsOf(header, messages, trailer)[First(shape)..Last(shape, payloads)], chunks)
  {
  }

  /** However an answer travels and is cut: the header, the messages, and the trailer are delivered, in this order. */
  lemma {:induction false} AnswerDelivered<T>(env: CallEnv, script: Script<T>, shape: Shape, header: Md,
                                               payloads: seq<seq<byte>>, trailer: Md, chunks: seq<seq<byte>>)
    requires Answers(env, script, shape, header, payloads, trailer, chunks)
    ensures Decoded(env, script).events == EventsOf(header, DecodeAll(script.decode, payloads), trailer)
    ensures Decoded(env, script).error.None?
  {
    var denv, all := EnvOf(env, script), EventsOf(header, DecodeAll(script.decode, payloads), trailer);
    DataDelivered(env, script, shape, header, payloads, trailer, chunks);
    var st := StartOf(env, script, shape, header).HandleFrames(denv, DataFrames(chunks));
    FramesHandled(denv, shape, header, trailer, chunks, StartOf(env, script, shape, header), st);
    if shape.trailerBlock.Some? {
      assert all[..|all|] == all;
    } else {
      var b := |payloads| + 1;
      KindsBefore(header, DecodeAll(script.decode, payloads), trailer, b);
      EventCalm(env, script, shape, header, payloads, trailer, b);
      LastFrame(denv, st, all, b, trailer);
    }
  }

  /** A trailer that comes as the last frame. */
  lemma {:induction false} LastFrame<M, T, E>(denv: Env<M, T, E>, st: State<M, T, E>, all: seq<Event<M, T>>, b: nat,
                                               trailer: M)
    requires b + 1 == |all| && all[b] == Trailer(trailer) && denv.react(all[..b + 1]).None?
    requires Consistent(denv, st.session) && st.session.error.None? && st.session.events == all[..b]
    requires !HasTrailer(all[..b])
    ensures var r := st.HandleFrame(denv, TrailerFrame(trailer)).session;
      r.error.None? && r.events == all
  {
    FlagsTold(denv, st.session);
    assert all[..b] + [all[b]] == all == all[..b + 1];
  }

  /** The frames of an answer, one group after the other. */
  lemma {:induction false} FramesHandled<T>(denv: Env<Md, T, Error>, shape: Shape, header: Md, trailer: Md,
                                             chunks: seq<seq<byte>>, start: State<Md, T, Error>,
                                             st: State<Md, T, Error>)
    requires start == if shape.headerBlock.Some? then InitState()
                      else InitState().HandleFrame(denv, HeaderFrame(header))
    requires st == start.HandleFrames(denv, DataFrames(chunks))
    ensures InitState().HandleFrames(denv, FramesOf(shape, header, trailer, chunks))
            == if shape.trailerBlock.Some? then st else st.HandleFrame(denv, TrailerFrame(trailer))
  {
    var front: seq<TransportFrame<Md>> := if shape.headerBlock.Some? then [] else [HeaderFrame(header)];
    var back: seq<TransportFrame<Md>> := if shape.trailerBlock.Some? then [] else [TrailerFrame(trailer)];
    var data := DataFrames<Md>(chunks);
    HandleFramesAppend(denv, InitState(), front + data, back);
    HandleFramesAppend(denv, InitState(), front, data);
    OneFrame(denv, InitState(), front);
    OneFrame(denv, st, back);
  }

  lemma {:induction false} OneFrame<T>(denv: Env<Md, T, Error>, st: State<Md, T, Error>,
                                           frames: seq<TransportFrame<Md>>)
    requires |frames| <= 1
    ensures st.HandleFrames(denv, frames) == if frames == [] then st else st.HandleFrame(denv, frames[0])
  {
    if frames != [] {
      assert frames[1..] == [];
    }
  }

  /**
   * From bytes to outcome: the caller gets every message in order, however header and trailer travel and the bytes are
   * cut, sees the header and then the trailer, and the call succeeds exactly when the trailer says OK; otherwise it
   * throws the server's status and message.
   */
  lemma {:induction false} WholeCall<T>(env: CallEnv, script: Script<T>, shape: Shape, header: Md,
                                         payloads: seq<seq<byte>>, trailer: Md, chunks: seq<seq<byte>>)
    requires Answers(env, script, shape, header, payloads, trailer, chunks)
    ensures var p := ParseTrailer(env, trailer).value;
      && Completed(env, script) == CallResult(
           DecodeAll(script.decode, payloads),
           if p.status == 0 then None else Some(ClientError(p.status, StatusText(p))))
      && After(env, Decoded(env, script).events).userCalls == [OnHeader(header), OnTrailer(p.trailer)]
  {
    AnswerDelivered(env, script, shape, header, payloads, trailer, chunks);
    AfterAnswer(env, header, DecodeAll(script.decode, payloads), trailer);
  }

  /**
   * A unary call with such an answer: more than one message is an error whatever the status says; else a status other
   * than OK is thrown with its text; else it resolves with the one message, or says that there is none.
   */
  lemma {:induction false} WholeUnary<T>(env: CallEnv, script: Script<T>, shape: Shape, header: Md,
                                          payloads: seq<seq<byte>>, trailer: Md, chunks: seq<seq<byte>>)
    requires Answers(env, script, shape, header, payloads, trailer, chunks)
    ensures var p, r := ParseTrailer(env, trailer).value, UnaryResult(Completed(env, script));
      && (|payloads| >= 2 ==>
            r == Err(ClientError(13, "Received more than one message from server for unary method")))
      && (|payloads| <= 1 && p.status != 0 ==> r == Err(ClientError(p.status, StatusText(p))))
      && (|payloads| == 0 && p.status == 0 ==> r == Err(ClientError(13, "Server did not return a response")))
      && (|payloads| == 1 && p.status == 0 ==> r.Ok? && script.decode(payloads[0]) == Ok(r.value))
  {
    WholeCall(env, script, shape, header, payloads, trailer, chunks);
    UnaryExactly(Completed(env, script));
  }

  // ------------------------------------------------------------------------------------------
  // Responses that consist of a header with a status only

  /** The answer: the header as a frame or a block, and possibly a trailer frame. */
  ghost predicate TrailersOnly<T>(env: CallEnv, script: Script<T>, headerBlock: Option<seq<byte>>, header: Md,
                                  trailer: Option<Md>, chunks: seq<seq<byte>>) {
    && script.frames == (if headerBlock.Some? then [] else [HeaderFrame(header)]) + DataFrames(chunks)
                        + (if trailer.Some? then [TrailerFrame(trailer.value)] else [])
    && script.transportFailure.None?
    && ParseTrailer(env, header).Ok? && env.onTrailer(ParseTrailer(env, header).value.trailer).None?
    && (headerBlock.Some? ==> CarriesMetadata(script, headerBlock.value, header))
    && Flatten(chunks) == Flatten(Listed(headerBlock))
  }

  /** The closures after such a header, and after a trailer that follows it. */
  lemma {:induction false} AfterTrailersOnly<T>(env: CallEnv, header: Md, trailer: Md)
    requires ParseTrailer(env, header).Ok? && env.onTrailer(ParseTrailer(env, header).value.trailer).None?
    ensures var p, h := ParseTrailer(env, header).value, Event<Md, T>.Header(header);
      && React(env, [h]).None? && After(env, [h]) == CallState(true, Some(p.status), p.message, [OnTrailer(p.trailer)])
      && After(env, [h, Trailer(trailer)]) == After(env, [h])
      && React(env, [h, Trailer(trailer)])
         == if |trailer| > 0 then Some(ClientError(13, "Received non-empty trailer after trailers-only response"))
            else None
  {
    var h := Event<Md, T>.Header(header);
    ParseTrailerExactly(env, header);
    assert [] + [h] == [h] && [h] + [Trailer(trailer)] == [h, Trailer(trailer)];
    SnocEvents(env, [], h);
    SnocEvents(env, [h], Trailer(trailer));
  }

  /** Such a header is delivered, whether it is a frame of its own or cut into any data frames. */
  lemma {:induction false} OnlyHeaderDelivered<T>(env: CallEnv, script: Script<T>, headerBlock: Option<seq<byte>>,
                                                   header: Md, trailer: Option<Md>, chunks: seq<seq<byte>>)
    requires TrailersOnly(env, script, headerBlock, header, trailer, chunks)
    ensures var front: seq<TransportFrame<Md>> := if headerBlock.Some? then [] else [HeaderFrame(header)];
            var st := InitState().HandleFrames(EnvOf(env, script), front + DataFrames(chunks));
      && Consistent(EnvOf(env, script), st.session) && st.session.error.None? && st.session.events == [Header(header)]
  {
    var denv, all := EnvOf(env, script), [Event<Md, T>.Header(header)];
    var front: seq<TransportFrame<Md>> := if headerBlock.Some? then [] else [HeaderFrame(header)];
    var a := |front|;
    AfterTrailersOnly<T>(env, header, map[]);
    assert all[..1] == all && denv.react(all) == React(env, all);
    HeaderReady(denv, header, front);
    HandleFramesAppend(denv, InitState(), front, DataFrames(chunks));
    OnlyHeaderDue(env, script, headerBlock, header);
    PartDelivered(denv, InitState().HandleFrames(denv, front), all, a, 1, Listed(headerBlock), chunks);
  }

  lemma {:induction false} HeaderReady<T>(denv: Env<Md, T, Error>, header: Md, front: seq<TransportFrame<Md>>)
    requires front == [] || (front == [HeaderFrame(header)] && denv.react([Header(header)]).None?)
    ensures var st := InitState().HandleFrames(denv, front);
      && Consistent(denv, st.session) && st.session.error.None? && st.pending == [] && !HasTrailer(st.session.events)
      && st.session.events == [Event<Md, T>.Header(header)][..|front|]
  {
    var all := [Event<Md, T>.Header(header)];
    RunKeepsOrder(denv, InitState(), front);
    OneFrame(denv, InitState(), front);
    assert [] + all == all == all[..1] && all[..0] == [];
  }

  lemma {:induction false} OnlyHeaderDue<T>(env: CallEnv, script: Script<T>, headerBlock: Option<seq<byte>>, header: Md)
    requires headerBlock.Some? ==> CarriesMetadata(script, headerBlock.value, header)
    requires EnvOf(env, script).react([Header(header)]).None?
    ensures var all, a := [Event<Md, T>.Header(header)], if headerBlock.Some? then 0 else 1;
      AllDue(EnvOf(env, script), all[..a], Listed(headerBlock), all[a..1])
  {
    var all := [Event<Md, T>.Header(header)];
    if headerBlock.Some? {
      assert all[..1] == all;
      DueWithin(EnvOf(env, script), all, Listed(headerBlock), 0, 1, 0);
    }
  }

  /** What is delivered, and the error if a trailer is refused. */
  lemma {:induction false} TrailersOnlyDecoded<T>(env: CallEnv, script: Script<T>, headerBlock: Option<seq<byte>>,
                                                   header: Md, trailer: Option<Md>, chunks: seq<seq<byte>>)
    requires TrailersOnly(env, script, headerBlock, header, trailer, chunks)
    ensures var s, h := Decoded(env, script), Event<Md, T>.Header(header);
      if trailer.None? then s.events == [h] && s.error.None?
      else
        && s.events == [h, Trailer(trailer.value)]
        && s.error == match React(env, [h, Trailer(trailer.value)]) case Some(e) => Some(Thrown(e)) case None => None
  {
    var denv, h := EnvOf(env, script), Event<Md, T>.Header(header);
    var front: seq<TransportFrame<Md>> := if headerBlock.Some? then [] else [HeaderFrame(header)];
    var back: seq<TransportFrame<Md>> := if trailer.Some? then [TrailerFrame(trailer.value)] else [];
    OnlyHeaderDelivered(env, script, headerBlock, header, trailer, chunks);
    var st := InitState().HandleFrames(denv, front + DataFrames(chunks));
    HandleFramesAppend(denv, InitState(), front + DataFrames(chunks), back);
    OneFrame(denv, st, back);
    FlagsTold(denv, st.session);
    if trailer.Some? {
      var t := Event<Md, T>.Trailer(trailer.value);
      assert [h] + [t] == [h, t];
      assert denv.react([h, t]) == React(env, [h, t]);
    }
  }

  /**
   * A header with a status is the whole answer: no message comes, the user sees it as the trailer, and it decides how
   * the call ends, except that a trailer with any content after a status of OK is an error.
   */
  lemma {:induction false} TrailersOnlyCall<T>(env: CallEnv, script: Script<T>, headerBlock: Option<seq<byte>>,
                                                header: Md, trailer: Option<Md>, chunks: seq<seq<byte>>)
    requires TrailersOnly(env, script, headerBlock, header, trailer, chunks)
    ensures var p := ParseTrailer(env, header).value;
      && Completed(env, script).messages == []
      && After(env, Decoded(env, script).events).userCalls == [OnTrailer(p.trailer)]
      && Completed(env, script).thrown
         == (if p.status != 0 then Some(ClientError(p.status, StatusText(p)))
             else if script.requestError.Some? && trailer.Some? && |trailer.value| > 0 then script.requestError
             else if trailer.Some? && |trailer.value| > 0 then
               Some(ClientError(13, "Received non-empty trailer after trailers-only response"))
             else None)
  {
    var p, md := ParseTrailer(env, header).value, if trailer.Some? then trailer.value else map[];
    TrailersOnlyDecoded(env, script, headerBlock, header, trailer, chunks);
    AfterTrailersOnly<T>(env, header, md);
    NoMessages<T>(header, md);
    TrailersOnlyEnding(env, p, Decoded(env, script).error, script.requestError);
  }

  lemma {:induction false} NoMessages<T>(header: Md, trailer: Md)
    ensures Messages([Event<Md, T>.Header(header)]) == []
    ensures Messages([Event<Md, T>.Header(header), Trailer(trailer)]) == []
  {
    var h, t := Event<Md, T>.Header(header), Event<Md, T>.Trailer(trailer);
    assert [h][..0] == [] && [h, t][..1] == [h];
  }

  lemma {:induction false} TrailersOnlyEnding(env: CallEnv, p: ParsedTrailer, error: Option<Failure<Error>>,
                                               requestError: Option<Error>)
    requires error.Some? ==> error.value.Thrown? && error.value.error.ClientError?
    ensures Ending(env, CallState(true, Some(p.status), p.message, [OnTrailer(p.trailer)]), error, requestError)
            == if p.status != 0 then Some(ClientError(p.status, StatusText(p)))
               else if error.Some? && requestError.Some? then requestError
               else if error.Some? then Some(error.value.error)
               else None
  {
  }
}
