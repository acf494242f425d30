/**
 * What the decoder of packages/nice-grpc-web/src/client/decodeResponse.ts does with the next block or frame, told from
 * the events delivered so far and the bytes alone; and whole responses, wherever header and trailer travel.
 */
module DecodeOutcomes {
  import opened Basics
  import opened Framing
  import opened DecodeResponse
  import opened DecodeTheorems
  import opened TrailerOrder

  ghost predicate HasHeader<M, T>(events: seq<Event<M, T>>) { exists i :: 0 <= i < |events| && events[i].Header? }

  predicate CompressedBlock(raw: seq<byte>)
    requires IsBlock(raw)
  {
    raw[0] % 2 == 1
  }

  predicate MetadataBlock(raw: seq<byte>)
    requires IsBlock(raw)
  {
    raw[0] >= 0x80
  }

  /**
   * The event that a block stands for: metadata is the header if none has been received and else the trailer, anything
   * else is a message; and each has its time.
   */
  ghost predicate Due<M, T, E>(env: Env<M, T, E>, events: seq<Event<M, T>>, raw: seq<byte>, event: Event<M, T>)
    requires IsBlock(raw)
  {
    && !CompressedBlock(raw)
    && match event
       case Header(h) =>
         && MetadataBlock(raw) && env.decodeMetadata(raw[LPM_HEADER_LENGTH..]) == Ok(h)
         && !HasHeader(events) && !HasTrailer(events)
       case Trailer(t) =>
         && MetadataBlock(raw) && env.decodeMetadata(raw[LPM_HEADER_LENGTH..]) == Ok(t)
         && HasHeader(events) && !HasTrailer(events)
       case Message(m) =>
         && !MetadataBlock(raw) && env.decode(raw[LPM_HEADER_LENGTH..]) == Ok(m)
         && HasHeader(events)
  }

  /** Why a block is refused, in the order of the checks. */
  ghost predicate Refused<M, T, E>(env: Env<M, T, E>, events: seq<Event<M, T>>, raw: seq<byte>, failure: Failure<E>)
    requires IsBlock(raw)
  {
    match failure
    case Protocol(CompressedMessage) => CompressedBlock(raw)
    case Protocol(DataBeforeHeader) => !CompressedBlock(raw) && !MetadataBlock(raw) && !HasHeader(events)
    case Protocol(MultipleTrailers) =>
      && !CompressedBlock(raw) && MetadataBlock(raw) && env.decodeMetadata(raw[LPM_HEADER_LENGTH..]).Ok?
      && HasHeader(events) && HasTrailer(events)
    case Protocol(HeaderAfterTrailer) =>
      && !CompressedBlock(raw) && MetadataBlock(raw) && env.decodeMetadata(raw[LPM_HEADER_LENGTH..]).Ok?
      && !HasHeader(events) && HasTrailer(events)
    case Protocol(_) => false
    case Thrown(e) =>
      && !CompressedBlock(raw)
      && if MetadataBlock(raw) then env.decodeMetadata(raw[LPM_HEADER_LENGTH..]) == Err(e)
         else HasHeader(events) && env.decode(raw[LPM_HEADER_LENGTH..]) == Err(e)
  }

  lemma {:induction false} FlagBits(raw: seq<byte>)
    requires IsBlock(raw)
    ensures Prefix(raw).compressed <==> CompressedBlock(raw)
    ensures Prefix(raw).isMetadata <==> MetadataBlock(raw)
  {
  }

  lemma {:induction false} FlagsTold<M, T, E>(env: Env<M, T, E>, s: Session<M, T, E>)
    requires Consistent(env, s)
    ensures s.receivedHeader <==> HasHeader(s.events)
    ensures s.receivedTrailer <==> HasTrailer(s.events)
    ensures s.receivedData ==> s.receivedHeader
  {
  }

  /**
   * The next block: it delivers exactly the event that is due, which may throw; if none is due, nothing is delivered,
   * and the error says why. One or the other is always the case.
   */
  lemma {:induction false} BlockOutcome<M, T, E>(env: Env<M, T, E>, s: Session<M, T, E>, raw: seq<byte>)
    requires Consistent(env, s) && s.error.None? && IsBlock(raw)
    ensures forall event :: Due(env, s.events, raw, event) ==>
              && s.HandleBlock(env, raw).events == s.events + [event]
              && s.HandleBlock(env, raw).error
                 == match env.react(s.events + [event]) case Some(e) => Some(Thrown(e)) case None => None
    ensures (forall event :: !Due(env, s.events, raw, event)) ==>
              s.HandleBlock(env, raw).events == s.events && s.HandleBlock(env, raw).error.Some?
    ensures forall failure :: Refused(env, s.events, raw, failure) ==>
              && s.HandleBlock(env, raw).events == s.events
              && s.HandleBlock(env, raw).error == Some(failure)
    ensures (exists event :: Due(env, s.events, raw, event))
            <==> !exists failure :: Refused(env, s.events, raw, failure)
  {
    FlagBits(raw);
    FlagsTold(env, s);
    var payload := raw[LPM_HEADER_LENGTH..];
    assert payload == Payload(raw);
    if CompressedBlock(raw) {
      assert Refused(env, s.events, raw, Protocol(CompressedMessage));
    } else if MetadataBlock(raw) {
      match env.decodeMetadata(payload) {
        case Err(e) => assert Refused(env, s.events, raw, Thrown(e));
        case Ok(md) =>
          if s.receivedTrailer {
            var violation := if s.receivedHeader then MultipleTrailers else HeaderAfterTrailer;
            assert Refused(env, s.events, raw, Protocol(violation));
          } else if s.receivedHeader {
            assert Due(env, s.events, raw, Trailer(md));
          } else {
            assert Due(env, s.events, raw, Header(md));
          }
      }
    } else if !s.receivedHeader {
      assert Refused(env, s.events, raw, Protocol(DataBeforeHeader));
    } else {
      match env.decode(payload) {
        case Err(e) => assert Refused(env, s.events, raw, Thrown(e));
        case Ok(m) => assert Due(env, s.events, raw, Message(m));
      }
    }
  }

  // ------------------------------------------------------------------------------------------
  // The error a run ends with

  /** Block `j` of a list makes the decoder fail: it is refused, or its delivery throws. */
  ghost predicate BlockFails<M, T, E>(env: Env<M, T, E>, s: Session<M, T, E>, blocks: seq<seq<byte>>, j: nat,
                                      failure: Failure<E>)
    requires forall i :: 0 <= i < |blocks| ==> IsBlock(blocks[i])
    requires j < |blocks|
  {
    var before := s.HandleBlocks(env, blocks[..j]);
    before.error.None? && FailsAt(env, before.events, blocks[j], failure)
  }

  ghost predicate FailsAt<M, T, E>(env: Env<M, T, E>, events: seq<Event<M, T>>, raw: seq<byte>, failure: Failure<E>)
    requires IsBlock(raw)
  {
    || Refused(env, events, raw, failure)
    || (var md, m := env.decodeMetadata(raw[LPM_HEADER_LENGTH..]), env.decode(raw[LPM_HEADER_LENGTH..]);
        || (md.Ok? && Due(env, events, raw, Header(md.value)) && ThrownBy(env, events + [Header(md.value)], failure))
        || (md.Ok? && Due(env, events, raw, Trailer(md.value)) && ThrownBy(env, events + [Trailer(md.value)], failure))
        || (m.Ok? && Due(env, events, raw, Message(m.value)) && ThrownBy(env, events + [Message(m.value)], failure)))
  }

  /** Delivering the last of these events throws. */
  ghost predicate ThrownBy<M, T, E>(env: Env<M, T, E>, events: seq<Event<M, T>>, failure: Failure<E>) {
    failure.Thrown? && env.react(events) == Some(failure.error)
  }

  lemma {:induction false} FailsAtExactly<M, T, E>(env: Env<M, T, E>, s: Session<M, T, E>, raw: seq<byte>,
                                                    failure: Failure<E>)
    requires Consistent(env, s) && s.error.None? && IsBlock(raw)
    ensures s.HandleBlock(env, raw).error == Some(failure) <==> FailsAt(env, s.events, raw, failure)
  {
    BlockOutcome(env, s, raw);
    if event :| Due(env, s.events, raw, event) {
    } else {
      var other :| Refused(env, s.events, raw, other);
    }
  }

  ghost predicate SomeBlockFails<M, T, E>(env: Env<M, T, E>, s: Session<M, T, E>, blocks: seq<seq<byte>>, n: nat,
                                          failure: Failure<E>)
    requires forall i :: 0 <= i < |blocks| ==> IsBlock(blocks[i])
    requires n <= |blocks|
  {
    exists j :: 0 <= j < n && BlockFails(env, s, blocks, j, failure)
  }

  lemma {:induction false} SomeBlockFailsStep<M, T, E>(env: Env<M, T, E>, s: Session<M, T, E>, blocks: seq<seq<byte>>,
                                                        n: nat, failure: Failure<E>)
    requires n < |blocks| && forall i :: 0 <= i < |blocks| ==> IsBlock(blocks[i])
    ensures SomeBlockFails(env, s, blocks, n + 1, failure)
            <==> SomeBlockFails(env, s, blocks, n, failure) || BlockFails(env, s, blocks, n, failure)
  {
  }

  lemma {:induction false} NextBlockFails<M, T, E>(env: Env<M, T, E>, s: Session<M, T, E>, blocks: seq<seq<byte>>,
                                                    n: nat, failure: Failure<E>)
    requires Consistent(env, s) && n < |blocks| && forall i :: 0 <= i < |blocks| ==> IsBlock(blocks[i])
    ensures s.HandleBlocks(env, blocks[..n + 1]).error == Some(failure)
            <==> s.HandleBlocks(env, blocks[..n]).error == Some(failure) || BlockFails(env, s, blocks, n, failure)
  {
    BlocksKeepOrder(env, s, blocks[..n]);
    NextBlock(env, s, blocks, n);
    var before := s.HandleBlocks(env, blocks[..n]);
    if before.error.None? {
      FailsAtExactly(env, before, blocks[n], failure);
    }
  }

  lemma {:induction false} BlocksFailExactly<M, T, E>(env: Env<M, T, E>, s: Session<M, T, E>, blocks: seq<seq<byte>>,
                                                       n: nat, failure: Failure<E>)
    requires Consistent(env, s) && s.error.None? && n <= |blocks|
    requires forall i :: 0 <= i < |blocks| ==> IsBlock(blocks[i])
    ensures s.HandleBlocks(env, blocks[..n]).error == Some(failure) <==> SomeBlockFails(env, s, blocks, n, failure)
  {
    if n == 0 {
      assert blocks[..0] == [];
    } else {
      BlocksFailExactly(env, s, blocks, n - 1, failure);
      NextBlockFails(env, s, blocks, n - 1, failure);
      SomeBlockFailsStep(env, s, blocks, n - 1, failure);
    }
  }

  /** A transport frame makes the decoder fail. */
  ghost predicate FrameFails<M, T, E>(env: Env<M, T, E>, st: State<M, T, E>, frame: TransportFrame<M>,
                                      failure: Failure<E>) {
    var events := st.session.events;
    st.session.error.None? && match frame
      case HeaderFrame(h) =>
        if HasHeader(events) then failure == Protocol(MultipleHeaders)
        else if HasTrailer(events) then failure == Protocol(HeaderAfterTrailer)
        else ThrownBy(env, events + [Header(h)], failure)
      case TrailerFrame(t) =>
        if HasTrailer(events) then failure == Protocol(MultipleTrailers)
        else ThrownBy(env, events + [Trailer(t)], failure)
      case DataFrame(data) =>
        if HasTrailer(events) then failure == Protocol(DataAfterTrailer)
        else
          var blocks := Split(st.pending + data).blocks;
          SomeBlockFails(env, st.session, blocks, |blocks|, failure)
  }

  lemma {:induction false} FrameFailsExactly<M, T, E>(env: Env<M, T, E>, st: State<M, T, E>, frame: TransportFrame<M>,
                                                       failure: Failure<E>)
    requires Consistent(env, st.session)
    ensures st.HandleFrame(env, frame).session.error == Some(failure)
            <==> st.session.error == Some(failure) || FrameFails(env, st, frame, failure)
  {
    FlagsTold(env, st.session);
    if frame.DataFrame? && st.session.error.None? && !st.session.receivedTrailer {
      var blocks := Split(st.pending + frame.data).blocks;
      assert blocks[..|blocks|] == blocks;
      BlocksFailExactly(env, st.session, blocks, |blocks|, failure);
    }
  }

  ghost predicate FrameFailsAt<M, T, E>(env: Env<M, T, E>, frames: seq<TransportFrame<M>>, k: nat, failure: Failure<E>)
    requires k < |frames|
  {
    FrameFails(env, Before(env, frames, k), frames[k], failure)
  }

  ghost predicate SomeFrameFails<M, T, E>(env: Env<M, T, E>, frames: seq<TransportFrame<M>>, n: nat,
                                          failure: Failure<E>)
    requires n <= |frames|
  {
    exists k :: 0 <= k < n && FrameFailsAt(env, frames, k, failure)
  }

  lemma {:induction false} SomeFrameFailsStep<M, T, E>(env: Env<M, T, E>, frames: seq<TransportFrame<M>>, n: nat,
                                                        failure: Failure<E>)
    requires n < |frames|
    ensures SomeFrameFails(env, frames, n + 1, failure)
            <==> SomeFrameFails(env, frames, n, failure) || FrameFailsAt(env, frames, n, failure)
  {
  }

  /** The run has failed within its first `n` frames. */
  ghost predicate FailedBy<M, T, E>(env: Env<M, T, E>, frames: seq<TransportFrame<M>>, n: nat, failure: Failure<E>)
    requires n <= |frames|
  {
    Before(env, frames, n).session.error == Some(failure)
  }

  lemma {:induction false} NextFrameFails<M, T, E>(env: Env<M, T, E>, frames: seq<TransportFrame<M>>, n: nat,
                                                    failure: Failure<E>)
    requires n < |frames|
    ensures FailedBy(env, frames, n + 1, failure)
            <==> FailedBy(env, frames, n, failure) || FrameFailsAt(env, frames, n, failure)
  {
    RunKeepsOrder(env, InitState(), frames[..n]);
    NextFrame(env, frames, n);
    FrameFailsExactly(env, Before(env, frames, n), frames[n], failure);
  }

  lemma {:induction false} NoErrorBefore<M, T, E>(env: Env<M, T, E>, frames: seq<TransportFrame<M>>,
                                                 failure: Failure<E>)
    ensures !FailedBy(env, frames, 0, failure)
  {
    assert frames[..0] == [];
  }

  /** In every run the decoder fails, and with which error, exactly when some frame or block makes it. */
  lemma {:induction false} RunFailsExactly<M, T, E>(env: Env<M, T, E>, frames: seq<TransportFrame<M>>, n: nat,
                                                     failure: Failure<E>)
    requires n <= |frames|
    ensures FailedBy(env, frames, n, failure) <==> SomeFrameFails(env, frames, n, failure)
  {
    if n == 0 {
      NoErrorBefore(env, frames, failure);
    } else {
      RunFailsExactly(env, frames, n - 1, failure);
      NextFrameFails(env, frames, n - 1, failure);
      SomeFrameFailsStep(env, frames, n - 1, failure);
    }
  }

  // ------------------------------------------------------------------------------------------
  // Whole responses

  /** Block `i` stands for event `i`, after the events before it, and delivering that does not throw. */
  ghost predicate DueAt<M, T, E>(env: Env<M, T, E>, events: seq<Event<M, T>>, blocks: seq<seq<byte>>,
                                 due: seq<Event<M, T>>, i: nat)
    requires i < |blocks| && i < |due|
  {
    && IsBlock(blocks[i]) && Due(env, events + due[..i], blocks[i], due[i])
    && env.react(events + due[..i + 1]).None?
  }

  ghost predicate AllDue<M, T, E>(env: Env<M, T, E>, events: seq<Event<M, T>>, blocks: seq<seq<byte>>,
                                  due: seq<Event<M, T>>) {
    && |blocks| == |due|
    && forall i :: 0 <= i < |blocks| ==> DueAt(env, events, blocks, due, i)
  }

  lemma {:induction false} AllBlocks<M, T, E>(env: Env<M, T, E>, events: seq<Event<M, T>>, blocks: seq<seq<byte>>,
                                               due: seq<Event<M, T>>)
    requires AllDue(env, events, blocks, due)
    ensures forall i :: 0 <= i < |blocks| ==> IsBlock(blocks[i])
  {
    forall i | 0 <= i < |blocks|
      ensures IsBlock(blocks[i])
    {
      assert DueAt(env, events, blocks, due, i);
    }
  }

  /** The session after the first `n` of the events due. */
  ghost predicate Reached<M, T, E>(env: Env<M, T, E>, events: seq<Event<M, T>>, due: seq<Event<M, T>>, n: nat,
                                   s: Session<M, T, E>) {
    n <= |due| && Consistent(env, s) && s.error.None? && s.events == events + due[..n]
  }

  /** Blocks are delivered as the events they stand for. */
  lemma {:induction false} BlocksDelivered<M, T, E>(env: Env<M, T, E>, s: Session<M, T, E>, blocks: seq<seq<byte>>,
                                                     due: seq<Event<M, T>>, n: nat)
    requires Consistent(env, s) && s.error.None? && AllDue(env, s.events, blocks, due) && n <= |blocks|
    requires forall i :: 0 <= i < |blocks| ==> IsBlock(blocks[i])
    ensures Reached(env, s.events, due, n, s.HandleBlocks(env, blocks[..n]))
  {
    if n == 0 {
      assert blocks[..0] == [] && s.events + due[..0] == s.events;
    } else {
      BlocksDelivered(env, s, blocks, due, n - 1);
      NextBlock(env, s, blocks, n - 1);
      assert DueAt(env, s.events, blocks, due, n - 1);
      NextReached(env, s.HandleBlocks(env, blocks[..n - 1]), s.events, due, blocks[n - 1], n - 1);
    }
  }

  lemma {:induction false} NextReached<M, T, E>(env: Env<M, T, E>, s: Session<M, T, E>, events: seq<Event<M, T>>,
                                                 due: seq<Event<M, T>>, raw: seq<byte>, n: nat)
    requires Reached(env, events, due, n, s) && n < |due|
    requires IsBlock(raw) && Due(env, events + due[..n], raw, due[n]) && env.react(events + due[..n + 1]).None?
    ensures Reached(env, events, due, n + 1, s.HandleBlock(env, raw))
    ensures s.error.None?
  {
    BlockKeepsOrder(env, s, raw);
    BlockOutcome(env, s, raw);
    assert due[..n + 1] == due[..n] + [due[n]];
    assert (events + due[..n]) + [due[n]] == events + due[..n + 1];
  }

  /** A trailer comes last, if at all, and then the last data frame is not empty. */
  ghost predicate TrailerLast<M, T>(due: seq<Event<M, T>>, chunks: seq<seq<byte>>) {
    && (forall i :: 0 <= i < |due| - 1 ==> !due[i].Trailer?)
    && (due != [] && due[|due| - 1].Trailer? ==> chunks != [] && chunks[|chunks| - 1] != [])
  }

  /**
   * However the bytes of whole blocks are cut into data frames, they are delivered as the events that the blocks stand
   * for, and nothing is left pending.
   */
  lemma {:induction false} BytesDelivered<M, T, E>(env: Env<M, T, E>, st: State<M, T, E>, blocks: seq<seq<byte>>,
                                                    due: seq<Event<M, T>>, chunks: seq<seq<byte>>)
    requires Consistent(env, st.session) && st.session.error.None? && !HasTrailer(st.session.events) && st.pending == []
    requires AllDue(env, st.session.events, blocks, due) && TrailerLast(due, chunks)
    requires Flatten(chunks) == Flatten(blocks)
    ensures var r := st.HandleFrames(env, DataFrames(chunks));
      && r.session.error.None? && r.session.events == st.session.events + due && r.pending == []
      && Consistent(env, r.session)
  {
    FlagsTold(env, st.session);
    AllBlocks(env, st.session.events, blocks, due);
    RunKeepsOrder(env, st, DataFrames(chunks));
    BlocksDelivered(env, st.session, blocks, due, |blocks|);
    assert blocks[..|blocks|] == blocks && due[..|due|] == due;
    if chunks == [] {
      NoBlocks(blocks);
    } else {
      OpenUntilLast(env, st, blocks, due, chunks);
      ChunkingInvariance(env, st, chunks);
      FeedBlocks(env, st, blocks, Flatten(chunks));
    }
  }

  lemma {:induction false} NoBlocks(blocks: seq<seq<byte>>)
    requires Flatten(blocks) == [] && forall i :: 0 <= i < |blocks| ==> IsBlock(blocks[i])
    ensures blocks == []
  {
  }

  lemma {:induction false} OpenUntilLast<M, T, E>(env: Env<M, T, E>, st: State<M, T, E>, blocks: seq<seq<byte>>,
                                                   due: seq<Event<M, T>>, chunks: seq<seq<byte>>)
    requires Consistent(env, st.session) && st.session.error.None? && !HasTrailer(st.session.events) && st.pending == []
    requires AllDue(env, st.session.events, blocks, due) && TrailerLast(due, chunks)
    requires Flatten(chunks) == Flatten(blocks) && chunks != []
    ensures NothingAfterTrailer(env, st, chunks)
  {
    forall k | 0 < k < |chunks|
      ensures !Closed(st.Feed(env, Flatten(chunks[..k])))
    {
      CutAt(chunks, k);
      OpenAt(env, st, blocks, due, Flatten(chunks[..k]), Flatten(chunks[k..]), chunks[|chunks| - 1] != []);
    }
  }

  lemma {:induction false} OpenAt<M, T, E>(env: Env<M, T, E>, st: State<M, T, E>, blocks: seq<seq<byte>>,
                                            due: seq<Event<M, T>>, front: seq<byte>, back: seq<byte>, more: bool)
    requires Consistent(env, st.session) && st.session.error.None? && !HasTrailer(st.session.events) && st.pending == []
    requires AllDue(env, st.session.events, blocks, due) && front + back == Flatten(blocks) && (more ==> back != [])
    requires forall i :: 0 <= i < |due| - 1 ==> !due[i].Trailer?
    requires due != [] && due[|due| - 1].Trailer? ==> more
    ensures !st.Feed(env, front).session.receivedTrailer
  {
    AllBlocks(env, st.session.events, blocks, due);
    FlagsTold(env, st.session);
    var n := FrontBlocks(front, back, blocks);
    PrefixDelivered(env, st.session, blocks, due, n);
    FeedFront(env, st, front, blocks[..n]);
  }

  lemma {:induction false} FeedFront<M, T, E>(env: Env<M, T, E>, st: State<M, T, E>, front: seq<byte>,
                                             done: seq<seq<byte>>)
    requires st.session.error.None? && !st.session.receivedTrailer && st.pending == [] && Split(front).blocks == done
    ensures st.Feed(env, front).session == st.session.HandleBlocks(env, done)
  {
    assert [] + front == front;
  }

  /** A front part of the bytes holds some of the blocks; not all of them if more is to come. */
  lemma {:induction false} FrontBlocks(front: seq<byte>, back: seq<byte>, blocks: seq<seq<byte>>) returns (n: nat)
    requires front + back == Flatten(blocks) && forall i :: 0 <= i < |blocks| ==> IsBlock(blocks[i])
    ensures n <= |blocks| && Split(front).blocks == blocks[..n] && (back != [] ==> n < |blocks|)
  {
    PrefixOfEncoded(front, back, blocks);
    n := |Split(front).blocks|;
    if back != [] {
      NotAllOf(front, back, blocks);
    }
  }

  /** No trailer is among the first events. */
  lemma {:induction false} PrefixDelivered<M, T, E>(env: Env<M, T, E>, s: Session<M, T, E>, blocks: seq<seq<byte>>,
                                                     due: seq<Event<M, T>>, n: nat)
    requires Consistent(env, s) && s.error.None? && !HasTrailer(s.events) && AllDue(env, s.events, blocks, due)
    requires n <= |blocks| && forall i :: 0 <= i < |blocks| ==> IsBlock(blocks[i])
    requires forall i :: 0 <= i < n ==> !due[i].Trailer?
    ensures !s.HandleBlocks(env, blocks[..n]).receivedTrailer
  {
    BlocksDelivered(env, s, blocks, due, n);
    FlagsTold(env, s.HandleBlocks(env, blocks[..n]));
    NoTrailerIn(s.events, due[..n]);
  }

  lemma {:induction false} NoTrailerIn<M, T>(a: seq<Event<M, T>>, b: seq<Event<M, T>>)
    requires !HasTrailer(a) && forall i :: 0 <= i < |b| ==> !b[i].Trailer?
    ensures !HasTrailer(a + b)
  {
  }

  lemma {:induction false} NotAllOf(front: seq<byte>, back: seq<byte>, blocks: seq<seq<byte>>)
    requires front + back == Flatten(blocks) && back != []
    ensures Split(front).blocks != blocks
  {
    var p := Split(front);
    assert |front| == |Flatten(p.blocks)| + |p.rest|;
  }
}
