/** The incremental response decoder: packages/nice-grpc-web/src/client/decodeResponse.ts. */
module DecodeResponse {
  import opened Basics
  import opened Framing

  // ------------------------------------------------------------------------------------------
  // What flows in and out

  /** A frame delivered by the transport. */
  datatype TransportFrame<M> = HeaderFrame(header: M) | TrailerFrame(trailer: M) | DataFrame(data: seq<byte>)

  /** What the decoder delivers: a call of `onHeader` or `onTrailer`, or a yielded message. */
  datatype Event<M, T> = Header(header: M) | Message(message: T) | Trailer(trailer: M)

  datatype Violation =
    | MultipleHeaders | HeaderAfterData | HeaderAfterTrailer | MultipleTrailers
    | DataAfterTrailer | DataBeforeHeader | CompressedMessage

  /** The decoder's own errors, and errors passed on from the code it calls. */
  datatype Failure<E> = Protocol(violation: Violation) | Thrown(error: E)

  /**
   * The code the decoder calls. `react` is the outcome of delivering an event: the callback or the
   * consumer may throw, and may take everything delivered so far into account.
   */
  datatype Env<!M, !T, !E> = Env(
    decodeMetadata: seq<byte> -> Result<M, E>,
    decode: seq<byte> -> Result<T, E>,
    react: seq<Event<M, T>> -> Option<E>)

  // ------------------------------------------------------------------------------------------
  // The frame-order protocol over whole blocks

  datatype Session<M, T, E> = Session(
    receivedHeader: bool,
    receivedTrailer: bool,
    receivedData: bool,
    events: seq<Event<M, T>>,
    error: Option<Failure<E>>)
  {
    function Fail(e: Failure<E>): Session<M, T, E> { this.(error := Some(e)) }

    function Deliver(env: Env<M, T, E>, event: Event<M, T>): Session<M, T, E> {
      var delivered := this.(events := events + [event]);
      match env.react(events + [event])
      case None => delivered
      case Some(e) => delivered.Fail(Thrown(e))
    }

    function HandleHeader(env: Env<M, T, E>, header: M): Session<M, T, E> {
      if receivedHeader then Fail(Protocol(MultipleHeaders))
      else if receivedData then Fail(Protocol(HeaderAfterData))
      else if receivedTrailer then Fail(Protocol(HeaderAfterTrailer))
      else this.(receivedHeader := true).Deliver(env, Header(header))
    }

    function HandleTrailer(env: Env<M, T, E>, trailer: M): Session<M, T, E> {
      if receivedTrailer then Fail(Protocol(MultipleTrailers))
      else this.(receivedTrailer := true).Deliver(env, Trailer(trailer))
    }

    function HandleMessage(env: Env<M, T, E>, message: T): Session<M, T, E> {
      var s := Deliver(env, Message(message));
      if s.error.Some? then s else s.(receivedData := true)
    }

    function HandleBlock(env: Env<M, T, E>, raw: seq<byte>): Session<M, T, E>
      requires IsBlock(raw)
    {
      if Prefix(raw).compressed then Fail(Protocol(CompressedMessage))
      else if Prefix(raw).isMetadata then
        match env.decodeMetadata(Payload(raw))
        case Err(e) => Fail(Thrown(e))
        case Ok(md) => if receivedHeader then HandleTrailer(env, md) else HandleHeader(env, md)
      else if !receivedHeader then Fail(Protocol(DataBeforeHeader))
      else
        match env.decode(Payload(raw))
        case Err(e) => Fail(Thrown(e))
        case Ok(m) => HandleMessage(env, m)
    }

    function HandleBlocks(env: Env<M, T, E>, raws: seq<seq<byte>>): Session<M, T, E>
      requires forall i :: 0 <= i < |raws| ==> IsBlock(raws[i])
      decreases |raws|
    {
      if raws == [] || error.Some? then this
      else HandleBlock(env, raws[0]).HandleBlocks(env, raws[1..])
    }
  }

  function InitSession<M, T, E>(): Session<M, T, E> { Session(false, false, false, [], None) }

  /** A decoder between two transport frames: the protocol state and the bytes of an incomplete block. */
  datatype State<M, T, E> = State(session: Session<M, T, E>, pending: seq<byte>)
  {
    /** One-shot handling of a data frame: parse everything not yet consumed, then handle the blocks. */
    function Feed(env: Env<M, T, E>, data: seq<byte>): State<M, T, E> {
      if session.error.Some? then this
      else if session.receivedTrailer then this.(session := session.Fail(Protocol(DataAfterTrailer)))
      else
        var p := Split(pending + data);
        State(session.HandleBlocks(env, p.blocks), p.rest)
    }

    function HandleFrame(env: Env<M, T, E>, frame: TransportFrame<M>): State<M, T, E> {
      if session.error.Some? then this
      else match frame
        case HeaderFrame(h) => this.(session := session.HandleHeader(env, h))
        case TrailerFrame(t) => this.(session := session.HandleTrailer(env, t))
        case DataFrame(data) => Feed(env, data)
    }

    function HandleFrames(env: Env<M, T, E>, frames: seq<TransportFrame<M>>): State<M, T, E>
      decreases |frames|
    {
      if frames == [] then this else HandleFrame(env, frames[0]).HandleFrames(env, frames[1..])
    }

    /** The transport stream ends, or fails. */
    function Close(failure: Option<E>): State<M, T, E> {
      if session.error.None? && failure.Some? then this.(session := session.Fail(Thrown(failure.value))) else this
    }

    /** Equal as far as anyone can see: an aborted decoder's buffer is never looked at again. */
    ghost predicate Same(other: State<M, T, E>) {
      session == other.session && (session.error.None? ==> pending == other.pending)
    }
  }

  function InitState<M, T, E>(): State<M, T, E> { State(InitSession(), []) }

  // ------------------------------------------------------------------------------------------
  // The decoder as written: flags, a chunk buffer, and a loop over each data frame

  class Decoder<M, T, E> {
    const env: Env<M, T, E>
    var receivedHeader: bool
    var receivedTrailer: bool
    var receivedData: bool
    var chunks: seq<seq<byte>>
    var totalLength: nat
    var targetLength: nat
    var lpmHeader: Option<LpmHeader>
    var events: seq<Event<M, T>>
    var error: Option<Failure<E>>
    /** The bytes taken since the last complete block. */
    ghost var pending: seq<byte>

    ghost function Now(): Session<M, T, E>
      reads this
    {
      Session(receivedHeader, receivedTrailer, receivedData, events, error)
    }

    /** The buffer holds the pending bytes, minus the prefix once that has been parsed. */
    ghost predicate Buffered()
      reads this
    {
      && totalLength == |Flatten(chunks)| <= targetLength
      && (lpmHeader.None? ==> targetLength == LPM_HEADER_LENGTH && pending == Flatten(chunks))
      && (lpmHeader.Some? ==>
            && |pending| >= LPM_HEADER_LENGTH && lpmHeader.value == Prefix(pending)
            && targetLength == lpmHeader.value.length
            && Flatten(chunks) == pending[LPM_HEADER_LENGTH..])
    }

    /** Outside the inner loop the buffer is strictly below its target, so no complete block waits. */
    ghost predicate Valid()
      reads this
    {
      error.None? ==> Buffered() && totalLength < targetLength
    }

    ghost function View(): State<M, T, E>
      reads this
    {
      State(Now(), pending)
    }

    constructor (env: Env<M, T, E>)
      ensures Valid() && View() == InitState() && this.env == env
    {
      this.env := env;
      receivedHeader, receivedTrailer, receivedData := false, false, false;
      chunks, totalLength, targetLength := [], 0, LPM_HEADER_LENGTH;
      lpmHeader, events, error, pending := None, [], None, [];
    }

    method Deliver(event: Event<M, T>)
      requires error.None?
      modifies this`events, this`error
      ensures Now() == old(Now()).Deliver(env, event)
    {
      events := events + [event];
      var outcome := env.react(events);
      if outcome.Some? {
        error := Some(Thrown(outcome.value));
      }
    }

    method HandleHeader(header: M)
      requires error.None?
      modifies this`receivedHeader, this`events, this`error
      ensures Now() == old(Now()).HandleHeader(env, header)
    {
      if receivedHeader {
        error := Some(Protocol(MultipleHeaders));
        return;
      }
      if receivedData {
        error := Some(Protocol(HeaderAfterData));
        return;
      }
      if receivedTrailer {
        error := Some(Protocol(HeaderAfterTrailer));
        return;
      }
      receivedHeader := true;
      Deliver(Header(header));
    }

    method HandleTrailer(trailer: M)
      requires error.None?
      modifies this`receivedTrailer, this`events, this`error
      ensures Now() == old(Now()).HandleTrailer(env, trailer)
    {
      if receivedTrailer {
        error := Some(Protocol(MultipleTrailers));
        return;
      }
      receivedTrailer := true;
      Deliver(Trailer(trailer));
    }

    method CreateChunkBuffer(target: nat)
      modifies this`chunks, this`totalLength, this`targetLength
      ensures chunks == [] && totalLength == 0 && targetLength == target
    {
      chunks, totalLength, targetLength := [], 0, target;
    }

    /** Handles the complete body of a block whose prefix is in `lpmHeader`. */
    method HandleBody(messageBytes: seq<byte>)
      requires error.None? && lpmHeader.Some? && IsBlock(pending)
      requires lpmHeader.value == Prefix(pending) && messageBytes == Payload(pending)
      modifies this`receivedHeader, this`receivedTrailer, this`receivedData, this`events, this`error
      ensures Now() == old(Now()).HandleBlock(env, pending)
    {
      if lpmHeader.value.compressed {
        error := Some(Protocol(CompressedMessage));
        return;
      }
      if lpmHeader.value.isMetadata {
        var metadata := env.decodeMetadata(messageBytes);
        match metadata {
          case Err(e) => error := Some(Thrown(e));
          case Ok(md) =>
            if !receivedHeader {
              HandleHeader(md);
            } else {
              HandleTrailer(md);
            }
        }
      } else if !receivedHeader {
        error := Some(Protocol(DataBeforeHeader));
      } else {
        var message := env.decode(messageBytes);
        match message {
          case Err(e) => error := Some(Thrown(e));
          case Ok(m) =>
            Deliver(Message(m));
            if error.None? {
              receivedData := true;
            }
        }
      }
    }

    method AddChunk(chunk: seq<byte>)
      requires Buffered() && |chunk| <= targetLength - totalLength
      modifies this`chunks, this`totalLength, this`pending
      ensures Buffered() && totalLength == old(totalLength) + |chunk| && pending == old(pending) + chunk
    {
      FlattenSnoc(chunks, chunk);
      PrefixKept(pending, chunk);
      chunks := chunks + [chunk];
      totalLength := totalLength + |chunk|;
      pending := pending + chunk;
    }

    predicate EmptyBodyDue()
      reads this
    {
      lpmHeader.Some? && lpmHeader.value.length == 0
    }

    /**
     * One iteration of the inner loop: takes bytes up to the target, and acts when it is reached.
     * Either bytes only move into the buffer, or they complete exactly one block, `done`.
     */
    method TakeChunk(data: seq<byte>) returns (remaining: seq<byte>, ghost done: Option<seq<byte>>)
      requires error.None? && Buffered()
      requires |data| > 0 || EmptyBodyDue()
      requires totalLength == targetLength ==> EmptyBodyDue()
      modifies this
      ensures error.None? ==> Buffered() && (totalLength == targetLength ==> EmptyBodyDue())
      ensures |remaining| < |data| || (remaining == data && old(EmptyBodyDue()) && !EmptyBodyDue())
      ensures done.None? ==> Now() == old(Now()) && pending + remaining == old(pending) + data
      ensures done.Some? ==>
        && IsBlock(done.value) && old(pending) + data == done.value + remaining
        && Now() == old(Now()).HandleBlock(env, done.value) && pending == []
    {
      var position := if |data| < targetLength - totalLength then |data| else targetLength - totalLength;
      var chunk := data[..position];
      remaining := data[position..];
      AddChunk(chunk);
      AppendAssoc(old(pending), chunk, remaining);
      done := None;
      if totalLength == targetLength {
        done := TargetReached();
      }
    }

    /** The buffer is full: it holds a prefix to parse, or the body of a block to handle. */
    method TargetReached() returns (ghost done: Option<seq<byte>>)
      requires error.None? && Buffered() && totalLength == targetLength
      modifies this
      ensures error.None? ==> Buffered() && (totalLength == targetLength ==> EmptyBodyDue())
      ensures done == if old(lpmHeader).None? then None else Some(old(pending))
      ensures done.None? ==> Now() == old(Now()) && pending == old(pending)
      ensures done.Some? ==>
        && IsBlock(done.value) && Now() == old(Now()).HandleBlock(env, done.value) && pending == [] && lpmHeader.None?
    {
      var messageBytes := ConcatBuffers(chunks, totalLength);
      if lpmHeader.None? {
        assert pending[..LPM_HEADER_LENGTH] == pending == messageBytes;
        var parsed := ParseLpmHeader(messageBytes);
        lpmHeader := Some(parsed.value);
        CreateChunkBuffer(lpmHeader.value.length);
        done := None;
      } else {
        done := Some(pending);
        HandleBody(messageBytes);
        lpmHeader := None;
        CreateChunkBuffer(LPM_HEADER_LENGTH);
        pending := [];
      }
    }

    /** One iteration leaves the same to be done, seen as a whole. */
    method Advance(data: seq<byte>) returns (remaining: seq<byte>)
      requires error.None? && Buffered()
      requires |data| > 0 || EmptyBodyDue()
      requires totalLength == targetLength ==> EmptyBodyDue()
      modifies this
      ensures error.None? ==> Buffered() && (totalLength == targetLength ==> EmptyBodyDue())
      ensures |remaining| < |data| || (remaining == data && old(EmptyBodyDue()) && !EmptyBodyDue())
      ensures Remaining(env, Now(), pending + remaining) == old(Remaining(env, Now(), pending + data))
    {
      ghost var session := Now();
      ghost var done;
      remaining, done := TakeChunk(data);
      if done.Some? {
        assert pending + remaining == remaining;
        RemainingBlock(env, session, done.value, remaining);
      }
    }

    /** What comes of one data frame is what the one-shot parser says. */
    method HandleData(frameData: seq<byte>)
      requires Valid() && error.None?
      modifies this
      ensures Valid() && View() == old(View()).Feed(env, frameData)
    {
      if receivedTrailer {
        error := Some(Protocol(DataAfterTrailer));
        return;
      }
      ghost var goal := Remaining(env, Now(), pending + frameData);
      assert goal == View().Feed(env, frameData);
      ghost var rest := TakeAll(frameData);
      NothingRemains(env, Now(), pending + rest);
      if error.None? {
        assert pending + rest == pending;
        NoBlockWaits();
      } else {
        pending := goal.pending;
      }
      assert View() == goal;
    }

    /** The inner loop; `rest` is what an error leaves untouched. */
    method TakeAll(frameData: seq<byte>) returns (ghost rest: seq<byte>)
      requires error.None? && Buffered() && totalLength < targetLength
      modifies this
      ensures error.None? ==> rest == [] && Buffered() && totalLength < targetLength
      ensures Remaining(env, Now(), pending + rest) == old(Remaining(env, Now(), pending + frameData))
    {
      var data := frameData;
      while error.None? && (|data| > 0 || EmptyBodyDue())
        invariant error.None? ==> Buffered() && (totalLength == targetLength ==> EmptyBodyDue())
        invariant Remaining(env, Now(), pending + data) == old(Remaining(env, Now(), pending + frameData))
        decreases |data|, EmptyBodyDue()
      {
        data := Advance(data);
      }
      rest := data;
    }

    /** A buffer below its target holds no complete block. */
    lemma NoBlockWaits()
      requires Buffered() && totalLength < targetLength
      ensures !HasBlock(pending)
    {
    }

    method HandleFrame(frame: TransportFrame<M>)
      requires Valid() && error.None?
      modifies this
      ensures Valid() && View() == old(View()).HandleFrame(env, frame)
    {
      match frame {
        case HeaderFrame(header) => HandleHeader(header);
        case TrailerFrame(trailer) => HandleTrailer(trailer);
        case DataFrame(data) => HandleData(data);
      }
    }

    /** The generator's whole body: `failure` is the error the transport stream ends with, if any. */
    method Run(frames: seq<TransportFrame<M>>, failure: Option<E>)
      requires Valid() && error.None?
      modifies this
      ensures Valid() && View() == old(View()).HandleFrames(env, frames).Close(failure)
    {
      ghost var goal := View().HandleFrames(env, frames);
      var i := 0;
      while i < |frames| && error.None?
        invariant 0 <= i <= |frames|
        invariant Valid() && View().HandleFrames(env, frames[i..]) == goal
      {
        HandleFrame(frames[i]);
        i := i + 1;
      }
      HandleFramesAfterError(env, View(), frames[i..]);
      if error.None? && failure.Some? {
        error := Some(Thrown(failure.value));
      }
    }
  }

  lemma {:induction false} HandleFramesAfterError<M, T, E>(env: Env<M, T, E>, st: State<M, T, E>,
                                                           frames: seq<TransportFrame<M>>)
    ensures st.session.error.Some? ==> st.HandleFrames(env, frames) == st
  {
    if frames != [] && st.session.error.Some? {
      HandleFramesAfterError(env, st, frames[1..]);
    }
  }

  /** What is still to do with unhandled bytes. */
  ghost function Remaining<M, T, E>(env: Env<M, T, E>, s: Session<M, T, E>, bytes: seq<byte>): State<M, T, E> {
    State(s.HandleBlocks(env, Split(bytes).blocks), Split(bytes).rest)
  }

  lemma {:induction false} NothingRemains<M, T, E>(env: Env<M, T, E>, s: Session<M, T, E>, bytes: seq<byte>)
    ensures s.error.Some? ==> Remaining(env, s, bytes).session == s
    ensures !HasBlock(bytes) ==> Remaining(env, s, bytes) == State(s, bytes)
  {
  }

  lemma {:induction false} RemainingBlock<M, T, E>(env: Env<M, T, E>, s: Session<M, T, E>,
                                                  raw: seq<byte>, tail: seq<byte>)
    requires IsBlock(raw) && s.error.None?
    ensures Remaining(env, s.HandleBlock(env, raw), tail) == Remaining(env, s, raw + tail)
  {
    SplitFront(raw, tail);
    assert ([raw] + Split(tail).blocks)[1..] == Split(tail).blocks;
  }

  lemma PrefixKept(pending: seq<byte>, chunk: seq<byte>)
    ensures |pending| >= LPM_HEADER_LENGTH ==>
              && Prefix(pending + chunk) == Prefix(pending)
              && (pending + chunk)[LPM_HEADER_LENGTH..] == pending[LPM_HEADER_LENGTH..] + chunk
  {
    if |pending| >= LPM_HEADER_LENGTH {
      assert (pending + chunk)[..LPM_HEADER_LENGTH] == pending[..LPM_HEADER_LENGTH];
    }
  }
}
