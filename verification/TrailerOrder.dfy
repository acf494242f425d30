/** Messages after a trailer: what packages/nice-grpc-web/src/client/decodeResponse.ts lets through, and what not. */
module TrailerOrder {
  import opened Basics
  import opened Framing
  import opened DecodeResponse
  import opened DecodeTheorems

  /** A message has been delivered after a trailer. */
  ghost predicate LateMessage<M, T>(events: seq<Event<M, T>>) {
    exists i, j :: 0 <= i < j < |events| && events[i].Trailer? && events[j].Message?
  }

  ghost predicate HasTrailer<M, T>(events: seq<Event<M, T>>) { exists i :: 0 <= i < |events| && events[i].Trailer? }

  lemma {:induction false} LateMessageSnoc<M, T>(events: seq<Event<M, T>>, event: Event<M, T>)
    ensures LateMessage(events + [event]) <==> LateMessage(events) || (event.Message? && HasTrailer(events))
  {
    var all := events + [event];
    assert forall i :: 0 <= i < |events| ==> all[i] == events[i];
    if i :| 0 <= i < |events| && events[i].Trailer? && event.Message? {
      assert all[i].Trailer? && all[|events|].Message?;
    }
    if i, j :| 0 <= i < j < |events| && events[i].Trailer? && events[j].Message? {
      assert all[i].Trailer? && all[j].Message?;
    }
  }

  /** A block that is delivered as a message. */
  ghost predicate MessageBlock<M, T, E>(env: Env<M, T, E>, s: Session<M, T, E>, raw: seq<byte>)
    requires IsBlock(raw)
  {
    !Prefix(raw).compressed && !Prefix(raw).isMetadata && s.receivedHeader && env.decode(Payload(raw)).Ok?
  }

  lemma {:induction false} BlockLate<M, T, E>(env: Env<M, T, E>, s: Session<M, T, E>, raw: seq<byte>)
    requires Consistent(env, s) && IsBlock(raw)
    ensures LateMessage(s.HandleBlock(env, raw).events)
            <==> LateMessage(s.events) || (s.receivedTrailer && MessageBlock(env, s, raw))
  {
    var md, m := env.decodeMetadata(Payload(raw)), env.decode(Payload(raw));
    if md.Ok? {
      LateMessageSnoc(s.events, Header(md.value));
      LateMessageSnoc(s.events, Trailer(md.value));
    }
    if m.Ok? {
      LateMessageSnoc(s.events, Message(m.value));
    }
  }

  /** Block `j` of a list of blocks is delivered as a message, and a trailer has come before it. */
  ghost predicate LateBlock<M, T, E>(env: Env<M, T, E>, s: Session<M, T, E>, blocks: seq<seq<byte>>, j: nat)
    requires forall i :: 0 <= i < |blocks| ==> IsBlock(blocks[i])
    requires j < |blocks|
  {
    var before := s.HandleBlocks(env, blocks[..j]);
    before.error.None? && before.receivedTrailer && MessageBlock(env, before, blocks[j])
  }

  /** One of the first `n` blocks is such a block. */
  ghost predicate LateAmong<M, T, E>(env: Env<M, T, E>, s: Session<M, T, E>, blocks: seq<seq<byte>>, n: nat)
    requires forall i :: 0 <= i < |blocks| ==> IsBlock(blocks[i])
    requires n <= |blocks|
  {
    exists j :: 0 <= j < n && LateBlock(env, s, blocks, j)
  }

  lemma {:induction false} BlocksLate<M, T, E>(env: Env<M, T, E>, s: Session<M, T, E>, blocks: seq<seq<byte>>, n: nat)
    requires Consistent(env, s) && n <= |blocks| && forall i :: 0 <= i < |blocks| ==> IsBlock(blocks[i])
    ensures LateMessage(s.HandleBlocks(env, blocks[..n]).events)
            <==> LateMessage(s.events) || LateAmong(env, s, blocks, n)
  {
    if n == 0 {
      assert blocks[..0] == [];
    } else {
      BlocksLate(env, s, blocks, n - 1);
      BlocksKeepOrder(env, s, blocks[..n - 1]);
      NextBlock(env, s, blocks, n - 1);
      NextBlockLate(env, s, blocks, n - 1);
      LateAmongStep(env, s, blocks, n - 1);
    }
  }

  lemma {:induction false} LateAmongStep<M, T, E>(env: Env<M, T, E>, s: Session<M, T, E>,
                                                 blocks: seq<seq<byte>>, n: nat)
    requires n < |blocks| && forall i :: 0 <= i < |blocks| ==> IsBlock(blocks[i])
    ensures LateAmong(env, s, blocks, n + 1) <==> LateAmong(env, s, blocks, n) || LateBlock(env, s, blocks, n)
  {
  }

  lemma {:induction false} NextBlockLate<M, T, E>(env: Env<M, T, E>, s: Session<M, T, E>,
                                                 blocks: seq<seq<byte>>, n: nat)
    requires n < |blocks| && forall i :: 0 <= i < |blocks| ==> IsBlock(blocks[i])
    requires Consistent(env, s.HandleBlocks(env, blocks[..n]))
    ensures var before := s.HandleBlocks(env, blocks[..n]);
      LateMessage((if before.error.Some? then before else before.HandleBlock(env, blocks[n])).events)
      <==> LateMessage(before.events) || LateBlock(env, s, blocks, n)
  {
    var before := s.HandleBlocks(env, blocks[..n]);
    BlockLate(env, before, blocks[n]);
  }

  lemma {:induction false} NextBlock<M, T, E>(env: Env<M, T, E>, s: Session<M, T, E>, blocks: seq<seq<byte>>, n: nat)
    requires n < |blocks| && forall i :: 0 <= i < |blocks| ==> IsBlock(blocks[i])
    ensures var before := s.HandleBlocks(env, blocks[..n]);
            s.HandleBlocks(env, blocks[..n + 1])
            == if before.error.Some? then before else before.HandleBlock(env, blocks[n])
  {
    assert blocks[..n + 1] == blocks[..n] + [blocks[n]];
    HandleBlocksAppend(env, s, blocks[..n], [blocks[n]]);
    HandleOne(env, s.HandleBlocks(env, blocks[..n]), blocks[n]);
  }

  /** Some block of a data frame is a trailer, and a later block of the same data frame is delivered as a message. */
  ghost predicate LateInFrame<M, T, E>(env: Env<M, T, E>, st: State<M, T, E>, frame: TransportFrame<M>) {
    && frame.DataFrame? && st.session.error.None? && !st.session.receivedTrailer
    && var blocks := Split(st.pending + frame.data).blocks;
       LateAmong(env, st.session, blocks, |blocks|)
  }

  /** Once a trailer has been received, no further transport frame delivers anything: every one of them is an error. */
  lemma {:induction false} FramesAfterTrailer<M, T, E>(env: Env<M, T, E>, st: State<M, T, E>, frame: TransportFrame<M>)
    requires Consistent(env, st.session) && st.session.receivedTrailer
    ensures st.HandleFrame(env, frame).session.events == st.session.events
    ensures st.HandleFrame(env, frame).session.error.Some?
  {
  }

  lemma {:induction false} FrameLate<M, T, E>(env: Env<M, T, E>, st: State<M, T, E>, frame: TransportFrame<M>)
    requires Consistent(env, st.session)
    ensures LateMessage(st.HandleFrame(env, frame).session.events)
            <==> LateMessage(st.session.events) || LateInFrame(env, st, frame)
  {
    if st.session.receivedTrailer {
      FramesAfterTrailer(env, st, frame);
    } else if st.session.error.None? {
      match frame {
        case HeaderFrame(h) => LateMessageSnoc(st.session.events, Header(h));
        case TrailerFrame(t) => LateMessageSnoc(st.session.events, Trailer(t));
        case DataFrame(data) =>
          var blocks := Split(st.pending + data).blocks;
          assert blocks[..|blocks|] == blocks;
          BlocksLate(env, st.session, blocks, |blocks|);
      }
    }
  }

  /** What was received before frame `k`. */
  ghost function Before<M, T, E>(env: Env<M, T, E>, frames: seq<TransportFrame<M>>, k: nat): State<M, T, E>
    requires k <= |frames|
  {
    InitState().HandleFrames(env, frames[..k])
  }

  /** Frame `k` brings the trailer and then a message. */
  ghost predicate LateFrame<M, T, E>(env: Env<M, T, E>, frames: seq<TransportFrame<M>>, k: nat)
    requires k < |frames|
  {
    LateInFrame(env, Before(env, frames, k), frames[k])
  }

  lemma {:induction false} NextFrameLate<M, T, E>(env: Env<M, T, E>, frames: seq<TransportFrame<M>>, n: nat)
    requires n < |frames|
    ensures LateMessage(Before(env, frames, n + 1).session.events)
            <==> LateMessage(Before(env, frames, n).session.events) || LateFrame(env, frames, n)
  {
    RunKeepsOrder(env, InitState(), frames[..n]);
    NextFrame(env, frames, n);
    FrameLate(env, Before(env, frames, n), frames[n]);
  }

  /**
   * In every run a message follows a trailer exactly when some data frame brings both: a block that is the trailer,
   * and after it a data block. Across transport frames nothing is delivered after a trailer.
   */
  lemma {:induction false} LateMessageExactly<M, T, E>(env: Env<M, T, E>, frames: seq<TransportFrame<M>>, n: nat)
    requires n <= |frames|
    ensures LateMessage(Before(env, frames, n).session.events) <==> LateFrames(env, frames, n)
  {
    if n == 0 {
      NothingBefore(env, frames);
    } else {
      LateMessageExactly(env, frames, n - 1);
      NextFrameLate(env, frames, n - 1);
      LateFramesStep(env, frames, n - 1);
    }
  }

  lemma {:induction false} NothingBefore<M, T, E>(env: Env<M, T, E>, frames: seq<TransportFrame<M>>)
    ensures Before(env, frames, 0).session.events == []
  {
    assert frames[..0] == [];
  }

  /** One of the first `n` frames does so. */
  ghost predicate LateFrames<M, T, E>(env: Env<M, T, E>, frames: seq<TransportFrame<M>>, n: nat)
    requires n <= |frames|
  {
    exists k :: 0 <= k < n && LateFrame(env, frames, k)
  }

  lemma {:induction false} LateFramesStep<M, T, E>(env: Env<M, T, E>, frames: seq<TransportFrame<M>>, n: nat)
    requires n < |frames|
    ensures LateFrames(env, frames, n + 1) <==> LateFrames(env, frames, n) || LateFrame(env, frames, n)
  {
  }

  lemma {:induction false} NextFrame<M, T, E>(env: Env<M, T, E>, frames: seq<TransportFrame<M>>, n: nat)
    requires n < |frames|
    ensures Before(env, frames, n + 1) == Before(env, frames, n).HandleFrame(env, frames[n])
  {
    var st, last := Before(env, frames, n), [frames[n]];
    assert frames[..n + 1] == frames[..n] + last;
    HandleFramesAppend(env, InitState(), frames[..n], last);
    assert last[1..] == [];
    assert st.HandleFrames(env, last) == st.HandleFrame(env, last[0]);
  }

  /** It does happen: a trailer block and then an empty message, in one data frame. */
  lemma {:induction false} MessageAfterTrailer<M, T, E>(env: Env<M, T, E>, header: M, trailer: M, message: T)
    requires env.decodeMetadata([]) == Ok(trailer) && env.decode([]) == Ok(message)
    requires env.react([Header(header)]).None? && env.react([Header(header), Trailer(trailer)]).None?
    requires env.react([Header(header), Trailer(trailer), Message(message)]).None?
    ensures var st := InitState().HandleFrame(env, HeaderFrame(header));
            st.HandleFrame(env, DataFrame([0x80, 0, 0, 0, 0] + [0, 0, 0, 0, 0])).session
            == Session(true, true, true, [Header(header), Trailer(trailer), Message(message)], None)
  {
    var first, second := [0x80, 0, 0, 0, 0], [0, 0, 0, 0, 0];
    TwoEmptyBlocks();
    var st := InitState().HandleFrame(env, HeaderFrame(header));
    var e1: seq<Event<M, T>> := [Header(header)];
    assert [] + e1 == e1;
    assert st == State(Session(true, false, false, e1, None), []);
    assert st.pending + (first + second) == first + second;
    TrailerThenMessage(env, header, trailer, message, first, second);
    TwoBlocks(env, st.session, first, second);
  }

  lemma {:induction false} TwoBlocks<M, T, E>(env: Env<M, T, E>, s: Session<M, T, E>,
                                             first: seq<byte>, second: seq<byte>)
    requires IsBlock(first) && IsBlock(second) && s.error.None?
    requires s.HandleBlock(env, first).error.None?
    ensures s.HandleBlocks(env, [first, second]) == s.HandleBlock(env, first).HandleBlock(env, second)
  {
    assert [first, second] == [first] + [second];
    HandleBlocksAppend(env, s, [first], [second]);
    HandleOne(env, s, first);
    HandleOne(env, s.HandleBlock(env, first), second);
  }

  lemma {:induction false} TrailerThenMessage<M, T, E>(env: Env<M, T, E>, header: M, trailer: M, message: T,
                                                       first: seq<byte>, second: seq<byte>)
    requires IsBlock(first) && Prefix(first) == LpmHeader(false, true, 0)
    requires IsBlock(second) && Prefix(second) == LpmHeader(false, false, 0)
    requires env.decodeMetadata(Payload(first)) == Ok(trailer) && env.decode(Payload(second)) == Ok(message)
    requires env.react([Header(header), Trailer(trailer)]).None?
    requires env.react([Header(header), Trailer(trailer), Message(message)]).None?
    ensures var s := Session(true, false, false, [Header(header)], None).HandleBlock(env, first);
      && s.error.None?
      && s.HandleBlock(env, second)
         == Session(true, true, true, [Header(header), Trailer(trailer), Message(message)], None)
  {
    var e1: seq<Event<M, T>> := [Header(header)];
    var e2: seq<Event<M, T>> := [Header(header), Trailer(trailer)];
    assert e1 + [Trailer(trailer)] == e2;
    assert e2 + [Message(message)] == [Header(header), Trailer(trailer), Message(message)];
  }

  lemma {:induction false} TwoEmptyBlocks()
    ensures var first, second := [0x80, 0, 0, 0, 0], [0, 0, 0, 0, 0];
      && IsBlock(first) && Prefix(first) == LpmHeader(false, true, 0) && Payload(first) == []
      && IsBlock(second) && Prefix(second) == LpmHeader(false, false, 0) && Payload(second) == []
      && Split(first + second) == Parsed([first, second], [])
  {
    EmptyTrailerBlock();
    FramePrefix([]);
    var first, second := [0x80, 0, 0, 0, 0], [0, 0, 0, 0, 0];
    assert Frame([]) == second;
    FlattenSnoc([first], second);
    FlattenSnoc([], first);
    assert [] + [first] == [first] && [first] + [second] == [first, second];
    assert first + second == Flatten([first, second]) + [];
    SplitUnique(Parsed([first, second], []), first + second);
  }
}
