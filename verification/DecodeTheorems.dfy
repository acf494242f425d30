/** What the decoder guarantees over whole runs. */
module DecodeTheorems {
  import opened Basics
  import opened Framing
  import opened DecodeResponse

  function DataFrames<M>(chunks: seq<seq<byte>>): (fs: seq<TransportFrame<M>>)
    ensures |fs| == |chunks| && forall i :: 0 <= i < |fs| ==> fs[i] == DataFrame(chunks[i])
  {
    seq(|chunks|, i requires 0 <= i < |chunks| => DataFrame(chunks[i]))
  }

  // ------------------------------------------------------------------------------------------
  // Chunking

  lemma {:induction false} HandleBlocksAppend<M, T, E>(env: Env<M, T, E>, s: Session<M, T, E>,
                                                       a: seq<seq<byte>>, b: seq<seq<byte>>)
    requires forall i :: 0 <= i < |a| ==> IsBlock(a[i])
    requires forall i :: 0 <= i < |b| ==> IsBlock(b[i])
    ensures s.HandleBlocks(env, a + b) == s.HandleBlocks(env, a).HandleBlocks(env, b)
    decreases |a|
  {
    if a == [] {
      assert a + b == b;
    } else if s.error.None? {
      assert (a + b)[1..] == a[1..] + b;
      HandleBlocksAppend(env, s.HandleBlock(env, a[0]), a[1..], b);
    }
  }

  lemma {:induction false} HandleFramesAppend<M, T, E>(env: Env<M, T, E>, st: State<M, T, E>,
                                                       a: seq<TransportFrame<M>>, b: seq<TransportFrame<M>>)
    ensures st.HandleFrames(env, a + b) == st.HandleFrames(env, a).HandleFrames(env, b)
    decreases |a|
  {
    if a == [] {
      assert a + b == b;
    } else {
      assert (a + b)[1..] == a[1..] + b;
      HandleFramesAppend(env, st.HandleFrame(env, a[0]), a[1..], b);
    }
  }

  /** Handling blocks never reports data after a trailer: only the arrival of a data frame does. */
  lemma {:induction false} BlocksNeverLate<M, T, E>(env: Env<M, T, E>, s: Session<M, T, E>, raws: seq<seq<byte>>)
    requires forall i :: 0 <= i < |raws| ==> IsBlock(raws[i])
    requires s.error != Some(Protocol(DataAfterTrailer))
    ensures s.HandleBlocks(env, raws).error != Some(Protocol(DataAfterTrailer))
    decreases |raws|
  {
    if raws != [] && s.error.None? {
      BlocksNeverLate(env, s.HandleBlock(env, raws[0]), raws[1..]);
    }
  }

  /** A trailer has been accepted and nothing has failed: any further data frame is an error. */
  ghost predicate Closed<M, T, E>(st: State<M, T, E>) {
    st.session.receivedTrailer && st.session.error.None?
  }

  /** Cutting one data frame in two changes nothing exactly when the first part does not end the stream. */
  lemma FeedSplit<M, T, E>(env: Env<M, T, E>, st: State<M, T, E>, a: seq<byte>, b: seq<byte>)
    requires !Closed(st)
    ensures st.Feed(env, a).Feed(env, b).Same(st.Feed(env, a + b)) <==> !Closed(st.Feed(env, a))
    ensures Closed(st.Feed(env, a)) ==>
      && st.Feed(env, a).Feed(env, b).session.error == Some(Protocol(DataAfterTrailer))
      && st.Feed(env, a + b).session.error != Some(Protocol(DataAfterTrailer))
  {
    if st.session.error.None? {
      var pa := Split(st.pending + a);
      SplitAppend(st.pending + a, b);
      assert (st.pending + a) + b == st.pending + (a + b);
      HandleBlocksAppend(env, st.session, pa.blocks, Split(pa.rest + b).blocks);
      BlocksNeverLate(env, st.session, Split(st.pending + (a + b)).blocks);
    }
  }

  /** No data frame, not even an empty one, starts after the bytes before it completed a trailer. */
  ghost predicate NothingAfterTrailer<M, T, E>(env: Env<M, T, E>, st: State<M, T, E>, chunks: seq<seq<byte>>) {
    forall k :: 0 < k < |chunks| ==> !Closed(st.Feed(env, Flatten(chunks[..k])))
  }

  /**
   * Chunking invariance: however the bytes are cut into data frames, the decoder ends up where the one-shot
   * parser on their concatenation does, exactly when no data frame follows a complete trailer block.
   * Otherwise the decoder reports data after the trailer, which the one-shot parser never does.
   */
  lemma {:induction false} ChunkingInvariance<M, T, E>(env: Env<M, T, E>, st: State<M, T, E>, chunks: seq<seq<byte>>)
    requires !Closed(st) && chunks != []
    ensures st.HandleFrames(env, DataFrames(chunks)).Same(st.Feed(env, Flatten(chunks)))
            <==> NothingAfterTrailer(env, st, chunks)
    ensures !NothingAfterTrailer(env, st, chunks) ==>
      st.HandleFrames(env, DataFrames(chunks)).session.error == Some(Protocol(DataAfterTrailer))
    decreases |chunks|
  {
    var n := |chunks| - 1;
    var init, last := chunks[..n], chunks[n];
    assert chunks == init + [last];
    FlattenSnoc(init, last);
    assert DataFrames<M>(chunks) == DataFrames<M>(init) + [DataFrame(last)];
    HandleFramesAppend(env, st, DataFrames(init), [DataFrame(last)]);
    var mid := st.HandleFrames(env, DataFrames(init));
    assert mid.HandleFrames(env, [DataFrame(last)]) == mid.Feed(env, last);
    if n == 0 {
      assert Flatten(chunks) == last;
      assert mid == st;
    } else {
      ChunkingInvariance(env, st, init);
      FeedSplit(env, st, Flatten(init), last);
      LateChunks(env, st, init, last);
      NeverLate(env, st, Flatten(chunks));
      assert mid.session.error.Some? ==> mid.Feed(env, last) == mid;
    }
  }

  /** The shortest trailer block. */
  lemma {:induction false} EmptyTrailerBlock()
    ensures var block := [0x80, 0, 0, 0, 0];
      && IsBlock(block) && Prefix(block) == LpmHeader(false, true, 0) && Payload(block) == []
      && Split(block) == Parsed([block], [])
  {
    var block: seq<byte> := [0x80, 0, 0, 0, 0];
    assert (0x80 as bv8) & 1 == 0 && (0x80 as bv8) & 0x80 != 0;
    assert block[..LPM_HEADER_LENGTH] == block && block[1..] == [0, 0, 0, 0];
    assert GetUint32([0, 0, 0, 0]) == 0;
    assert Prefix(block) == LpmHeader(false, true, 0);
    assert [block][1..] == [] && Flatten([block]) == block + Flatten([][..]);
    assert Decomposes(Parsed([block], []), block);
    SplitUnique(Parsed([block], []), block);
  }

  /** It does happen: bytes that are fine in one data frame are an error when an empty data frame follows them. */
  lemma {:induction false} EmptyChunkAfterTrailer<M, T, E>(env: Env<M, T, E>, header: M, trailer: M)
    requires env.decodeMetadata([]) == Ok(trailer)
    requires env.react([Header(header)]).None? && env.react([Header(header), Trailer(trailer)]).None?
    ensures var block := [0x80, 0, 0, 0, 0];
            var st := InitState().HandleFrame(env, HeaderFrame(header));
      && st.HandleFrames(env, DataFrames([block])).session
         == Session(true, true, false, [Header(header), Trailer(trailer)], None)
      && st.HandleFrames(env, DataFrames([block, []])).session.error == Some(Protocol(DataAfterTrailer))
  {
    var block: seq<byte> := [0x80, 0, 0, 0, 0];
    var st := InitState().HandleFrame(env, HeaderFrame(header));
    EmptyTrailerBlock();
    assert st.pending + block == block;
    var first: seq<Event<M, T>> := [Header(header)];
    assert [] + first == first;
    assert st.session == Session(true, false, false, [Header(header)], None);
    HandleOne(env, st.session, block);
    assert first + [Trailer(trailer)] == [Header(header), Trailer(trailer)];
    var closed := st.HandleFrame(env, DataFrame(block));
    assert closed.session == st.session.HandleTrailer(env, trailer);
    assert closed.session == Session(true, true, false, [Header(header), Trailer(trailer)], None);
    var late: seq<TransportFrame<M>> := [DataFrame([])];
    assert DataFrames<M>([block])[1..] == [] && DataFrames<M>([block, []])[1..] == late && late[1..] == [];
    assert closed.HandleFrames(env, late) == closed.HandleFrame(env, late[0]);
  }

  lemma LateChunks<M, T, E>(env: Env<M, T, E>, st: State<M, T, E>, init: seq<seq<byte>>, last: seq<byte>)
    requires init != []
    ensures NothingAfterTrailer(env, st, init + [last])
            <==> NothingAfterTrailer(env, st, init) && !Closed(st.Feed(env, Flatten(init)))
  {
    var chunks := init + [last];
    assert forall k :: 0 < k <= |init| ==> chunks[..k] == init[..k];
    assert init[..|init|] == init;
    if NothingAfterTrailer(env, st, chunks) {
      assert !Closed(st.Feed(env, Flatten(chunks[..|init|])));
    }
  }

  lemma NeverLate<M, T, E>(env: Env<M, T, E>, st: State<M, T, E>, data: seq<byte>)
    requires !Closed(st)
    ensures st.session.error != Some(Protocol(DataAfterTrailer)) ==>
              st.Feed(env, data).session.error != Some(Protocol(DataAfterTrailer))
  {
    if st.session.error.None? {
      BlocksNeverLate(env, st.session, Split(st.pending + data).blocks);
    }
  }

  lemma {:induction false} SameThenSame<M, T, E>(env: Env<M, T, E>, a: State<M, T, E>, b: State<M, T, E>,
                                                 frames: seq<TransportFrame<M>>)
    requires a.Same(b)
    ensures a.HandleFrames(env, frames).Same(b.HandleFrames(env, frames))
  {
    if a.session.error.Some? {
      HandleFramesAfterError(env, a, frames);
      HandleFramesAfterError(env, b, frames);
    } else {
      assert a == b;
    }
  }

  /** Anywhere in a run, two ways to cut the same bytes make no difference, whatever comes before and after them. */
  lemma AnyTwoCuts<M, T, E>(env: Env<M, T, E>, st: State<M, T, E>, before: seq<TransportFrame<M>>,
                            cut1: seq<seq<byte>>, cut2: seq<seq<byte>>, after: seq<TransportFrame<M>>)
    requires cut1 != [] && cut2 != [] && Flatten(cut1) == Flatten(cut2)
    requires var mid := st.HandleFrames(env, before);
      !Closed(mid) && NothingAfterTrailer(env, mid, cut1) && NothingAfterTrailer(env, mid, cut2)
    ensures st.HandleFrames(env, before + DataFrames(cut1) + after)
            .Same(st.HandleFrames(env, before + DataFrames(cut2) + after))
  {
    var mid := st.HandleFrames(env, before);
    ChunkingInvariance(env, mid, cut1);
    ChunkingInvariance(env, mid, cut2);
    HandleFramesAppend(env, st, before, DataFrames(cut1));
    HandleFramesAppend(env, st, before, DataFrames(cut2));
    HandleFramesAppend(env, st, before + DataFrames(cut1), after);
    HandleFramesAppend(env, st, before + DataFrames(cut2), after);
    SameThenSame(env, mid.HandleFrames(env, DataFrames(cut1)), mid.HandleFrames(env, DataFrames(cut2)), after);
  }

  // ------------------------------------------------------------------------------------------
  // Conservation

  /** Every byte fed is in a completed block or still pending, and what is pending is not a block. */
  lemma ConservesBytes<M, T, E>(env: Env<M, T, E>, st: State<M, T, E>, chunks: seq<seq<byte>>)
    requires !Closed(st) && chunks != []
    requires st.HandleFrames(env, DataFrames(chunks)).session.error.None?
    ensures var end := st.HandleFrames(env, DataFrames(chunks));
      exists p: Parsed :: Decomposes(p, st.pending + Flatten(chunks)) && p.rest == end.pending
                          && end.session == st.session.HandleBlocks(env, p.blocks)
  {
    ChunkingInvariance(env, st, chunks);
    if st.session.error.Some? {
      HandleFramesAfterError(env, st, DataFrames(chunks));
    }
    var p := Split(st.pending + Flatten(chunks));
    assert Decomposes(p, st.pending + Flatten(chunks));
  }

  /** The event a block stands for: its decoded payload, as metadata or as a message; never a compressed one. */
  ghost predicate Delivers<M, T, E>(env: Env<M, T, E>, raw: seq<byte>, event: Event<M, T>)
    requires IsBlock(raw)
  {
    && !Prefix(raw).compressed
    && (Prefix(raw).isMetadata <==> !event.Message?)
    && (match event
        case Header(md) => env.decodeMetadata(Payload(raw)) == Ok(md)
        case Trailer(md) => env.decodeMetadata(Payload(raw)) == Ok(md)
        case Message(m) => env.decode(Payload(raw)) == Ok(m))
  }

  lemma {:induction false} BlocksDelivered<M, T, E>(env: Env<M, T, E>, s: Session<M, T, E>, raws: seq<seq<byte>>)
    returns (delivered: seq<Event<M, T>>)
    requires forall i :: 0 <= i < |raws| ==> IsBlock(raws[i])
    requires s.HandleBlocks(env, raws).error.None?
    ensures s.HandleBlocks(env, raws).events == s.events + delivered
    ensures |delivered| == |raws| && forall i :: 0 <= i < |raws| ==> Delivers(env, raws[i], delivered[i])
    decreases |raws|
  {
    if raws == [] || s.error.Some? {
      delivered := [];
    } else {
      var s1 := s.HandleBlock(env, raws[0]);
      StopsAtError(env, s1, raws[1..]);
      var first := BlockDelivered(env, s, raws[0]);
      var others := BlocksDelivered(env, s1, raws[1..]);
      AppendAssoc(s.events, [first], others);
      delivered := [first] + others;
    }
  }

  lemma StopsAtError<M, T, E>(env: Env<M, T, E>, s: Session<M, T, E>, raws: seq<seq<byte>>)
    requires forall i :: 0 <= i < |raws| ==> IsBlock(raws[i])
    ensures s.error.Some? ==> s.HandleBlocks(env, raws) == s
  {
  }

  lemma BlockDelivered<M, T, E>(env: Env<M, T, E>, s: Session<M, T, E>, raw: seq<byte>) returns (event: Event<M, T>)
    requires IsBlock(raw) && s.error.None? && s.HandleBlock(env, raw).error.None?
    ensures s.HandleBlock(env, raw).events == s.events + [event] && Delivers(env, raw, event)
  {
    event := s.HandleBlock(env, raw).events[|s.events|];
  }

  /** Without error, the bytes fed are exactly the blocks of the delivered events, in order, and the pending tail. */
  lemma EveryBlockDelivered<M, T, E>(env: Env<M, T, E>, st: State<M, T, E>, chunks: seq<seq<byte>>)
    returns (blocks: seq<seq<byte>>, delivered: seq<Event<M, T>>)
    requires !Closed(st) && chunks != []
    requires st.HandleFrames(env, DataFrames(chunks)).session.error.None?
    ensures var end := st.HandleFrames(env, DataFrames(chunks));
      && Decomposes(Parsed(blocks, end.pending), st.pending + Flatten(chunks))
      && end.session.events == st.session.events + delivered
      && |delivered| == |blocks| && forall i :: 0 <= i < |blocks| ==> Delivers(env, blocks[i], delivered[i])
  {
    ChunkingInvariance(env, st, chunks);
    blocks := Split(st.pending + Flatten(chunks)).blocks;
    delivered := BlocksDelivered(env, st.session, blocks);
  }

  // ------------------------------------------------------------------------------------------
  // Round trip with the printer

  /** Receiving a list of payloads as messages, with no framing at all. */
  function Receive<M, T, E>(env: Env<M, T, E>, s: Session<M, T, E>, payloads: seq<seq<byte>>): Session<M, T, E>
    decreases |payloads|
  {
    if payloads == [] || s.error.Some? then s
    else
      match env.decode(payloads[0])
      case Err(e) => s.Fail(Thrown(e))
      case Ok(m) => Receive(env, s.HandleMessage(env, m), payloads[1..])
  }

  predicate Encodable(payloads: seq<seq<byte>>) {
    forall i :: 0 <= i < |payloads| ==> |payloads[i]| < UINT32_LIMIT
  }

  lemma FramesAreBlocks(payloads: seq<seq<byte>>)
    requires Encodable(payloads)
    ensures forall i :: 0 <= i < |payloads| ==> IsBlock(Frames(payloads)[i])
  {
    forall i | 0 <= i < |payloads|
      ensures IsBlock(Frames(payloads)[i])
    {
      FramePrefix(payloads[i]);
    }
  }

  /** Frames made by the printer are blocks, and handling them is receiving their payloads. */
  lemma {:induction false} HandleEncoded<M, T, E>(env: Env<M, T, E>, s: Session<M, T, E>, payloads: seq<seq<byte>>)
    requires Encodable(payloads) && s.receivedHeader
    ensures forall i :: 0 <= i < |payloads| ==> IsBlock(Frames(payloads)[i])
    ensures s.HandleBlocks(env, Frames(payloads)) == Receive(env, s, payloads)
    ensures Receive(env, s, payloads).receivedHeader
    ensures Receive(env, s, payloads).receivedTrailer == s.receivedTrailer
    decreases |payloads|
  {
    FramesAreBlocks(payloads);
    if payloads != [] && s.error.None? {
      FramePrefix(payloads[0]);
      assert Frames(payloads)[1..] == Frames(payloads[1..]);
      HandleEncoded(env, s.HandleBlock(env, Frames(payloads)[0]), payloads[1..]);
      StopsAtError(env, s.HandleBlock(env, Frames(payloads)[0]), Frames(payloads[1..]));
    }
  }

  /** A prefix of encoded bytes holds a prefix of the frames. */
  lemma PrefixOfEncoded(bytes: seq<byte>, tail: seq<byte>, blocks: seq<seq<byte>>)
    requires forall i :: 0 <= i < |blocks| ==> IsBlock(blocks[i])
    requires bytes + tail == Flatten(blocks)
    ensures Split(bytes).blocks <= blocks
  {
    SplitAppend(bytes, tail);
    assert Flatten(blocks) == Flatten(blocks) + [];
    SplitUnique(Parsed(blocks, []), bytes + tail);
  }

  /**
   * Round trip: encoded payloads, concatenated and cut anywhere, decode after a header to exactly those
   * payloads in order, and the decoder is back at an empty prefix buffer.
   */
  lemma RoundTripAnyChunks<M, T, E>(env: Env<M, T, E>, st: State<M, T, E>,
                                    payloads: seq<seq<byte>>, chunks: seq<seq<byte>>)
    requires st.session.receivedHeader && !st.session.receivedTrailer && st.session.error.None? && st.pending == []
    requires Encodable(payloads) && Flatten(chunks) == Flatten(Frames(payloads))
    ensures st.HandleFrames(env, DataFrames(chunks)).Same(State(Receive(env, st.session, payloads), []))
  {
    HandleEncoded(env, st.session, payloads);
    RoundTrip(payloads);
    if chunks == [] {
      assert payloads == [];
    } else {
      OpenThroughout(env, st, payloads, chunks);
      ChunkingInvariance(env, st, chunks);
      assert [] + Flatten(chunks) == Flatten(chunks);
    }
  }

  lemma OpenThroughout<M, T, E>(env: Env<M, T, E>, st: State<M, T, E>, payloads: seq<seq<byte>>, chunks: seq<seq<byte>>)
    requires st.session.receivedHeader && !st.session.receivedTrailer && st.session.error.None? && st.pending == []
    requires Encodable(payloads) && Flatten(chunks) == Flatten(Frames(payloads))
    ensures NothingAfterTrailer(env, st, chunks)
  {
    forall k | 0 < k < |chunks|
      ensures !Closed(st.Feed(env, Flatten(chunks[..k])))
    {
      CutAt(chunks, k);
      NoTrailerInEncoded(env, st, payloads, Flatten(chunks[..k]), Flatten(chunks[k..]));
    }
  }

  lemma NoTrailerInEncoded<M, T, E>(env: Env<M, T, E>, st: State<M, T, E>, payloads: seq<seq<byte>>,
                                    front: seq<byte>, back: seq<byte>)
    requires st.session.receivedHeader && !st.session.receivedTrailer && st.session.error.None? && st.pending == []
    requires Encodable(payloads) && front + back == Flatten(Frames(payloads))
    ensures !st.Feed(env, front).session.receivedTrailer
  {
    FramesAreBlocks(payloads);
    PrefixOfEncoded(front, back, Frames(payloads));
    FeedPayloads(env, st, payloads, front);
  }

  lemma HandleEncodedPrefix<M, T, E>(env: Env<M, T, E>, s: Session<M, T, E>,
                                     payloads: seq<seq<byte>>, blocks: seq<seq<byte>>)
    requires Encodable(payloads) && s.receivedHeader
    requires blocks <= Frames(payloads)
    ensures forall i :: 0 <= i < |blocks| ==> IsBlock(blocks[i])
    ensures s.HandleBlocks(env, blocks).receivedTrailer == s.receivedTrailer
  {
    var front := payloads[..|blocks|];
    assert blocks == Frames(front);
    HandleEncoded(env, s, front);
  }

  /**
   * A whole response body: encoded payloads and one trailing block, cut anywhere, provided the last data frame
   * is not empty. The decoder receives the payloads and then handles the last block, as if it were never cut.
   */
  lemma WholeResponse<M, T, E>(env: Env<M, T, E>, st: State<M, T, E>,
                               payloads: seq<seq<byte>>, last: seq<byte>, chunks: seq<seq<byte>>)
    requires st.session.receivedHeader && !st.session.receivedTrailer && st.session.error.None? && st.pending == []
    requires Encodable(payloads) && IsBlock(last)
    requires Flatten(chunks) == Flatten(Frames(payloads) + [last])
    requires chunks != [] && chunks[|chunks| - 1] != []
    ensures var s := Receive(env, st.session, payloads);
      st.HandleFrames(env, DataFrames(chunks)).Same(State(if s.error.Some? then s else s.HandleBlock(env, last), []))
  {
    var blocks := Frames(payloads) + [last];
    HandleEncoded(env, st.session, payloads);
    OpenBeforeLast(env, st, payloads, last, chunks);
    ChunkingInvariance(env, st, chunks);
    FeedBlocks(env, st, blocks, Flatten(chunks));
    HandleBlocksAppend(env, st.session, Frames(payloads), [last]);
    HandleOne(env, Receive(env, st.session, payloads), last);
  }

  /** Bytes that are whole blocks leave nothing pending. */
  lemma FeedBlocks<M, T, E>(env: Env<M, T, E>, st: State<M, T, E>, blocks: seq<seq<byte>>, bytes: seq<byte>)
    requires st.session.error.None? && !st.session.receivedTrailer && st.pending == []
    requires bytes == Flatten(blocks) && forall i :: 0 <= i < |blocks| ==> IsBlock(blocks[i])
    ensures st.Feed(env, bytes).Same(State(st.session.HandleBlocks(env, blocks), []))
  {
    assert [] + bytes == bytes == Flatten(blocks) + [];
    SplitUnique(Parsed(blocks, []), bytes);
  }

  lemma OpenBeforeLast<M, T, E>(env: Env<M, T, E>, st: State<M, T, E>, payloads: seq<seq<byte>>, last: seq<byte>,
                                chunks: seq<seq<byte>>)
    requires st.session.receivedHeader && !st.session.receivedTrailer && st.session.error.None? && st.pending == []
    requires Encodable(payloads) && IsBlock(last)
    requires Flatten(chunks) == Flatten(Frames(payloads) + [last])
    requires chunks != [] && chunks[|chunks| - 1] != []
    ensures NothingAfterTrailer(env, st, chunks)
  {
    forall k | 0 < k < |chunks|
      ensures !Closed(st.Feed(env, Flatten(chunks[..k])))
    {
      CutAt(chunks, k);
      NotClosedEarly(env, st, payloads, last, Flatten(chunks[..k]), Flatten(chunks[k..]));
    }
  }

  /** Short of the last byte the trailing block cannot have been completed. */
  lemma NotClosedEarly<M, T, E>(env: Env<M, T, E>, st: State<M, T, E>, payloads: seq<seq<byte>>, last: seq<byte>,
                                front: seq<byte>, back: seq<byte>)
    requires st.session.receivedHeader && !st.session.receivedTrailer && st.session.error.None? && st.pending == []
    requires Encodable(payloads) && IsBlock(last)
    requires front + back == Flatten(Frames(payloads) + [last]) && back != []
    ensures !st.Feed(env, front).session.receivedTrailer
  {
    FramesAreBlocks(payloads);
    BlocksOfPrefix(front, back, Frames(payloads), last);
    FeedPayloads(env, st, payloads, front);
  }

  /** Bytes that hold only payload frames bring no trailer. */
  lemma FeedPayloads<M, T, E>(env: Env<M, T, E>, st: State<M, T, E>, payloads: seq<seq<byte>>, front: seq<byte>)
    requires st.session.receivedHeader && !st.session.receivedTrailer && st.session.error.None? && st.pending == []
    requires Encodable(payloads) && Split(front).blocks <= Frames(payloads)
    ensures !st.Feed(env, front).session.receivedTrailer
  {
    HandleEncodedPrefix(env, st.session, payloads, Split(front).blocks);
    assert st.pending + front == front;
  }

  lemma HandleOne<M, T, E>(env: Env<M, T, E>, s: Session<M, T, E>, raw: seq<byte>)
    requires IsBlock(raw)
    ensures s.HandleBlocks(env, [raw]) == if s.error.Some? then s else s.HandleBlock(env, raw)
  {
    assert s.error.None? ==> s.HandleBlock(env, raw).HandleBlocks(env, [raw][1..]) == s.HandleBlock(env, raw);
  }

  lemma LastNonEmpty<T>(parts: seq<seq<T>>)
    requires parts != [] && parts[|parts| - 1] != []
    ensures Flatten(parts) != []
  {
    var init, last := parts[..|parts| - 1], parts[|parts| - 1];
    assert parts == init + [last];
    FlattenSnoc(init, last);
  }

  /** A cut before the last part leaves something to come. */
  lemma {:induction false} CutAt<T>(parts: seq<seq<T>>, k: nat)
    requires k < |parts|
    ensures Flatten(parts[..k]) + Flatten(parts[k..]) == Flatten(parts)
    ensures parts[|parts| - 1] != [] ==> Flatten(parts[k..]) != []
  {
    TakeDrop(parts, k);
    Cut(parts[..k], parts[k..]);
  }

  lemma TakeDrop<T>(s: seq<T>, k: nat)
    requires k < |s|
    ensures s[..k] + s[k..] == s && s[k..] != [] && s[k..][|s| - k - 1] == s[|s| - 1]
  {
  }

  lemma {:induction false} Cut<T>(front: seq<seq<T>>, back: seq<seq<T>>)
    requires back != []
    ensures Flatten(front) + Flatten(back) == Flatten(front + back)
    ensures back[|back| - 1] != [] ==> Flatten(back) != []
  {
    FlattenAppend(front, back);
    if back[|back| - 1] != [] {
      LastNonEmpty(back);
    }
  }

  /** Bytes short of the end of the last block hold some of the blocks before it. */
  lemma BlocksOfPrefix(bytes: seq<byte>, tail: seq<byte>, blocks: seq<seq<byte>>, last: seq<byte>)
    requires IsBlock(last) && forall i :: 0 <= i < |blocks| ==> IsBlock(blocks[i])
    requires bytes + tail == Flatten(blocks + [last]) && tail != []
    ensures Split(bytes).blocks <= blocks
  {
    PrefixOfEncoded(bytes, tail, blocks + [last]);
    var p := Split(bytes);
    assert |bytes| == |Flatten(p.blocks)| + |p.rest|;
    assert p.blocks != blocks + [last];
  }

  // ------------------------------------------------------------------------------------------
  // The order of what is delivered

  /** A header can only come first, at most one trailer comes, and messages need a header. */
  ghost predicate Ordered<M, T>(events: seq<Event<M, T>>) {
    && (forall i :: 0 <= i < |events| && events[i].Header? ==> i == 0)
    && (forall i, j :: 0 <= i < j < |events| && events[i].Trailer? ==> !events[j].Trailer?)
    && (forall i :: 0 <= i < |events| && events[i].Message? ==> events[0].Header?)
  }

  /** The flags say what has been delivered. */
  ghost predicate Consistent<M, T, E>(env: Env<M, T, E>, s: Session<M, T, E>) {
    && Ordered(s.events)
    && (s.receivedHeader <==> s.events != [] && s.events[0].Header?)
    && (s.receivedTrailer <==> exists i :: 0 <= i < |s.events| && s.events[i].Trailer?)
    && (s.receivedData ==> exists i :: 0 <= i < |s.events| && s.events[i].Message?)
    && s.error != Some(Protocol(HeaderAfterData))
    && Undisturbed(env, s)
  }

  /** Nothing is delivered after a delivery that threw. */
  ghost predicate Undisturbed<M, T, E>(env: Env<M, T, E>, s: Session<M, T, E>) {
    && (forall n :: 0 < n < |s.events| ==> env.react(s.events[..n]).None?)
    && (s.error.None? && s.events != [] ==> env.react(s.events).None?)
  }

  lemma DeliverUndisturbed<M, T, E>(env: Env<M, T, E>, s: Session<M, T, E>, event: Event<M, T>)
    requires Undisturbed(env, s) && s.error.None?
    ensures Undisturbed(env, s.Deliver(env, event))
  {
    var events := s.events + [event];
    assert forall n :: 0 < n < |events| ==> events[..n] == if n == |s.events| then s.events else s.events[..n];
  }

  lemma BlockKeepsOrder<M, T, E>(env: Env<M, T, E>, s: Session<M, T, E>, raw: seq<byte>)
    requires Consistent(env, s) && s.error.None? && IsBlock(raw)
    ensures Consistent(env, s.HandleBlock(env, raw))
    ensures s.events <= s.HandleBlock(env, raw).events
  {
    var md := env.decodeMetadata(Payload(raw));
    if md.Ok? {
      HeaderKeepsOrder(env, s, md.value);
      TrailerKeepsOrder(env, s, md.value);
    }
    var m := env.decode(Payload(raw));
    if m.Ok? && s.receivedHeader {
      MessageKeepsOrder(env, s, m.value);
    }
  }

  lemma HeaderKeepsOrder<M, T, E>(env: Env<M, T, E>, s: Session<M, T, E>, header: M)
    requires Consistent(env, s) && s.error.None?
    ensures Consistent(env, s.HandleHeader(env, header))
    ensures s.events <= s.HandleHeader(env, header).events
  {
    DeliverUndisturbed(env, s.(receivedHeader := true), Header(header));
    if s.events != [] && !s.receivedHeader {
      assert s.events[0].Trailer?;
    }
  }

  lemma TrailerKeepsOrder<M, T, E>(env: Env<M, T, E>, s: Session<M, T, E>, trailer: M)
    requires Consistent(env, s) && s.error.None?
    ensures Consistent(env, s.HandleTrailer(env, trailer))
    ensures s.events <= s.HandleTrailer(env, trailer).events
  {
    DeliverUndisturbed(env, s.(receivedTrailer := true), Trailer(trailer));
    var s' := s.HandleTrailer(env, trailer);
    if !s.receivedTrailer {
      assert s'.events[|s.events|].Trailer?;
      assert forall i :: 0 <= i < |s.events| ==> s'.events[i] == s.events[i];
    }
  }

  lemma MessageKeepsOrder<M, T, E>(env: Env<M, T, E>, s: Session<M, T, E>, message: T)
    requires Consistent(env, s) && s.error.None? && s.receivedHeader
    ensures Consistent(env, s.HandleMessage(env, message))
    ensures s.events <= s.HandleMessage(env, message).events
  {
    DeliverUndisturbed(env, s, Message(message));
    var s' := s.HandleMessage(env, message);
    assert s'.events[|s.events|].Message?;
    assert forall i :: 0 <= i < |s.events| ==> s'.events[i] == s.events[i];
  }

  lemma {:induction false} BlocksKeepOrder<M, T, E>(env: Env<M, T, E>, s: Session<M, T, E>, raws: seq<seq<byte>>)
    requires Consistent(env, s)
    requires forall i :: 0 <= i < |raws| ==> IsBlock(raws[i])
    ensures Consistent(env, s.HandleBlocks(env, raws)) && s.events <= s.HandleBlocks(env, raws).events
    decreases |raws|
  {
    if raws != [] && s.error.None? {
      BlockKeepsOrder(env, s, raws[0]);
      BlocksKeepOrder(env, s.HandleBlock(env, raws[0]), raws[1..]);
    }
  }

  /** One transport frame keeps the order, and a data frame after a trailer delivers nothing. */
  lemma FrameKeepsOrder<M, T, E>(env: Env<M, T, E>, st: State<M, T, E>, frame: TransportFrame<M>)
    requires Consistent(env, st.session)
    ensures Consistent(env, st.HandleFrame(env, frame).session)
    ensures st.session.events <= st.HandleFrame(env, frame).session.events
    ensures Closed(st) && frame.DataFrame? ==>
      st.HandleFrame(env, frame).session == st.session.Fail(Protocol(DataAfterTrailer))
  {
    if st.session.error.None? {
      match frame {
        case HeaderFrame(h) => HeaderKeepsOrder(env, st.session, h);
        case TrailerFrame(t) => TrailerKeepsOrder(env, st.session, t);
        case DataFrame(data) => BlocksKeepOrder(env, st.session, Split(st.pending + data).blocks);
      }
    }
  }

  /** Every run, whatever the transport delivers, keeps the order; nothing delivered is ever revoked. */
  lemma {:induction false} RunKeepsOrder<M, T, E>(env: Env<M, T, E>, st: State<M, T, E>, frames: seq<TransportFrame<M>>)
    requires Consistent(env, st.session)
    ensures Consistent(env, st.HandleFrames(env, frames).session)
    ensures st.session.events <= st.HandleFrames(env, frames).session.events
    decreases |frames|
  {
    if frames != [] {
      FrameKeepsOrder(env, st, frames[0]);
      RunKeepsOrder(env, st.HandleFrame(env, frames[0]), frames[1..]);
    }
  }

  /** The check for a header after data can never fire, because data needs a header first. */
  lemma HeaderAfterDataUnreachable<M, T, E>(env: Env<M, T, E>, frames: seq<TransportFrame<M>>, failure: Option<E>)
    ensures var s := InitState().HandleFrames(env, frames).Close(failure).session;
            Ordered(s.events) && (s.receivedData ==> s.receivedHeader) && s.error != Some(Protocol(HeaderAfterData))
  {
    RunKeepsOrder(env, InitState(), frames);
  }
}
