/** A stream read through events as an async iterable: packages/nice-grpc/src/utils/readableToAsyncIterable.ts. */
module ReadableIterable {
  import opened Basics

  /** Where the generator is: about to poll, suspended in `yield`, waiting for an event, or finished. */
  datatype Pc<E> = Ready | Yielded | Parked | Returned | Threw(error: Thrown<E>)

  /** The stream's error, or an `AbortError` with it as the cause. */
  datatype Thrown<E> = StreamError(error: Option<E>) | Aborted(cause: Option<E>)

  // ------------------------------------------------------------------------------------------
  // The generator and its event handlers

  datatype Consumer<E> = Consumer(
    pc: Pc<E>,
    error: Option<E>,
    errorEmitted: bool,
    endEmitted: bool,
    closeEmitted: bool)
  {
    /** `next` called by the stream: resolves the promise the generator waits for, if it does. */
    function Wake(): Consumer<E> { if pc.Parked? then this.(pc := Ready) else this }

    function OnError(e: E): Consumer<E> { this.(error := Some(e), errorEmitted := true).Wake() }

    function OnEnd(): Consumer<E> { this.(endEmitted := true).Wake() }

    function OnClose(): Consumer<E> { this.(closeEmitted := true).Wake() }

    /** One turn of the loop; `read` says whether a chunk could be read. */
    function Poll(read: bool, aborted: bool): Consumer<E> {
      if read then this.(pc := Yielded)
      else if errorEmitted then this.(pc := Threw(if aborted then Aborted(error) else StreamError(error)))
      else if endEmitted || closeEmitted then this.(pc := Returned)
      else this.(pc := Parked)
    }
  }

  /** The generator as written: `callback` is set while, and only while, the generator waits. */
  class StreamIterator<E> {
    var callback: bool
    var resumed: Pc<E>
    var error: Option<E>
    var errorEmitted: bool
    var endEmitted: bool
    var closeEmitted: bool

    ghost predicate Valid()
      reads this
    {
      resumed != Parked
    }

    ghost function View(): Consumer<E>
      reads this
    {
      Consumer(if callback then Parked else resumed, error, errorEmitted, endEmitted, closeEmitted)
    }

    constructor (error: Option<E>, errorEmitted: bool, endEmitted: bool, closeEmitted: bool)
      ensures Valid() && View() == Consumer(Ready, error, errorEmitted, endEmitted, closeEmitted)
    {
      callback, resumed := false, Ready;
      this.error, this.errorEmitted, this.endEmitted, this.closeEmitted :=
        error, errorEmitted, endEmitted, closeEmitted;
    }

    method OnReadable()
      requires Valid()
      modifies this
      ensures Valid() && View() == old(View()).Wake()
    {
      if callback {
        callback, resumed := false, Ready;
      }
    }

    method OnError(err: E)
      requires Valid()
      modifies this
      ensures Valid() && View() == old(View()).OnError(err)
    {
      error := Some(err);
      errorEmitted := true;
      OnReadable();
    }

    method OnEnd()
      requires Valid()
      modifies this
      ensures Valid() && View() == old(View()).OnEnd()
    {
      endEmitted := true;
      OnReadable();
    }

    method OnClose()
      requires Valid()
      modifies this
      ensures Valid() && View() == old(View()).OnClose()
    {
      closeEmitted := true;
      OnReadable();
    }

    method Poll(read: bool, aborted: bool)
      requires Valid() && View().pc == Ready
      modifies this
      ensures Valid() && View() == old(View()).Poll(read, aborted)
    {
      if read {
        resumed := Yielded;
      } else if errorEmitted {
        resumed := Threw(if aborted then Aborted(error) else StreamError(error));
      } else if endEmitted {
        resumed := Returned;
      } else if closeEmitted {
        resumed := Returned;
      } else {
        callback := true;
      }
    }
  }

  // ------------------------------------------------------------------------------------------
  // The stream it reads from, as far as events and `read` go

  datatype Stream<T, E> = Stream(
    buffer: seq<T>,
    sourceEnded: bool,
    destroyed: bool,
    needReadable: bool,
    readablePending: bool,
    endPending: bool,
    errorPending: Option<E>,
    closePending: bool)
  {
    /** A side effect of reading up to the end of the buffer. */
    function Drained(): Stream<T, E> {
      if buffer != [] then this
      else if sourceEnded then this.(endPending := true)
      else this.(needReadable := true)
    }
  }

  datatype System<T, E> = System(
    consumer: Consumer<E>,
    stream: Stream<T, E>,
    signalAborted: bool,
    arrived: seq<T>,
    yielded: seq<T>)

  datatype Action<T, E> =
    | Arrive(chunk: T)            // the source pushes a chunk
    | SourceEnd                   // the source has no more chunks
    | Destroy(cause: Option<E>)   // the stream is destroyed, possibly with an error
    | AbortSignal
    | EmitReadable(again: bool)
    | EmitEnd
    | EmitError
    | EmitClose
    | Resume                      // the reader of the iterable asks for the next chunk
    | Poll

  predicate Enabled<T, E>(s: System<T, E>, a: Action<T, E>) {
    match a
    case Arrive(_) => !s.stream.sourceEnded && !s.stream.destroyed
    case SourceEnd => !s.stream.sourceEnded && !s.stream.destroyed
    case Destroy(_) => !s.stream.destroyed
    case AbortSignal => true
    case EmitReadable(_) => s.stream.readablePending
    case EmitEnd => s.stream.endPending && s.stream.buffer == [] && !s.stream.destroyed && !s.consumer.endEmitted
    case EmitError => s.stream.errorPending.Some?
    case EmitClose => s.stream.closePending && s.stream.errorPending.None?
    case Resume => s.consumer.pc == Yielded
    case Poll => s.consumer.pc == Ready
  }

  function Step<T, E>(s: System<T, E>, a: Action<T, E>): System<T, E>
    requires Enabled(s, a)
  {
    var st := s.stream;
    match a
    case Arrive(chunk) =>
      s.(arrived := s.arrived + [chunk],
         stream := st.(buffer := st.buffer + [chunk], needReadable := false,
                       readablePending := st.readablePending || st.needReadable))
    case SourceEnd => s.(stream := st.(sourceEnded := true, readablePending := true))
    case Destroy(cause) => s.(stream := st.(destroyed := true, errorPending := cause, closePending := true))
    case AbortSignal => s.(signalAborted := true)
    case EmitReadable(again) =>
      // nothing is emitted by a destroyed stream, or by one that has become empty
      var emits := !st.destroyed && (st.buffer != [] || st.sourceEnded);
      s.(stream := st.(readablePending := false, needReadable := st.needReadable || again || st.buffer == []),
         consumer := if emits then s.consumer.Wake() else s.consumer)
    case EmitEnd => s.(stream := st.(endPending := false), consumer := s.consumer.OnEnd())
    case EmitError => s.(stream := st.(errorPending := None), consumer := s.consumer.OnError(st.errorPending.value))
    case EmitClose => s.(stream := st.(closePending := false), consumer := s.consumer.OnClose())
    case Resume => s.(consumer := s.consumer.(pc := Ready))
    case Poll =>
      if st.destroyed then s.(consumer := s.consumer.Poll(false, s.signalAborted))
      else if st.buffer != [] then
        s.(yielded := s.yielded + [st.buffer[0]],
           stream := st.(buffer := st.buffer[1..]).Drained(),
           consumer := s.consumer.Poll(true, s.signalAborted))
      else s.(stream := st.Drained(), consumer := s.consumer.Poll(false, s.signalAborted))
  }

  /** A stream at the moment the iteration starts; events emitted before show in the flags read from it. */
  ghost predicate Init<T, E>(s: System<T, E>) {
    var c, st := s.consumer, s.stream;
    && c.pc == Ready && s.arrived == st.buffer && s.yielded == []
    && (c.errorEmitted ==> c.error.Some?)
    && (c.endEmitted || st.endPending ==> st.sourceEnded && st.buffer == [])
    && (st.errorPending.Some? || st.closePending || c.closeEmitted ==> st.destroyed)
    && (st.destroyed ==> st.closePending || c.closeEmitted)
  }

  ghost predicate Inv<T, E>(s: System<T, E>) {
    var c, st := s.consumer, s.stream;
    // chunks are neither lost, repeated nor reordered
    && s.arrived == s.yielded + st.buffer
    // a generator that waits has something to wait for
    && (c.pc == Parked ==> !c.errorEmitted && !c.endEmitted && !c.closeEmitted)
    && (c.pc == Parked && !st.destroyed && st.buffer != [] ==> st.readablePending)
    && (c.pc == Parked && !st.destroyed && st.buffer == [] ==>
          if st.sourceEnded then st.readablePending || st.endPending else st.readablePending || st.needReadable)
    && (st.destroyed ==> st.closePending || c.closeEmitted)
    && (st.errorPending.Some? || st.closePending || c.closeEmitted ==> st.destroyed)
    && (st.endPending || c.endEmitted ==> st.sourceEnded && st.buffer == [])
    && (c.errorEmitted ==> c.error.Some?)
    && (c.pc == Returned ==> c.endEmitted || c.closeEmitted)
  }

  lemma InitInv<T, E>(s: System<T, E>)
    requires Init(s)
    ensures Inv(s)
  {
  }

  lemma PollInv<T, E>(s: System<T, E>)
    requires Inv(s) && s.consumer.pc == Ready
    ensures Inv(Step(s, Poll))
  {
    if s.stream.buffer != [] {
      assert s.stream.buffer == [s.stream.buffer[0]] + s.stream.buffer[1..];
    }
  }

  /** What happens inside the stream, or on the reader's side. */
  lemma SilentInv<T, E>(s: System<T, E>, a: Action<T, E>)
    requires Inv(s) && Enabled(s, a)
    requires a.Arrive? || a.SourceEnd? || a.Destroy? || a.AbortSignal? || a.Resume?
    ensures Inv(Step(s, a))
  {
  }

  /** What the stream emits. */
  lemma EmitInv<T, E>(s: System<T, E>, a: Action<T, E>)
    requires Inv(s) && Enabled(s, a)
    requires a.EmitReadable? || a.EmitEnd? || a.EmitError? || a.EmitClose?
    ensures Inv(Step(s, a))
  {
  }

  lemma StepInv<T, E>(s: System<T, E>, a: Action<T, E>)
    requires Inv(s) && Enabled(s, a)
    ensures Inv(Step(s, a))
  {
    match a {
      case Poll => PollInv(s);
      case EmitReadable(_) => EmitInv(s, a);
      case EmitEnd => EmitInv(s, a);
      case EmitError => EmitInv(s, a);
      case EmitClose => EmitInv(s, a);
      case _ => SilentInv(s, a);
    }
  }

  /** The states a run of enabled actions passes through. */
  ghost predicate IsRun<T, E>(states: seq<System<T, E>>, actions: seq<Action<T, E>>) {
    && |states| == |actions| + 1
    && Init(states[0])
    && forall i :: 0 <= i < |actions| ==> Enabled(states[i], actions[i]) && states[i + 1] == Step(states[i], actions[i])
  }

  lemma {:induction false} RunInv<T, E>(states: seq<System<T, E>>, actions: seq<Action<T, E>>, n: nat)
    requires IsRun(states, actions) && n < |states|
    ensures Inv(states[n])
  {
    if n == 0 {
      InitInv(states[0]);
    } else {
      RunInv(states, actions, n - 1);
      StepInv(states[n - 1], actions[n - 1]);
    }
  }

  /** The next event that will wake the generator. */
  ghost predicate WakesNext<T, E>(s: System<T, E>, a: Action<T, E>) {
    (a.EmitReadable? || a.EmitEnd? || a.EmitError? || a.EmitClose?) && Enabled(s, a) && Step(s, a).consumer.pc == Ready
  }

  /** There is a chunk to read, or the stream has ended or been destroyed. */
  predicate SomethingToReport<T, E>(st: Stream<T, E>) {
    st.destroyed || st.buffer != [] || st.sourceEnded
  }

  /**
   * No lost wake-up: in every state of every run, a waiting generator has been told nothing yet, and as soon as
   * the stream has something to report, an event is on its way that will wake it.
   */
  lemma NoLostWakeUp<T, E>(states: seq<System<T, E>>, actions: seq<Action<T, E>>, n: nat)
    requires IsRun(states, actions) && n < |states| && states[n].consumer.pc == Parked
    ensures var c := states[n].consumer; !c.errorEmitted && !c.endEmitted && !c.closeEmitted
    ensures SomethingToReport(states[n].stream) ==> exists a :: WakesNext(states[n], a)
  {
    RunInv(states, actions, n);
    var s := states[n];
    if s.stream.destroyed {
      assert WakesNext(s, if s.stream.errorPending.Some? then EmitError else EmitClose);
    } else if SomethingToReport(s.stream) {
      assert WakesNext(s, if s.stream.readablePending then EmitReadable(true) else EmitEnd);
    }
  }

  /**
   * What is yielded is what arrived, in order and without gaps; a normal finish never hides an error that has been
   * emitted, and after an end without destruction it is complete.
   */
  lemma YieldsWhatArrived<T, E>(states: seq<System<T, E>>, actions: seq<Action<T, E>>, n: nat)
    requires IsRun(states, actions) && n < |states|
    ensures states[n].yielded <= states[n].arrived
    ensures states[n].consumer.pc == Returned && states[n].consumer.endEmitted ==>
              states[n].yielded == states[n].arrived
    ensures n < |actions| && actions[n].Poll? && states[n + 1].consumer.pc == Returned ==>
              !states[n].consumer.errorEmitted && (states[n].consumer.endEmitted || states[n].stream.destroyed)
    ensures n < |actions| && actions[n].Poll? && states[n + 1].consumer.pc.Threw? ==>
              states[n].consumer.errorEmitted
              && states[n + 1].consumer.pc.error == (if states[n].signalAborted then Aborted(states[n].consumer.error)
                                                     else StreamError(states[n].consumer.error))
  {
    RunInv(states, actions, n);
    if n < |actions| {
      assert Enabled(states[n], actions[n]) && states[n + 1] == Step(states[n], actions[n]);
    }
  }

  ghost predicate Did<T, E>(actions: seq<Action<T, E>>, n: nat, a: Action<T, E>)
    requires n <= |actions|
  {
    exists i :: 0 <= i < n && actions[i] == a
  }

  /** The error of the latest `error` event, or else the one the stream had at the start. */
  ghost function LastError<T, E>(states: seq<System<T, E>>, actions: seq<Action<T, E>>, n: nat): Option<E>
    requires |states| == |actions| + 1 && n <= |actions|
  {
    if n == 0 then states[0].consumer.error
    else if actions[n - 1].EmitError? then states[n - 1].stream.errorPending
    else LastError(states, actions, n - 1)
  }

  lemma {:induction false} DidStep<T, E>(actions: seq<Action<T, E>>, n: nat, a: Action<T, E>)
    requires n < |actions|
    ensures Did(actions, n + 1, a) <==> Did(actions, n, a) || actions[n] == a
  {
  }

  ghost predicate EventsMove<T, E>(s: System<T, E>, a: Action<T, E>, s': System<T, E>) {
    var c, c' := s.consumer, s'.consumer;
    && c'.errorEmitted == (c.errorEmitted || a == EmitError) && c'.endEmitted == (c.endEmitted || a == EmitEnd)
    && c'.closeEmitted == (c.closeEmitted || a == EmitClose)
    && c'.error == (if a == EmitError then s.stream.errorPending else c.error)
    && s'.signalAborted == (s.signalAborted || a == AbortSignal)
  }

  lemma {:induction false} PollEvents<T, E>(s: System<T, E>)
    requires s.consumer.pc == Ready
    ensures EventsMove(s, Poll, Step(s, Poll))
  {
  }

  lemma {:induction false} StepEvents<T, E>(s: System<T, E>, a: Action<T, E>)
    requires Enabled(s, a)
    ensures EventsMove(s, a, Step(s, a))
  {
    if a == Poll {
      PollEvents(s);
    }
  }

  /** What the generator has been told is what has been emitted. */
  lemma {:induction false} EventsTold<T, E>(states: seq<System<T, E>>, actions: seq<Action<T, E>>, n: nat)
    requires IsRun(states, actions) && n < |states|
    ensures var c, c0 := states[n].consumer, states[0].consumer;
      && (c.errorEmitted <==> c0.errorEmitted || Did(actions, n, EmitError))
      && (c.endEmitted <==> c0.endEmitted || Did(actions, n, EmitEnd))
      && (c.closeEmitted <==> c0.closeEmitted || Did(actions, n, EmitClose))
      && c.error == LastError(states, actions, n)
      && (states[n].signalAborted <==> states[0].signalAborted || Did(actions, n, AbortSignal))
  {
    if n > 0 {
      EventsTold(states, actions, n - 1);
      RunStep(states, actions, n - 1);
      StepEvents(states[n - 1], actions[n - 1]);
      DidStep(actions, n - 1, EmitError);
      DidStep(actions, n - 1, EmitEnd);
      DidStep(actions, n - 1, EmitClose);
      DidStep(actions, n - 1, AbortSignal);
    }
  }

  lemma {:induction false} RunStep<T, E>(states: seq<System<T, E>>, actions: seq<Action<T, E>>, i: nat)
    requires IsRun(states, actions) && i < |actions|
    ensures Enabled(states[i], actions[i]) && states[i + 1] == Step(states[i], actions[i])
  {
  }

  /**
   * One turn of the loop, told from what the stream has and has emitted: a chunk that can be read comes first, then an
   * error, as the cause of an abort if the signal is aborted, then an end or a close, and else it waits.
   */
  lemma {:induction false} PollExactly<T, E>(states: seq<System<T, E>>, actions: seq<Action<T, E>>, n: nat)
    requires IsRun(states, actions) && n < |actions| && actions[n] == Poll
    ensures var s, s', c0 := states[n], states[n + 1], states[0].consumer;
            var errors := c0.errorEmitted || Did(actions, n, EmitError);
            var ends := c0.endEmitted || Did(actions, n, EmitEnd) || c0.closeEmitted || Did(actions, n, EmitClose);
            var aborted := states[0].signalAborted || Did(actions, n, AbortSignal);
            var error := LastError(states, actions, n);
      if !s.stream.destroyed && s.stream.buffer != [] then
        && s'.consumer.pc == Yielded && s'.yielded == s.yielded + [s.stream.buffer[0]]
        && s'.stream.buffer == s.stream.buffer[1..]
      else
        && s'.yielded == s.yielded && s'.stream.buffer == s.stream.buffer
        && s'.consumer.pc == if errors then Threw(if aborted then Aborted(error) else StreamError(error))
                             else if ends then Returned
                             else Parked
  {
    EventsTold(states, actions, n);
    RunStep(states, actions, n);
  }

  /** The stream was destroyed in the first `n` steps, or from the start, with chunks still buffered. */
  ghost predicate DestroyedWithChunks<T, E>(states: seq<System<T, E>>, actions: seq<Action<T, E>>, n: nat)
    requires IsRun(states, actions) && n < |states|
  {
    || (states[0].stream.destroyed && states[0].stream.buffer != [])
    || exists i :: 0 <= i < n && actions[i].Destroy? && states[i].stream.buffer != []
  }

  /** A destroyed stream stays destroyed, and its buffer is never touched again. */
  lemma StepFrozen<T, E>(s: System<T, E>, a: Action<T, E>)
    requires Enabled(s, a)
    ensures s.stream.destroyed ==> Step(s, a).stream.destroyed && Step(s, a).stream.buffer == s.stream.buffer
    ensures !s.stream.destroyed ==> (Step(s, a).stream.destroyed <==> a.Destroy?)
    ensures a.Destroy? ==> Step(s, a).stream.buffer == s.stream.buffer
  {
  }

  lemma {:induction false} DestroyedBuffer<T, E>(states: seq<System<T, E>>, actions: seq<Action<T, E>>, n: nat)
    requires IsRun(states, actions) && n < |states|
    ensures DestroyedWithChunks(states, actions, n) <==> states[n].stream.destroyed && states[n].stream.buffer != []
  {
    if n > 0 {
      DestroyedBuffer(states, actions, n - 1);
      assert Enabled(states[n - 1], actions[n - 1]) && states[n] == Step(states[n - 1], actions[n - 1]);
      StepFrozen(states[n - 1], actions[n - 1]);
    }
  }

  /**
   * A normal finish is complete exactly when the stream was not destroyed, by its user or its source, while it
   * still had chunks buffered.
   */
  lemma CompleteExactly<T, E>(states: seq<System<T, E>>, actions: seq<Action<T, E>>, n: nat)
    requires IsRun(states, actions) && n < |states| && states[n].consumer.pc == Returned
    ensures states[n].yielded == states[n].arrived <==> !DestroyedWithChunks(states, actions, n)
  {
    RunInv(states, actions, n);
    DestroyedBuffer(states, actions, n);
    var s := states[n];
    assert s.stream.buffer == [] ==> s.yielded + s.stream.buffer == s.yielded;
    assert s.stream.buffer != [] ==> |s.arrived| > |s.yielded|;
  }

  /** It does happen: a stream closed early, without an error, ends the iteration and drops what is buffered. */
  lemma EarlyCloseTruncates<T, E>(chunk: T) returns (states: seq<System<T, E>>, actions: seq<Action<T, E>>)
    ensures IsRun(states, actions) && DestroyedWithChunks(states, actions, |actions|)
    ensures states[|actions|].consumer.pc == Returned && states[|actions|].yielded == [] != states[|actions|].arrived
  {
    var s0 := System<T, E>.System(Consumer(Ready, None, false, false, false),
                                  Stream([chunk], false, false, true, true, false, None, false), false, [chunk], []);
    var s1 := Step(s0, Destroy(None));
    var s2 := Step(s1, EmitClose);
    var s3 := Step(s2, Poll);
    states, actions := [s0, s1, s2, s3], [Destroy(None), EmitClose, Poll];
    assert actions[0].Destroy? && states[0].stream.buffer != [];
  }
}
