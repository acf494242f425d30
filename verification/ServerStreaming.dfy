/**
 * The driver of a streaming server call: packages/nice-grpc/src/server/handleServerStreamingCall.ts and
 * handleBidiStreamingCall.ts (the two loops are the same), with the call context of createCallContext.ts.
 */
module ServerStreaming {
  import opened Basics

  datatype Error = ServerError(code: nat, details: string) | AbortError | OtherError

  const CANCELLED: nat := 1
  const UNKNOWN: nat := 2

  /** What the driver does to the call. */
  datatype CallAction<T> = SendMetadata | Write(value: T) | End | Fail(code: nat, details: string)

  /** `createErrorStatusObject`. */
  function ErrorStatus<T>(e: Error): CallAction<T> {
    match e
    case ServerError(code, details) => Fail(code, details)
    case AbortError => Fail(CANCELLED, "The operation was cancelled")
    case OtherError => Fail(UNKNOWN, "Unknown server error occurred")
  }

  /** How the handler's generator is resumed. */
  datatype Resume = Next | Return | Throw(error: Error)

  /** Before the handler is called, waiting for the generator, waiting for `drain`, or done. */
  datatype Pc = Starting | Running(resumed: Resume) | Draining | Finished

  /** What `call.write` does: takes the value, takes it but asks to wait, or throws. */
  datatype WriteResult = Accepted | Full | Throws(error: Error)

  datatype Driver<T> = Driver(
    pc: Pc,
    headerEmpty: bool,
    headerSent: bool,
    cancelArmed: bool,
    aborted: bool,
    metadataSent: bool,
    log: seq<CallAction<T>>)
  {
    function SendHeader(): Driver<T> {
      if headerSent then this
      else if headerEmpty then this.(headerSent := true)
      else this.(headerSent := true, metadataSent := true, log := log + [SendMetadata])
    }

    /** `waitForEvent` or `write` threw: an abort asks the generator to return, the rest is thrown into it. */
    function Interrupted(e: Error): Driver<T> {
      this.(pc := Running(if e.AbortError? then Return else Throw(e)))
    }

    function Yields(value: T, write: WriteResult): Driver<T> {
      var s := SendHeader();
      var w := s.(log := s.log + [Write(value)]);
      match write
      case Accepted => w.(pc := Running(Next))
      case Full => if aborted then w.Interrupted(AbortError) else w.(pc := Draining)
      case Throws(e) => w.Interrupted(e)
    }

    function Cleanup(): Driver<T> { this.(cancelArmed := false).SendHeader() }

    function Finish(last: CallAction<T>): Driver<T> { this.(pc := Finished, log := log + [last]) }

    function Returns(hasValue: bool): Driver<T> {
      if hasValue then this.(pc := Running(Throw(OtherError))) else Cleanup().Finish(End)
    }

    function Cancelled(): Driver<T> {
      var s := this.(aborted := aborted || cancelArmed, cancelArmed := false);
      if pc.Draining? && cancelArmed then s.Interrupted(AbortError) else s
    }

    /** `close` and `finish` make a later cancellation ineffective. */
    function Disarm(): Driver<T> { this.(cancelArmed := false) }
  }

  /** The same as updates of the closure variables. */
  class CallDriver<T> {
    var pc: Pc
    var headerEmpty: bool
    var headerSent: bool
    var cancelArmed: bool
    var aborted: bool
    /** A property of the call object. */
    var metadataSent: bool
    var log: seq<CallAction<T>>

    ghost function View(): Driver<T>
      reads this
    {
      Driver(pc, headerEmpty, headerSent, cancelArmed, aborted, metadataSent, log)
    }

    /** A call that was cancelled before the handler starts has its signal aborted at once. */
    constructor (cancelled: bool)
      ensures View() == InitDriver(cancelled)
      ensures aborted == cancelled && cancelArmed == !cancelled && log == [] && !headerSent && pc == Starting
    {
      pc, headerEmpty, headerSent, metadataSent, log := Starting, true, false, false, [];
      cancelArmed, aborted := !cancelled, cancelled;
    }

    method SendHeader()
      modifies this
      ensures View() == old(View()).SendHeader()
    {
      if headerSent {
        return;
      }
      if !headerEmpty {
        log := log + [SendMetadata];
        metadataSent := true;
      }
      headerSent := true;
    }

    method Interrupt(err: Error)
      modifies this
      ensures View() == old(View()).Interrupted(err)
    {
      if err.AbortError? {
        pc := Running(Return);
      } else {
        pc := Running(Throw(err));
      }
    }

    method OnYield(value: T, write: WriteResult)
      modifies this
      ensures View() == old(View()).Yields(value, write)
    {
      SendHeader();
      log := log + [Write(value)];
      match write {
        case Accepted => pc := Running(Next);
        case Full =>
          if aborted {
            Interrupt(AbortError);
          } else {
            pc := Draining;
          }
        case Throws(e) => Interrupt(e);
      }
    }

    method OnReturn(hasValue: bool)
      modifies this
      ensures View() == old(View()).Returns(hasValue)
    {
      if hasValue {
        pc := Running(Throw(OtherError));
        return;
      }
      cancelArmed := false;
      SendHeader();
      log := log + [End];
      pc := Finished;
    }

    method OnThrow(err: Error)
      modifies this
      ensures View() == old(View()).Cleanup().Finish(ErrorStatus(err))
    {
      cancelArmed := false;
      SendHeader();
      log := log + [ErrorStatus(err)];
      pc := Finished;
    }

    method OnCancelled()
      modifies this
      ensures View() == old(View()).Cancelled()
    {
      if cancelArmed {
        aborted := true;
        if pc.Draining? {
          Interrupt(AbortError);
        }
      }
      cancelArmed := false;
    }

    method Possible(a: Action<T>) returns (r: bool)
      ensures r <==> Enabled(View(), a)
    {
      match a {
        case HandlerStarts => r := pc.Starting?;
        case HandlerThrows(_) => r := pc.Starting?;
        case GeneratorYields(_, _) => r := pc.Running?;
        case GeneratorReturns(_) => r := pc.Running?;
        case GeneratorThrows(_) => r := pc.Running?;
        case Drain => r := pc.Draining?;
        case _ => r := true;
      }
    }

    /** One turn: the generator answers, or an event of the call fires. */
    method Perform(a: Action<T>)
      modifies this
      ensures View() == Step(old(View()), a)
    {
      match a {
        case HandlerStarts => pc := Running(Next);
        case HandlerThrows(e) =>
          log := log + [ErrorStatus(e)];
          pc := Finished;
        case GeneratorYields(value, write) => OnYield(value, write);
        case GeneratorReturns(hasValue) => OnReturn(hasValue);
        case GeneratorThrows(e) => OnThrow(e);
        case Drain => pc := Running(Next);
        case CancelledEvent => OnCancelled();
        case CloseOrFinishEvent => cancelArmed := false;
        case UserSetsHeader(empty) => headerEmpty := empty;
        case UserSendsHeader => SendHeader();
      }
    }
  }

  // ------------------------------------------------------------------------------------------
  // Every interleaving of the generator's answers with the call's events

  datatype Action<T> =
    | HandlerStarts
    | HandlerThrows(error: Error)             // the handler, not yet a generator, throws
    | GeneratorYields(value: T, write: WriteResult)
    | GeneratorReturns(hasValue: bool)
    | GeneratorThrows(error: Error)
    | Drain
    | CancelledEvent
    | CloseOrFinishEvent
    | UserSetsHeader(empty: bool)
    | UserSendsHeader

  predicate Enabled<T>(s: Driver<T>, a: Action<T>) {
    match a
    case HandlerStarts => s.pc.Starting?
    case HandlerThrows(_) => s.pc.Starting?
    case GeneratorYields(_, _) => s.pc.Running?
    case GeneratorReturns(_) => s.pc.Running?
    case GeneratorThrows(_) => s.pc.Running?
    case Drain => s.pc.Draining?
    case CancelledEvent => true
    case CloseOrFinishEvent => true
    case UserSetsHeader(_) => true
    case UserSendsHeader => true    // also after the end, by whoever still has the context
  }

  function Step<T>(s: Driver<T>, a: Action<T>): Driver<T> {
    match a
    case HandlerStarts => s.(pc := Running(Next))
    case HandlerThrows(e) => s.Finish(ErrorStatus(e))
    case GeneratorYields(value, write) => s.Yields(value, write)
    case GeneratorReturns(hasValue) => s.Returns(hasValue)
    case GeneratorThrows(e) => s.Cleanup().Finish(ErrorStatus(e))
    case Drain => s.(pc := Running(Next))
    case CancelledEvent => s.Cancelled()
    case CloseOrFinishEvent => s.Disarm()
    case UserSetsHeader(empty) => s.(headerEmpty := empty)
    case UserSendsHeader => s.SendHeader()
  }

  function InitDriver<T>(cancelled: bool): Driver<T> { Driver(Starting, true, false, !cancelled, cancelled, false, []) }

  ghost predicate IsRun<T>(states: seq<Driver<T>>, actions: seq<Action<T>>) {
    && |states| == |actions| + 1
    && states[0] == InitDriver(states[0].aborted)
    && forall i :: 0 <= i < |actions| ==> Enabled(states[i], actions[i]) && states[i + 1] == Step(states[i], actions[i])
  }

  /** What an action makes the driver do to the call, apart from the header. */
  function Effect<T>(a: Action<T>): seq<CallAction<T>> {
    match a
    case GeneratorYields(v, _) => [Write(v)]
    case GeneratorReturns(false) => [End]
    case GeneratorThrows(e) => [ErrorStatus(e)]
    case HandlerThrows(e) => [ErrorStatus(e)]
    case _ => []
  }

  /** The header metadata, if it was sent at all. */
  function HeaderLog<T>(s: Driver<T>): seq<CallAction<T>> { if s.metadataSent then [SendMetadata] else [] }

  /** The user asks for the header, or the driver needs it sent. */
  predicate SendsHeader<T>(a: Action<T>) {
    a.UserSendsHeader? || a.GeneratorYields? || a == GeneratorReturns(false) || a.GeneratorThrows?
  }

  /** What matters of the actions so far. */
  datatype History<T> = History(
    writes: seq<CallAction<T>>,    // the values yielded, as writes, in order
    endings: seq<CallAction<T>>,   // what ends the call
    startFailed: bool,             // the handler has thrown before it was a generator
    headerEmpty: bool,             // as the user last left the header
    settled: bool,                 // the header has been sent, if there was anything to send
    metadata: bool,                // there was
    late: bool)                    // the header metadata has been sent after the ending
  {
    function Effects(): seq<CallAction<T>> { writes + endings }

    /** The handler failed to start without having sent the header, which is not empty when it is now asked for. */
    predicate SendsLate(a: Action<T>) { a.UserSendsHeader? && startFailed && !settled && !headerEmpty }

    function Then(a: Action<T>): History<T> {
      History(
        writes + if a.GeneratorYields? then Effect(a) else [],
        endings + if a.GeneratorYields? then [] else Effect(a),
        startFailed || a.HandlerThrows?,
        if a.UserSetsHeader? then a.empty else headerEmpty,
        settled || SendsHeader(a),
        metadata || (SendsHeader(a) && !settled && !headerEmpty),
        late || SendsLate(a))
    }
  }

  /** The first `n` actions. */
  function Told<T>(actions: seq<Action<T>>, n: nat): History<T>
    requires n <= |actions|
  {
    if n == 0 then History([], [], false, true, false, false, false) else Told(actions, n - 1).Then(actions[n - 1])
  }

  predicate StartFailed<T>(actions: seq<Action<T>>, n: nat)
    requires n <= |actions|
  {
    exists i :: 0 <= i < n && actions[i].HandlerThrows?
  }

  lemma {:induction false} ToldStartFailed<T>(actions: seq<Action<T>>, n: nat)
    requires n <= |actions|
    ensures Told(actions, n).startFailed <==> StartFailed(actions, n)
    ensures Told(actions, n).settled <==> exists i :: 0 <= i < n && SendsHeader(actions[i])
  {
    if n > 0 {
      ToldStartFailed(actions, n - 1);
    }
  }

  /**
   * The log is the header, if any, then one write for each yielded value, then the ending; only a late header comes
   * after the ending. The header is settled before anything else, unless the handler failed before it became a
   * generator.
   */
  ghost predicate Explained<T>(s: Driver<T>, h: History<T>) {
    && s.log == (if h.late then h.Effects() + [SendMetadata] else HeaderLog(s) + h.Effects())
    && |h.endings| == (if s.pc.Finished? then 1 else 0)
    && HeaderSettled(s, h)
  }

  /** When the header has been sent, told from what happened. */
  ghost predicate HeaderSettled<T>(s: Driver<T>, h: History<T>) {
    && s.headerSent == h.settled && s.metadataSent == h.metadata && s.headerEmpty == h.headerEmpty
    && (h.metadata ==> h.settled)
    && (h.late ==> h.startFailed && h.metadata)
    && (!h.settled ==> h.writes == [] && (s.pc.Finished? ==> h.startFailed))
    && (h.startFailed ==> s.pc.Finished? && h.writes == [])
    && (s.pc.Starting? ==> h.writes == [])
  }

  /** The history alone: an ending is last, and comes exactly when the driver is finished. */
  lemma {:induction false} StepEffects<T>(s: Driver<T>, h: History<T>, a: Action<T>)
    requires |h.endings| == (if s.pc.Finished? then 1 else 0)
    requires Enabled(s, a)
    ensures h.Then(a).Effects() == h.Effects() + Effect(a)
    ensures |h.Then(a).endings| == |h.endings| + if a.GeneratorYields? then 0 else |Effect(a)|
  {
    if a.GeneratorYields? {
      assert h.endings == [] && h.writes + [] == h.writes && (h.writes + Effect(a)) + [] == h.writes + Effect(a);
    } else {
      assert h.writes + [] == h.writes;
      AppendAssoc(h.writes, h.endings, Effect(a));
    }
  }

  /** The header goes out before the first effect or not at all. */
  lemma {:induction false} HeaderShape<T>(s: Driver<T>, effects: seq<CallAction<T>>)
    requires s.log == HeaderLog(s) + effects && (s.metadataSent ==> s.headerSent)
    requires !s.headerSent ==> effects == []
    ensures var s' := s.SendHeader(); s'.log == HeaderLog(s') + effects
  {
  }

  /** One more effect after the header and the earlier effects. */
  lemma {:induction false} LogWith<T>(s: Driver<T>, effects: seq<CallAction<T>>, last: CallAction<T>, s': Driver<T>)
    requires s.log == HeaderLog(s) + effects && (s.metadataSent ==> s.headerSent)
    requires !s.headerSent ==> effects == []
    requires s'.log == s.SendHeader().log + [last] && s'.metadataSent == s.SendHeader().metadataSent
    ensures s'.log == HeaderLog(s') + (effects + [last])
  {
    HeaderShape(s, effects);
    AppendAssoc(HeaderLog(s.SendHeader()), effects, [last]);
  }

  lemma {:induction false} YieldLog<T>(s: Driver<T>, v: T, w: WriteResult)
    ensures var s' := s.Yields(v, w);
            s'.log == s.SendHeader().log + [Write(v)] && s'.metadataSent == s.SendHeader().metadataSent
  {
  }

  lemma {:induction false} CleanupLog<T>(s: Driver<T>, last: CallAction<T>)
    ensures var s' := s.Cleanup().Finish(last);
            s'.log == s.SendHeader().log + [last] && s'.metadataSent == s.SendHeader().metadataSent
  {
  }

  /** Actions without an effect leave the log alone, or are the handler's own `sendHeader`. */
  lemma {:induction false} QuietLog<T>(s: Driver<T>, a: Action<T>)
    requires Effect(a) == []
    ensures var s' := Step(s, a); var t := if a.UserSendsHeader? then s.SendHeader() else s;
            s'.log == t.log && s'.metadataSent == t.metadataSent
  {
  }

  lemma {:induction false} EffectShape<T>(s: Driver<T>, a: Action<T>, effects: seq<CallAction<T>>)
    requires s.log == HeaderLog(s) + effects && (s.metadataSent ==> s.headerSent) && Enabled(s, a)
    requires !s.headerSent ==> effects == []
    ensures Step(s, a).log == HeaderLog(Step(s, a)) + (effects + Effect(a))
  {
    match a {
      case HandlerThrows(e) => AppendAssoc(HeaderLog(s), effects, Effect(a));
      case GeneratorYields(v, w) =>
        YieldLog(s, v, w);
        LogWith(s, effects, Write(v), Step(s, a));
      case GeneratorReturns(false) =>
        CleanupLog(s, End);
        LogWith(s, effects, End, Step(s, a));
      case GeneratorThrows(e) =>
        CleanupLog(s, ErrorStatus(e));
        LogWith(s, effects, ErrorStatus(e), Step(s, a));
      case _ =>
        QuietLog(s, a);
        if a.UserSendsHeader? && !s.headerSent {
          HeaderShape(s, effects);
        }
        assert effects + [] == effects;
    }
  }

  lemma {:induction false} StepSent<T>(s: Driver<T>, a: Action<T>)
    requires Enabled(s, a)
    ensures Step(s, a).headerSent == (s.headerSent || SendsHeader(a))
  {
  }

  lemma {:induction false} StepMetadata<T>(s: Driver<T>, a: Action<T>)
    requires Enabled(s, a)
    ensures Step(s, a).metadataSent == (s.metadataSent || (SendsHeader(a) && !s.headerSent && !s.headerEmpty))
  {
  }

  /** How the header flags move. */
  lemma {:induction false} StepHeader<T>(s: Driver<T>, a: Action<T>)
    requires Enabled(s, a)
    ensures var s' := Step(s, a);
      && s'.headerSent == (s.headerSent || SendsHeader(a))
      && s'.metadataSent == (s.metadataSent || (SendsHeader(a) && !s.headerSent && !s.headerEmpty))
      && s'.headerEmpty == (if a.UserSetsHeader? then a.empty else s.headerEmpty)
      && (Effect(a) != [] && !a.HandlerThrows? ==> SendsHeader(a))
  {
    StepSent(s, a);
    StepMetadata(s, a);
  }

  /** How the driver finishes. */
  lemma {:induction false} StepFinish<T>(s: Driver<T>, a: Action<T>)
    requires Enabled(s, a)
    ensures var s' := Step(s, a);
      && (s.pc.Finished? ==> s'.pc.Finished?)
      && (!s.pc.Finished? ==> (s'.pc.Finished? <==> Effect(a) != [] && !a.GeneratorYields?))
      && (Effect(a) != [] && !a.HandlerThrows? ==> !s.pc.Starting? && !s.pc.Finished?)
      && (a.HandlerThrows? ==> s.pc.Starting?) && (s'.pc.Starting? ==> s.pc.Starting?)
  {
  }

  /** What the log becomes: nothing follows the ending but a late header. */
  lemma {:induction false} StepLog<T>(s: Driver<T>, h: History<T>, a: Action<T>)
    requires Explained(s, h) && Enabled(s, a)
    ensures s.pc.Finished? ==>
              && Effect(a) == []
              && Step(s, a).log == s.log + if h.SendsLate(a) then [SendMetadata] else []
    ensures h.SendsLate(a) ==> s.pc.Finished? && !h.late && !s.metadataSent && Step(s, a).metadataSent
    ensures !h.late && !h.SendsLate(a) ==> Step(s, a).log == HeaderLog(Step(s, a)) + (h.Effects() + Effect(a))
  {
    StepFinish(s, a);
    if s.pc.Finished? {
      QuietLog(s, a);
      assert h.Effects() + [] == h.Effects();
    } else {
      EffectShape(s, a, h.Effects());
    }
  }

  lemma {:induction false} StepSettled<T>(s: Driver<T>, h: History<T>, a: Action<T>)
    requires HeaderSettled(s, h) && Enabled(s, a)
    requires h.SendsLate(a) ==> Step(s, a).metadataSent
    ensures HeaderSettled(Step(s, a), h.Then(a))
  {
    StepHeader(s, a);
    StepFinish(s, a);
  }

  lemma {:induction false} StepExplained<T>(s: Driver<T>, h: History<T>, a: Action<T>)
    requires Explained(s, h) && Enabled(s, a)
    ensures Explained(Step(s, a), h.Then(a))
  {
    StepFinish(s, a);
    StepEffects(s, h, a);
    StepLog(s, h, a);
    StepSettled(s, h, a);
  }

  lemma {:induction false} RunStep<T>(states: seq<Driver<T>>, actions: seq<Action<T>>, i: nat)
    requires IsRun(states, actions) && i < |actions|
    ensures Enabled(states[i], actions[i]) && states[i + 1] == Step(states[i], actions[i])
  {
  }

  lemma {:induction false} RunExplained<T>(states: seq<Driver<T>>, actions: seq<Action<T>>, n: nat)
    requires IsRun(states, actions) && n < |states|
    ensures Explained(states[n], Told(actions, n))
  {
    if n > 0 {
      RunExplained(states, actions, n - 1);
      RunStep(states, actions, n - 1);
      StepExplained(states[n - 1], Told(actions, n - 1), actions[n - 1]);
    }
  }

  lemma {:induction false} LogTold<T>(s: Driver<T>, h: History<T>)
    requires Explained(s, h)
    ensures s.log == (if h.late then h.endings + [SendMetadata]
                      else (if h.metadata then [SendMetadata] else []) + (h.writes + h.endings))
  {
    assert [] + h.endings == h.endings;
  }

  /**
   * Over every interleaving: header metadata at most once and first, then exactly the yielded values in order,
   * then exactly one ending. The header metadata comes after the ending, and alone, exactly when the handler
   * failed to start without having sent it and someone asks for it later.
   */
  lemma {:induction false} LogInShape<T>(states: seq<Driver<T>>, actions: seq<Action<T>>, n: nat)
    requires IsRun(states, actions) && n < |states|
    ensures var s, h := states[n], Told(actions, n);
      && s.log == (if h.late then h.endings + [SendMetadata]
                   else (if h.metadata then [SendMetadata] else []) + (h.writes + h.endings))
      && |h.endings| == (if s.pc.Finished? then 1 else 0)
      && (h.writes != [] || (s.pc.Finished? && !h.startFailed) ==> h.settled)
    ensures n < |actions| && states[n].pc.Finished? ==>
              && states[n + 1].pc.Finished?
              && states[n + 1].log
                 == states[n].log + if Told(actions, n).SendsLate(actions[n]) then [SendMetadata] else []
  {
    RunExplained(states, actions, n);
    var h := Told(actions, n);
    LogTold(states[n], h);
    if n < |actions| {
      RunStep(states, actions, n);
      StepFinish(states[n], actions[n]);
      StepLog(states[n], h, actions[n]);
    }
  }

  /** How each answer of the generator ends the call or is written: the last thing the driver did to the call. */
  lemma {:induction false} LastActionExactly<T>(states: seq<Driver<T>>, actions: seq<Action<T>>, n: nat)
    requires IsRun(states, actions) && n < |actions|
    ensures var log, a := states[n + 1].log, actions[n];
      && (a.GeneratorYields? ==> log != [] && log[|log| - 1] == Write(a.value))
      && (a == GeneratorReturns(false) ==> log != [] && log[|log| - 1] == End && states[n + 1].pc == Finished)
      && (a.GeneratorThrows? || a.HandlerThrows? ==>
            && log != [] && states[n + 1].pc == Finished
            && log[|log| - 1] == match a.error
                                 case ServerError(code, details) => Fail(code, details)
                                 case AbortError => Fail(1, "The operation was cancelled")
                                 case OtherError => Fail(2, "Unknown server error occurred"))
  {
    RunStep(states, actions, n);
  }

  // ------------------------------------------------------------------------------------------
  // Cancellation

  /** After this a cancellation has no effect on the call's signal. */
  predicate Disarms<T>(a: Action<T>) {
    a.CancelledEvent? || a.CloseOrFinishEvent? || a == GeneratorReturns(false) || a.GeneratorThrows?
  }

  /** The call was not born cancelled, and nothing has disarmed the cancellation in the first `n` actions. */
  predicate Armed<T>(cancelled: bool, actions: seq<Action<T>>, n: nat)
    requires n <= |actions|
  {
    !cancelled && forall i :: 0 <= i < n ==> !Disarms(actions[i])
  }

  /** The call was born cancelled, or a cancellation came in time. */
  ghost predicate Aborted<T>(cancelled: bool, actions: seq<Action<T>>, n: nat)
    requires n <= |actions|
  {
    cancelled || exists i :: 0 <= i < n && actions[i].CancelledEvent? && Armed(cancelled, actions, i)
  }

  lemma {:induction false} SignalHistoryStep<T>(cancelled: bool, actions: seq<Action<T>>, n: nat)
    requires n < |actions|
    ensures Armed(cancelled, actions, n + 1) <==> Armed(cancelled, actions, n) && !Disarms(actions[n])
    ensures Aborted(cancelled, actions, n + 1)
            <==> Aborted(cancelled, actions, n) || (actions[n].CancelledEvent? && Armed(cancelled, actions, n))
  {
  }

  lemma {:induction false} StepSignal<T>(s: Driver<T>, a: Action<T>)
    requires Enabled(s, a)
    ensures Step(s, a).cancelArmed <==> s.cancelArmed && !Disarms(a)
    ensures Step(s, a).aborted <==> s.aborted || (a.CancelledEvent? && s.cancelArmed)
  {
  }

  /** Whether a cancellation counts, and whether one has, can be told from what happened. */
  lemma {:induction false} SignalExactly<T>(states: seq<Driver<T>>, actions: seq<Action<T>>, n: nat)
    requires IsRun(states, actions) && n < |states|
    ensures states[n].cancelArmed <==> Armed(states[0].aborted, actions, n)
    ensures states[n].aborted <==> Aborted(states[0].aborted, actions, n)
  {
    if n > 0 {
      SignalExactly(states, actions, n - 1);
      RunStep(states, actions, n - 1);
      StepSignal(states[n - 1], actions[n - 1]);
      SignalHistoryStep(states[0].aborted, actions, n - 1);
    }
  }

  lemma {:induction false} StepEnds<T>(s: Driver<T>, a: Action<T>)
    requires Enabled(s, a) && !s.pc.Finished? && Step(s, a).pc.Finished? && !a.HandlerThrows?
    ensures !Step(s, a).cancelArmed
  {
  }

  /** Every ending but a failed start disarms. */
  lemma {:induction false} EndingDisarms<T>(states: seq<Driver<T>>, actions: seq<Action<T>>, n: nat)
    requires IsRun(states, actions) && n < |states| && states[n].pc.Finished? && !StartFailed(actions, n)
    ensures !states[n].cancelArmed
  {
    if n > 0 {
      RunStep(states, actions, n - 1);
      StepSignal(states[n - 1], actions[n - 1]);
      if states[n - 1].pc.Finished? {
        EndingDisarms(states, actions, n - 1);
      } else {
        StepEnds(states[n - 1], actions[n - 1]);
      }
    }
  }

  /**
   * Once the call has ended its signal becomes aborted exactly when the handler failed to start, and then a
   * cancellation comes before anything has disarmed it.
   */
  lemma {:induction false} AbortAfterEndExactly<T>(states: seq<Driver<T>>, actions: seq<Action<T>>, n: nat, m: nat)
    requires IsRun(states, actions) && n <= m < |states| && states[n].pc.Finished?
    ensures states[m].aborted != states[n].aborted
            <==> StartFailed(actions, n)
                 && exists i :: n <= i < m && actions[i].CancelledEvent? && Armed(states[0].aborted, actions, i)
  {
    SignalExactly(states, actions, n);
    SignalExactly(states, actions, m);
    if !StartFailed(actions, n) {
      EndingDisarms(states, actions, n);
    }
    if i :| n <= i < m && actions[i].CancelledEvent? && Armed(states[0].aborted, actions, i) {
      assert Aborted(states[0].aborted, actions, m);
      assert forall j :: 0 <= j < n ==> !Disarms(actions[j]);
    }
  }

  /** It does happen: after a failed start the ending is alone, the signal can abort, and the header can follow. */
  lemma {:induction false} FailedStartStaysArmed<T>() returns (states: seq<Driver<T>>, actions: seq<Action<T>>)
    ensures IsRun(states, actions) && |actions| == 4
    ensures states[2].pc.Finished? && states[2].log == [Fail(2, "Unknown server error occurred")]
    ensures !states[2].aborted && states[3].aborted
    ensures states[4].log == [Fail(2, "Unknown server error occurred"), SendMetadata]
  {
    actions := [UserSetsHeader(false), HandlerThrows(OtherError), CancelledEvent, UserSendsHeader];
    var s0 := InitDriver<T>(false);
    var s1 := Step(s0, actions[0]);
    var s2 := Step(s1, actions[1]);
    var s3 := Step(s2, actions[2]);
    states := [s0, s1, s2, s3, Step(s3, actions[3])];
  }

  /**
   * A waiting writer goes on waiting exactly until `drain`, or until a cancellation that comes before anything has
   * disarmed it; so after `close` or `finish` only `drain` can release it.
   */
  lemma {:induction false} WaitsExactly<T>(states: seq<Driver<T>>, actions: seq<Action<T>>, n: nat, m: nat)
    requires IsRun(states, actions) && n <= m < |states| && states[n].pc.Draining?
    ensures (forall i :: n <= i <= m ==> states[i].pc.Draining?)
            <==> forall i :: n <= i < m ==>
                   !actions[i].Drain? && !(actions[i].CancelledEvent? && Armed(states[0].aborted, actions, i))
    decreases m
  {
    if n < m {
      WaitsExactly(states, actions, n, m - 1);
      SignalExactly(states, actions, m - 1);
      RunStep(states, actions, m - 1);
    }
  }

  /**
   * How each action leaves the driver: what the generator is resumed with, or that a write waits. The generator is
   * asked to return exactly when an abort interrupts a write, now or while waiting to write on.
   */
  lemma {:induction false} ResumedExactly<T>(states: seq<Driver<T>>, actions: seq<Action<T>>, n: nat)
    requires IsRun(states, actions) && n < |actions|
    ensures states[n + 1].pc
            == match actions[n]
               case HandlerStarts => Running(Next)
               case GeneratorYields(_, Accepted) => Running(Next)
               case GeneratorYields(_, Full) =>
                 if Aborted(states[0].aborted, actions, n) then Running(Return) else Draining
               case GeneratorYields(_, Throws(e)) => if e == AbortError then Running(Return) else Running(Throw(e))
               case GeneratorReturns(hasValue) => if hasValue then Running(Throw(OtherError)) else Finished
               case GeneratorThrows(_) => Finished
               case HandlerThrows(_) => Finished
               case Drain => Running(Next)
               case CancelledEvent =>
                 if states[n].pc == Draining && Armed(states[0].aborted, actions, n) then Running(Return)
                 else states[n].pc
               case _ => states[n].pc
    ensures actions[n] == GeneratorReturns(true) ==> states[n + 1].log == states[n].log
  {
    SignalExactly(states, actions, n);
    RunStep(states, actions, n);
  }

  /**
   * The driver fed with any list of answers and events, as far as they can happen: what the object goes through is
   * a run, so all of the above holds of it.
   */
  method Drive<T>(cancelled: bool, actions: seq<Action<T>>)
    returns (driver: CallDriver<T>, n: nat, ghost states: seq<Driver<T>>)
    ensures n <= |actions| && IsRun(states, actions[..n]) && driver.View() == states[n]
    ensures states[0].aborted == cancelled
    ensures n < |actions| ==> !Enabled(states[n], actions[n])
  {
    driver := new CallDriver(cancelled);
    n, states := 0, [driver.View()];
    while n < |actions|
      invariant fresh(driver) && n <= |actions|
      invariant IsRun(states, actions[..n]) && driver.View() == states[n] && states[0].aborted == cancelled
    {
      var possible := driver.Possible(actions[n]);
      if !possible {
        return;
      }
      driver.Perform(actions[n]);
      states := states + [driver.View()];
      n := n + 1;
    }
  }
}
