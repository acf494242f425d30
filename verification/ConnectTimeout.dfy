/** The connection attempt timeout: packages/nice-grpc/src/client/connectTimeoutPatch.ts, for one connector. */
module ConnectTimeout {
  import opened Basics

  type AttemptId = nat
  type Socket = nat
  type Transport = nat

  /** What the caller of `connect` gets. */
  datatype Outcome = Connected(transport: Transport) | Failed | TimedOut

  datatype Attempt = Attempt(
    timed: bool,
    timerArmed: bool,
    timedOut: bool,
    settled: Option<Option<Transport>>,   // how the original attempt settled: with a transport, or failed
    outcome: Option<Outcome>,
    shutdown: Option<Transport>)

  /** `opener` is history: the attempt that opened each socket. */
  datatype State = State(
    sockets: set<Socket>,
    destroyed: set<Socket>,
    attempts: map<AttemptId, Attempt>,
    opener: map<Socket, AttemptId>)
  {
    function Set(id: AttemptId, a: Attempt): State { this.(attempts := attempts[id := a]) }

    function TcpConnected(socket: Socket, id: AttemptId): State {
      this.(sockets := sockets + {socket}, opener := opener[socket := id])
    }

    function SocketClosed(socket: Socket): State { this.(sockets := sockets - {socket}) }

    function Connect(id: AttemptId, timeoutMs: int): State {
      Set(id, Attempt(timeoutMs > 0, timeoutMs > 0, false, None, None, None))
    }

    /** The original attempt settles; both reactions and the clearing of the timer come before any other timer. */
    function Settle(id: AttemptId, transport: Option<Transport>): State
      requires id in attempts
    {
      var a := attempts[id].(settled := Some(transport));
      if a.timedOut then Set(id, a.(shutdown := transport))
      else Set(id, a.(outcome := Some(match transport case Some(t) => Connected(t) case None => Failed),
                      timerArmed := false))
    }

    function TimerFires(id: AttemptId): State
      requires id in attempts
    {
      Set(id, attempts[id].(timerArmed := false, timedOut := true, outcome := Some(TimedOut)))
      .(destroyed := destroyed + sockets, sockets := {})
    }
  }

  const INIT := State({}, {}, map[], map[])

  class Connector {
    var pendingSockets: set<Socket>
    var destroyed: set<Socket>
    var attempts: map<AttemptId, Attempt>
    ghost var opener: map<Socket, AttemptId>

    ghost function View(): State
      reads this
    {
      State(pendingSockets, destroyed, attempts, opener)
    }

    constructor ()
      ensures View() == INIT
    {
      pendingSockets, destroyed, attempts, opener := {}, {}, map[], map[];
    }

    method TcpConnected(socket: Socket, ghost id: AttemptId)
      modifies this
      ensures View() == old(View()).TcpConnected(socket, id)
    {
      pendingSockets := pendingSockets + {socket};
      opener := opener[socket := id];
    }

    method SocketClosed(socket: Socket)
      modifies this
      ensures View() == old(View()).SocketClosed(socket)
    {
      pendingSockets := pendingSockets - {socket};
    }

    method Connect(id: AttemptId, timeoutMs: int)
      modifies this
      ensures View() == old(View()).Connect(id, timeoutMs)
    {
      var attempt := Attempt(false, false, false, None, None, None);
      if timeoutMs > 0 {
        attempt := attempt.(timed := true, timerArmed := true);
      }
      attempts := attempts[id := attempt];
    }

    method Settle(id: AttemptId, transport: Option<Transport>)
      requires id in attempts
      modifies this
      ensures View() == old(View()).Settle(id, transport)
    {
      var attempt := attempts[id].(settled := Some(transport));
      if attempt.timedOut {
        if transport.Some? {
          attempt := attempt.(shutdown := transport);
        } else {
          attempt := attempt.(shutdown := None);
        }
      } else {
        attempt := attempt.(outcome := Some(if transport.Some? then Connected(transport.value) else Failed));
        attempt := attempt.(timerArmed := false);
      }
      attempts := attempts[id := attempt];
    }

    method TimerFires(id: AttemptId)
      requires id in attempts
      modifies this
      ensures View() == old(View()).TimerFires(id)
    {
      var attempt := attempts[id].(timerArmed := false, timedOut := true);
      var sockets := pendingSockets;
      while sockets != {}
        invariant sockets <= pendingSockets == old(pendingSockets)
        invariant destroyed == old(destroyed) + (pendingSockets - sockets)
        invariant attempts == old(attempts) && opener == old(opener)
        decreases sockets
      {
        var socket :| socket in sockets;
        destroyed := destroyed + {socket};
        sockets := sockets - {socket};
      }
      pendingSockets := {};
      attempts := attempts[id := attempt.(outcome := Some(TimedOut))];
    }
  }

  // ------------------------------------------------------------------------------------------
  // Every interleaving of attempts, sockets and timers

  datatype Action =
    | ConnectCalled(id: AttemptId, timeoutMs: int)
    | SocketOpened(socket: Socket, id: AttemptId)
    | SocketCloses(socket: Socket)
    | AttemptSettles(id: AttemptId, transport: Option<Transport>)
    | TimerFired(id: AttemptId)

  predicate Enabled(s: State, a: Action) {
    match a
    case ConnectCalled(id, _) => id !in s.attempts
    case SocketOpened(socket, id) => id in s.attempts && socket !in s.opener
    case SocketCloses(socket) => socket in s.opener
    case AttemptSettles(id, _) => id in s.attempts && s.attempts[id].settled.None?
    case TimerFired(id) => id in s.attempts && s.attempts[id].timerArmed
  }

  function Step(s: State, a: Action): State
    requires Enabled(s, a)
  {
    match a
    case ConnectCalled(id, timeoutMs) => s.Connect(id, timeoutMs)
    case SocketOpened(socket, id) => s.TcpConnected(socket, id)
    case SocketCloses(socket) => s.SocketClosed(socket)
    case AttemptSettles(id, transport) => s.Settle(id, transport)
    case TimerFired(id) => s.TimerFires(id)
  }

  ghost predicate IsRun(states: seq<State>, actions: seq<Action>) {
    && |states| == |actions| + 1
    && states[0] == INIT
    && forall i :: 0 <= i < |actions| ==> Enabled(states[i], actions[i]) && states[i + 1] == Step(states[i], actions[i])
  }

  /** What is true of an attempt at any time. */
  ghost predicate AttemptInv(a: Attempt) {
    // a caller is only left waiting while the attempt is open and, if there is a timeout, its timer runs
    && (a.outcome.None? <==> a.settled.None? && !a.timedOut)
    && (a.timerArmed <==> a.timed && a.outcome.None?)
    && (a.timedOut ==> a.timed)
    && (a.timedOut <==> a.outcome == Some(TimedOut))
    // a transport goes to the caller or is shut down, never both
    && (match a.settled
        case Some(Some(t)) =>
          if a.timedOut then a.shutdown == Some(t) else a.outcome == Some(Connected(t)) && a.shutdown.None?
        case Some(None) => a.shutdown.None? && (!a.timedOut ==> a.outcome == Some(Failed))
        case None => a.shutdown.None?)
  }

  lemma {:induction false} RunInv(states: seq<State>, actions: seq<Action>, n: nat)
    requires IsRun(states, actions) && n < |states|
    ensures forall id :: id in states[n].attempts ==> AttemptInv(states[n].attempts[id])
  {
    if n > 0 {
      RunInv(states, actions, n - 1);
      assert Enabled(states[n - 1], actions[n - 1]) && states[n] == Step(states[n - 1], actions[n - 1]);
    }
  }

  /** The caller's outcome never changes once it is there. */
  lemma {:induction false} OneOutcome(states: seq<State>, actions: seq<Action>, n: nat, m: nat, id: AttemptId)
    requires IsRun(states, actions) && n <= m < |states|
    requires id in states[n].attempts && states[n].attempts[id].outcome.Some?
    ensures id in states[m].attempts && states[m].attempts[id].outcome == states[n].attempts[id].outcome
    decreases m
  {
    if n < m {
      OneOutcome(states, actions, n, m - 1, id);
      RunInv(states, actions, m - 1);
      assert AttemptInv(states[m - 1].attempts[id]);
      assert Enabled(states[m - 1], actions[m - 1]) && states[m] == Step(states[m - 1], actions[m - 1]);
    }
  }

  /**
   * With a timeout, a waiting caller's timer is armed, so the wait is bounded; and a transport is returned or shut
   * down, never both, and shut down only if the caller got the timeout.
   */
  lemma AttemptsSettleOnce(states: seq<State>, actions: seq<Action>, n: nat, id: AttemptId)
    requires IsRun(states, actions) && n < |states| && id in states[n].attempts
    ensures var a := states[n].attempts[id];
      && (a.timed && a.outcome.None? ==> Enabled(states[n], TimerFired(id)))
      && (a.shutdown.Some? ==> a.outcome == Some(TimedOut) && a.settled == Some(a.shutdown))
      && (a.settled.Some? && a.settled.value.Some? ==>
            (a.outcome == Some(Connected(a.settled.value.value)) <==> a.shutdown.None?))
  {
    RunInv(states, actions, n);
    assert AttemptInv(states[n].attempts[id]);
  }

  // ------------------------------------------------------------------------------------------
  // Outcomes, told from the actions

  ghost predicate Did(actions: seq<Action>, n: nat, a: Action)
    requires n <= |actions|
  {
    exists i :: 0 <= i < n && actions[i] == a
  }

  /** The original attempt has settled so, before or after its timer fired. */
  ghost predicate SettledSo(actions: seq<Action>, n: nat, id: AttemptId, transport: Option<Transport>, late: bool)
    requires n <= |actions|
  {
    exists i :: 0 <= i < n && actions[i] == AttemptSettles(id, transport) && Did(actions, i, TimerFired(id)) == late
  }

  ghost predicate Timed(actions: seq<Action>, n: nat, id: AttemptId)
    requires n <= |actions|
  {
    exists i :: 0 <= i < n && actions[i].ConnectCalled? && actions[i].id == id && actions[i].timeoutMs > 0
  }

  /** For one transport `t`. */
  ghost predicate OutcomeTold(s: State, actions: seq<Action>, n: nat, id: AttemptId, t: Transport)
    requires n <= |actions|
  {
    && (id in s.attempts ==> var a := s.attempts[id];
          && (a.timed <==> Timed(actions, n, id))
          && (a.timedOut <==> Did(actions, n, TimerFired(id)))
          && (a.outcome == Some(TimedOut) <==> Did(actions, n, TimerFired(id)))
          && (a.outcome == Some(Failed) <==> SettledSo(actions, n, id, None, false))
          && (a.outcome == Some(Connected(t)) <==> SettledSo(actions, n, id, Some(t), false))
          && (a.shutdown == Some(t) <==> SettledSo(actions, n, id, Some(t), true))
          && (a.settled.None? ==> Unsettled(actions, n, id, t)))
    && (id !in s.attempts ==>
          !Timed(actions, n, id) && !Did(actions, n, TimerFired(id)) && Unsettled(actions, n, id, t))
  }

  ghost predicate Unsettled(actions: seq<Action>, n: nat, id: AttemptId, t: Transport)
    requires n <= |actions|
  {
    && !SettledSo(actions, n, id, None, false) && !SettledSo(actions, n, id, None, true)
    && !SettledSo(actions, n, id, Some(t), false) && !SettledSo(actions, n, id, Some(t), true)
  }

  lemma {:induction false} HistoryStep(actions: seq<Action>, n: nat, id: AttemptId)
    requires n < |actions|
    ensures Did(actions, n + 1, TimerFired(id)) <==> Did(actions, n, TimerFired(id)) || actions[n] == TimerFired(id)
    ensures Timed(actions, n + 1, id)
            <==> Timed(actions, n, id)
                 || (actions[n].ConnectCalled? && actions[n].id == id && actions[n].timeoutMs > 0)
  {
  }

  lemma {:induction false} SettledStep(actions: seq<Action>, n: nat, id: AttemptId, transport: Option<Transport>,
                                       late: bool)
    requires n < |actions|
    ensures SettledSo(actions, n + 1, id, transport, late)
            <==> SettledSo(actions, n, id, transport, late)
                 || (actions[n] == AttemptSettles(id, transport) && Did(actions, n, TimerFired(id)) == late)
  {
  }

  /** How a step changes one attempt. */
  lemma {:induction false} StepAttempt(s: State, a: Action, id: AttemptId)
    requires Enabled(s, a)
    ensures var s' := Step(s, a);
      && (id in s'.attempts <==> id in s.attempts || (a.ConnectCalled? && a.id == id))
      && (id in s.attempts ==> var b, c := s.attempts[id], s'.attempts[id];
            && c.timed == b.timed && c.timedOut == (b.timedOut || a == TimerFired(id))
            && (if a == TimerFired(id) then c.outcome == Some(TimedOut)
                else if a.AttemptSettles? && a.id == id && !b.timedOut then
                  c.outcome == Some(if a.transport.Some? then Connected(a.transport.value) else Failed)
                else c.outcome == b.outcome)
            && c.shutdown == (if a.AttemptSettles? && a.id == id && b.timedOut then a.transport else b.shutdown)
            && (c.settled.None? <==> b.settled.None? && !(a.AttemptSettles? && a.id == id))
            && (a.AttemptSettles? && a.id == id ==> b.settled.None?))
      && (id !in s.attempts && id in s'.attempts ==>
            var c := s'.attempts[id]; c == Attempt(a.timeoutMs > 0, a.timeoutMs > 0, false, None, None, None))
      && (id !in s.attempts ==> a != TimerFired(id) && !(a.AttemptSettles? && a.id == id))
  {
  }

  /**
   * What the caller got, and what was shut down, as the attempt settled and its timer fired: a transport that comes in
   * time is returned, one that comes late is shut down, and the timeout is reported exactly when the timer fires first.
   */
  lemma {:induction false} OutcomeExactly(states: seq<State>, actions: seq<Action>, n: nat, id: AttemptId, t: Transport)
    requires IsRun(states, actions) && n < |states|
    ensures OutcomeTold(states[n], actions, n, id, t)
  {
    if n > 0 {
      OutcomeExactly(states, actions, n - 1, id, t);
      RunInv(states, actions, n - 1);
      RunStep(states, actions, n - 1);
      NextOutcome(states[n - 1], actions, n - 1, id, t);
    }
  }

  lemma {:induction false} NextOutcome(s: State, actions: seq<Action>, n: nat, id: AttemptId, t: Transport)
    requires n < |actions| && Enabled(s, actions[n]) && OutcomeTold(s, actions, n, id, t)
    requires id in s.attempts ==> AttemptInv(s.attempts[id])
    ensures OutcomeTold(Step(s, actions[n]), actions, n + 1, id, t)
  {
    HistoryStep(actions, n, id);
    SettledStep(actions, n, id, None, false);
    SettledStep(actions, n, id, None, true);
    SettledStep(actions, n, id, Some(t), false);
    SettledStep(actions, n, id, Some(t), true);
    StepAttempt(s, actions[n], id);
  }

  // ------------------------------------------------------------------------------------------
  // What happens to the sockets of an attempt

  /** The socket was opened by action `i`. */
  predicate OpenedAt(actions: seq<Action>, i: nat, socket: Socket) {
    i < |actions| && actions[i].SocketOpened? && actions[i].socket == socket
  }

  /** The socket has not closed between actions `i` and `j`. */
  predicate NotClosed(actions: seq<Action>, i: nat, j: nat, socket: Socket)
    requires j <= |actions|
  {
    forall k :: i < k < j ==> actions[k] != SocketCloses(socket)
  }

  predicate NoTimer(actions: seq<Action>, i: nat, j: nat)
    requires j <= |actions|
  {
    forall k :: i < k < j ==> !actions[k].TimerFired?
  }

  lemma RunStep(states: seq<State>, actions: seq<Action>, i: nat)
    requires IsRun(states, actions) && i < |actions|
    ensures Enabled(states[i], actions[i]) && states[i + 1] == Step(states[i], actions[i])
  {
  }

  /** A socket is opened once, and its opener is the attempt that opened it. */
  lemma {:induction false} OpenedOnce(states: seq<State>, actions: seq<Action>, n: nat, i: nat, socket: Socket)
    requires IsRun(states, actions) && i < n < |states| && OpenedAt(actions, i, socket)
    ensures socket in states[n].opener && states[n].opener[socket] == actions[i].id
    ensures forall j :: 0 <= j < n && OpenedAt(actions, j, socket) ==> j == i
  {
    RunStep(states, actions, n - 1);
    if i < n - 1 {
      OpenedOnce(states, actions, n - 1, i, socket);
    } else {
      NotOpened(states, actions, i, socket);
    }
  }

  lemma {:induction false} NotOpened(states: seq<State>, actions: seq<Action>, n: nat, socket: Socket)
    requires IsRun(states, actions) && n < |states| && socket !in states[n].opener
    ensures forall j :: 0 <= j < n ==> !OpenedAt(actions, j, socket)
    ensures socket !in states[n].sockets && socket !in states[n].destroyed
  {
    if n > 0 {
      RunStep(states, actions, n - 1);
      NotOpened(states, actions, n - 1, socket);
    }
  }

  /** A socket opened by action `i` is tracked exactly until it closes or the timer of any attempt fires. */
  lemma {:induction false} TrackedExactly(states: seq<State>, actions: seq<Action>, n: nat, i: nat, socket: Socket)
    requires IsRun(states, actions) && i < n < |states| && OpenedAt(actions, i, socket)
    ensures socket in states[n].sockets <==> NotClosed(actions, i, n, socket) && NoTimer(actions, i, n)
  {
    RunStep(states, actions, n - 1);
    if i < n - 1 {
      TrackedExactly(states, actions, n - 1, i, socket);
      OpenedOnce(states, actions, n, i, socket);
      assert !OpenedAt(actions, n - 1, socket);
      assert NotClosed(actions, i, n, socket)
             <==> NotClosed(actions, i, n - 1, socket) && actions[n - 1] != SocketCloses(socket);
      assert NoTimer(actions, i, n) <==> NoTimer(actions, i, n - 1) && !actions[n - 1].TimerFired?;
    } else {
      assert NotClosed(actions, i, n, socket) && NoTimer(actions, i, n);
    }
  }

  /** It has been destroyed exactly when a timer fired after it was opened and before it closed. */
  lemma {:induction false} DestroyedExactly(states: seq<State>, actions: seq<Action>, n: nat, i: nat, socket: Socket)
    requires IsRun(states, actions) && i < n < |states| && OpenedAt(actions, i, socket)
    ensures socket in states[n].destroyed
            <==> exists j :: i < j < n && actions[j].TimerFired? && NotClosed(actions, i, j, socket)
  {
    RunStep(states, actions, n - 1);
    if i == n - 1 {
      NotOpened(states, actions, i, socket);
    } else {
      DestroyedExactly(states, actions, n - 1, i, socket);
      TrackedExactly(states, actions, n - 1, i, socket);
      if actions[n - 1].TimerFired? && NotClosed(actions, i, n - 1, socket) && socket !in states[n - 1].sockets {
        var j :| i < j < n - 1 && actions[j].TimerFired?;
        assert NotClosed(actions, i, j, socket);
      }
    }
  }

  /**
   * The timeout of an attempt destroys one of its sockets exactly when the socket has been opened by then and has
   * not closed or been destroyed since; a firing timer leaves no socket tracked.
   */
  lemma TimeoutDestroys(states: seq<State>, actions: seq<Action>, n: nat, id: AttemptId, socket: Socket)
    requires IsRun(states, actions) && n < |actions| && actions[n] == TimerFired(id)
    ensures socket !in states[n].destroyed && socket in states[n + 1].destroyed
            <==> exists i :: 0 <= i < n && OpenedAt(actions, i, socket)
                                 && NotClosed(actions, i, n, socket) && NoTimer(actions, i, n)
    ensures states[n + 1].sockets == {}
  {
    RunStep(states, actions, n);
    if i :| 0 <= i < n && OpenedAt(actions, i, socket) {
      OpenedOnce(states, actions, n, i, socket);
      TrackedExactly(states, actions, n, i, socket);
      DestroyedExactly(states, actions, n, i, socket);
    } else {
      NeverOpened(states, actions, n, socket);
    }
  }

  lemma {:induction false} NeverOpened(states: seq<State>, actions: seq<Action>, n: nat, socket: Socket)
    requires IsRun(states, actions) && n < |states|
    requires forall j :: 0 <= j < n ==> !OpenedAt(actions, j, socket)
    ensures socket !in states[n].opener && socket !in states[n].sockets && socket !in states[n].destroyed
  {
    if n > 0 {
      RunStep(states, actions, n - 1);
      NeverOpened(states, actions, n - 1, socket);
      assert !OpenedAt(actions, n - 1, socket);
    }
  }

  /**
   * A timed-out attempt is torn down except for late sockets: one of its sockets is still open and tracked exactly
   * when it was opened after the timeout, has not closed, and no other attempt has timed out since.
   */
  lemma TornDownExactly(states: seq<State>, actions: seq<Action>, n: nat, t: nat, i: nat, id: AttemptId, socket: Socket)
    requires IsRun(states, actions) && t < n < |states| && actions[t] == TimerFired(id)
    requires i < n && actions[i] == SocketOpened(socket, id)
    ensures socket in states[n].opener && states[n].opener[socket] == id
    ensures socket in states[n].sockets <==> t < i && NotClosed(actions, i, n, socket) && NoTimer(actions, i, n)
    ensures i < t && socket !in states[n].destroyed ==> exists k :: i < k < t && actions[k] == SocketCloses(socket)
  {
    OpenedOnce(states, actions, n, i, socket);
    TrackedExactly(states, actions, n, i, socket);
    DestroyedExactly(states, actions, n, i, socket);
  }

  /**
   * A socket that is open when its attempt succeeds is destroyed exactly when the timer of another attempt of the
   * connector fires before it closes.
   */
  lemma ConnectedSocketDestroyed(states: seq<State>, actions: seq<Action>, n: nat, c: nat, i: nat,
                                 id: AttemptId, socket: Socket, transport: Transport)
    requires IsRun(states, actions) && i < c < n < |states| && actions[i] == SocketOpened(socket, id)
    requires actions[c] == AttemptSettles(id, Some(transport)) && id in states[c + 1].attempts
    requires states[c + 1].attempts[id].outcome == Some(Connected(transport)) && socket in states[c].sockets
    ensures socket in states[n].destroyed
            <==> exists j :: c < j < n && actions[j].TimerFired? && actions[j].id != id
                                 && NotClosed(actions, c, j, socket)
  {
    TrackedExactly(states, actions, c, i, socket);
    DestroyedExactly(states, actions, n, i, socket);
    assert NoTimer(actions, i, c) && NotClosed(actions, i, c, socket);
    forall j | c < j < n && actions[j].TimerFired?
      ensures actions[j].id != id
      ensures NotClosed(actions, i, j, socket) <==> NotClosed(actions, c, j, socket)
    {
      RunStep(states, actions, j);
      OneOutcome(states, actions, c + 1, j, id);
      RunInv(states, actions, j);
      assert AttemptInv(states[j].attempts[id]);
    }
  }

  /** A socket that opens after its attempt has timed out is tracked, but that timeout does not destroy it. */
  lemma LateSocketSurvives(socket: Socket) returns (states: seq<State>, actions: seq<Action>)
    ensures IsRun(states, actions) && actions == [ConnectCalled(0, 20000), TimerFired(0), SocketOpened(socket, 0)]
    ensures states[3].sockets == {socket} && socket !in states[3].destroyed && 0 in states[3].attempts
    ensures states[3].opener == map[socket := 0] && states[3].attempts[0].outcome == Some(TimedOut)
  {
    actions := [ConnectCalled(0, 20000), TimerFired(0), SocketOpened(socket, 0)];
    var s1 := Step(INIT, actions[0]);
    var s2 := Step(s1, actions[1]);
    states := [INIT, s1, s2, Step(s2, actions[2])];
  }

  /** A socket stays tracked after its attempt has succeeded, so a later attempt's timeout destroys it as well. */
  lemma EstablishedSocketDestroyed(socket: Socket) returns (states: seq<State>, actions: seq<Action>)
    ensures IsRun(states, actions) && |actions| == 5
    ensures 0 in states[5].attempts && states[5].attempts[0].outcome == Some(Connected(7))
    ensures states[5].opener == map[socket := 0] && socket in states[5].destroyed
  {
    actions := [ConnectCalled(0, 20000), SocketOpened(socket, 0), AttemptSettles(0, Some(7)),
                ConnectCalled(1, 20000), TimerFired(1)];
    var s1 := Step(INIT, actions[0]);
    var s2 := Step(s1, actions[1]);
    var s3 := Step(s2, actions[2]);
    var s4 := Step(s3, actions[3]);
    states := [INIT, s1, s2, s3, s4, Step(s4, actions[4])];
  }
}
