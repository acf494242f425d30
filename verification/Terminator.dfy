/**
 * Aborting opted-in calls at shutdown: packages/nice-grpc-server-middleware-terminator/src/index.ts.
 */
module Terminator {
  type CallId = nat

  /** One call through the middleware. `optedIn` and `bornAborted` are history, kept for the statements below. */
  datatype CallState = CallState(
    outerAborted: bool,
    innerAborted: bool,
    running: bool,
    optedIn: bool,
    bornAborted: bool)

  datatype State = State(terminated: bool, controllers: set<CallId>, calls: map<CallId, CallState>)
  {
    function Set(id: CallId, c: CallState): State { this.(calls := calls[id := c]) }

    /** A signal that is already aborted does not fire the listener. */
    function Start(id: CallId, aborted: bool): State {
      Set(id, CallState(aborted, false, true, false, aborted))
    }

    function AbortOnTerminate(id: CallId): State
      requires id in calls
    {
      var c := calls[id].(optedIn := true);
      if terminated then Set(id, c.(innerAborted := true))
      else Set(id, c).(controllers := controllers + {id})
    }

    /** The listener is attached while the call runs, and an abort event fires once. */
    function OuterAborts(id: CallId): State
      requires id in calls
    {
      var c := calls[id];
      Set(id, c.(outerAborted := true, innerAborted := c.innerAborted || (c.running && !c.outerAborted)))
    }

    function AbortEach(ids: set<CallId>): State {
      this.(calls := map id | id in calls :: if id in ids then calls[id].(innerAborted := true) else calls[id])
    }

    function Terminate(): State {
      if terminated then this else AbortEach(controllers).(terminated := true, controllers := {})
    }

    function Finish(id: CallId): State
      requires id in calls
    {
      Set(id, calls[id].(running := false)).(controllers := controllers - {id})
    }

    /** When the inner call fails: the error is replaced by UNAVAILABLE. */
    predicate Unavailable(id: CallId)
      requires id in calls
    {
      calls[id].innerAborted && !calls[id].outerAborted
    }
  }

  class TerminatorMiddleware {
    var terminated: bool
    var abortControllers: set<CallId>
    var calls: map<CallId, CallState>

    ghost function View(): State
      reads this
    {
      State(terminated, abortControllers, calls)
    }

    constructor ()
      ensures View() == State(false, {}, map[])
    {
      terminated, abortControllers, calls := false, {}, map[];
    }

    method Start(id: CallId, outerAborted: bool)
      requires id !in calls
      modifies this
      ensures View() == old(View()).Start(id, outerAborted)
    {
      calls := calls[id := CallState(outerAborted, false, true, false, outerAborted)];
    }

    method AbortOnTerminate(id: CallId)
      requires id in calls
      modifies this
      ensures View() == old(View()).AbortOnTerminate(id)
    {
      calls := calls[id := calls[id].(optedIn := true)];
      if !terminated {
        abortControllers := abortControllers + {id};
      } else {
        calls := calls[id := calls[id].(innerAborted := true)];
      }
    }

    method OuterAborts(id: CallId)
      requires id in calls
      modifies this
      ensures View() == old(View()).OuterAborts(id)
    {
      if calls[id].running && !calls[id].outerAborted {
        calls := calls[id := calls[id].(innerAborted := true)];
      }
      calls := calls[id := calls[id].(outerAborted := true)];
    }

    method Terminate()
      requires abortControllers <= calls.Keys
      modifies this
      ensures View() == old(View()).Terminate()
    {
      if terminated {
        return;
      }
      terminated := true;
      var left := abortControllers;
      while left != {}
        invariant left <= abortControllers == old(abortControllers) && terminated
        invariant calls == old(View()).AbortEach(abortControllers - left).calls
        decreases left
      {
        var id :| id in left;
        calls := calls[id := calls[id].(innerAborted := true)];
        left := left - {id};
      }
      abortControllers := {};
    }

    /** The inner generator has finished, with or without an error; says whether an error becomes UNAVAILABLE. */
    method Finish(id: CallId, failed: bool) returns (unavailable: bool)
      requires id in calls
      modifies this
      ensures View() == old(View()).Finish(id)
      ensures unavailable <==> failed && old(View()).Unavailable(id)
    {
      unavailable := failed && calls[id].innerAborted && !calls[id].outerAborted;
      calls := calls[id := calls[id].(running := false)];
      abortControllers := abortControllers - {id};
    }
  }

  // ------------------------------------------------------------------------------------------
  // Every interleaving

  datatype Action =
    | StartCall(id: CallId, aborted: bool)
    | OptIn(id: CallId)
    | OuterAbort(id: CallId)
    | TerminateServer
    | FinishCall(id: CallId)

  predicate Enabled(s: State, a: Action) {
    match a
    case StartCall(id, _) => id !in s.calls
    case OptIn(id) => id in s.calls
    case OuterAbort(id) => id in s.calls
    case TerminateServer => true
    case FinishCall(id) => id in s.calls && s.calls[id].running
  }

  function Step(s: State, a: Action): State
    requires Enabled(s, a)
  {
    match a
    case StartCall(id, aborted) => s.Start(id, aborted)
    case OptIn(id) => s.AbortOnTerminate(id)
    case OuterAbort(id) => s.OuterAborts(id)
    case TerminateServer => s.Terminate()
    case FinishCall(id) => s.Finish(id)
  }

  ghost predicate IsRun(states: seq<State>, actions: seq<Action>) {
    && |states| == |actions| + 1
    && states[0] == State(false, {}, map[])
    && forall i :: 0 <= i < |actions| ==> Enabled(states[i], actions[i]) && states[i + 1] == Step(states[i], actions[i])
  }

  ghost predicate CallInv(s: State, id: CallId, c: CallState) {
    && (c.bornAborted ==> c.outerAborted)
    && (id in s.controllers ==> c.optedIn)
    && (c.running && c.optedIn && !s.terminated ==> id in s.controllers)
    // the inner signal of a running call: aborted by the client since the start, or by terminate
    && (c.running ==> (c.innerAborted <==> (c.outerAborted && !c.bornAborted) || (s.terminated && c.optedIn)))
    && (c.innerAborted ==> c.outerAborted || (s.terminated && c.optedIn))
  }

  ghost predicate Inv(s: State) {
    && s.controllers <= s.calls.Keys
    && (s.terminated ==> s.controllers == {})
    && forall id :: id in s.calls ==> CallInv(s, id, s.calls[id])
  }

  lemma StepInv(s: State, a: Action)
    requires Inv(s) && Enabled(s, a)
    ensures Inv(Step(s, a))
  {
    var s' := Step(s, a);
    forall id | id in s'.calls
      ensures CallInv(s', id, s'.calls[id])
    {
      if id in s.calls { assert CallInv(s, id, s.calls[id]); }
    }
  }

  lemma {:induction false} RunInv(states: seq<State>, actions: seq<Action>, n: nat)
    requires IsRun(states, actions) && n < |states|
    ensures Inv(states[n])
    ensures forall id :: id in states[n].calls ==>
              (states[n].calls[id].optedIn <==> exists i :: 0 <= i < n && actions[i] == OptIn(id))
    ensures states[n].terminated <==> exists i :: 0 <= i < n && actions[i] == TerminateServer
    ensures forall i, id :: 0 <= i < n && actions[i] == OptIn(id) ==> id in states[n].calls
  {
    if n > 0 {
      RunInv(states, actions, n - 1);
      assert Enabled(states[n - 1], actions[n - 1]) && states[n] == Step(states[n - 1], actions[n - 1]);
      StepInv(states[n - 1], actions[n - 1]);
      forall id | id in states[n].calls
        ensures states[n].calls[id].optedIn <==> exists i :: 0 <= i < n && actions[i] == OptIn(id)
      {
        if states[n].calls[id].optedIn && (id !in states[n - 1].calls || !states[n - 1].calls[id].optedIn) {
          assert actions[n - 1] == OptIn(id);
        }
      }
    }
  }

  ghost predicate Did(actions: seq<Action>, n: nat, a: Action)
    requires n <= |actions|
  {
    exists i :: 0 <= i < n && actions[i] == a
  }

  /**
   * In every state after `terminate`, every running call that has opted in, before or after, is aborted, and no
   * controller is kept.
   */
  lemma TerminateReachesAll(states: seq<State>, actions: seq<Action>, n: nat, id: CallId)
    requires IsRun(states, actions) && n < |states| && Did(actions, n, TerminateServer)
    ensures states[n].controllers == {}
    ensures id in states[n].calls && states[n].calls[id].running && Did(actions, n, OptIn(id)) ==>
              states[n].calls[id].innerAborted
  {
    RunInv(states, actions, n);
    assert id in states[n].calls ==> CallInv(states[n], id, states[n].calls[id]);
  }

  /** A call that never opts in is only ever aborted by its client. */
  lemma OthersUntouched(states: seq<State>, actions: seq<Action>, n: nat, id: CallId)
    requires IsRun(states, actions) && n < |states| && id in states[n].calls && !Did(actions, n, OptIn(id))
    ensures states[n].calls[id].innerAborted ==> Did(actions, n, OuterAbort(id))
    decreases n
  {
    RunInv(states, actions, n);
    if n > 0 && states[n].calls[id].innerAborted {
      RunInv(states, actions, n - 1);
      assert Enabled(states[n - 1], actions[n - 1]) && states[n] == Step(states[n - 1], actions[n - 1]);
      assert CallInv(states[n], id, states[n].calls[id]);
      if actions[n - 1] != OuterAbort(id) {
        assert id in states[n - 1].calls ==> CallInv(states[n - 1], id, states[n - 1].calls[id]);
        assert id in states[n - 1].calls && states[n - 1].calls[id].innerAborted;
        OthersUntouched(states, actions, n - 1, id);
      }
    }
  }

  /** A failing call is reported as UNAVAILABLE exactly if terminated, opted in, and not aborted by the client. */
  lemma UnavailableExactly(states: seq<State>, actions: seq<Action>, n: nat, id: CallId)
    requires IsRun(states, actions) && n < |states| && id in states[n].calls && states[n].calls[id].running
    ensures states[n].Unavailable(id)
            <==> Did(actions, n, TerminateServer) && Did(actions, n, OptIn(id)) && !states[n].calls[id].outerAborted
  {
    RunInv(states, actions, n);
    assert CallInv(states[n], id, states[n].calls[id]);
  }

  /** A client abort reaches a running call exactly when it came after the call started. */
  lemma ClientAbortReaches(states: seq<State>, actions: seq<Action>, n: nat, id: CallId)
    requires IsRun(states, actions) && n < |states| && id in states[n].calls && states[n].calls[id].running
    requires states[n].calls[id].outerAborted
    ensures states[n].calls[id].innerAborted
            <==> !states[n].calls[id].bornAborted || (Did(actions, n, TerminateServer) && Did(actions, n, OptIn(id)))
  {
    RunInv(states, actions, n);
    assert CallInv(states[n], id, states[n].calls[id]);
  }

  /** It does happen: a call whose client had aborted before it started runs on with its inner signal not aborted. */
  lemma BornAbortedRunsOn() returns (states: seq<State>, actions: seq<Action>)
    ensures IsRun(states, actions) && actions == [StartCall(0, true), OuterAbort(0)]
    ensures 0 in states[2].calls && states[2].calls[0].running && states[2].calls[0].outerAborted
            && !states[2].calls[0].innerAborted
  {
    actions := [StartCall(0, true), OuterAbort(0)];
    var s0 := State(false, {}, map[]);
    var s1 := Step(s0, actions[0]);
    states := [s0, s1, Step(s1, actions[1])];
  }

  // ------------------------------------------------------------------------------------------
  // The whole state, told from the actions

  /** The call is registered: it has opted in since it was last finished, and the server is not terminated. */
  ghost predicate Registered(actions: seq<Action>, n: nat, id: CallId)
    requires n <= |actions|
  {
    && !Did(actions, n, TerminateServer)
    && exists i :: 0 <= i < n && actions[i] == OptIn(id) && forall j :: i < j < n ==> actions[j] != FinishCall(id)
  }

  /** Action `i` aborts the inner signal of the call. */
  ghost predicate AbortsInner(actions: seq<Action>, i: nat, id: CallId)
    requires i < |actions|
  {
    match actions[i]
    case OuterAbort(other) =>
      && other == id && Did(actions, i, StartCall(id, false))
      && !Did(actions, i, OuterAbort(id)) && !Did(actions, i, FinishCall(id))
    case OptIn(other) => other == id && Did(actions, i, TerminateServer)
    case TerminateServer => Registered(actions, i, id)
    case _ => false
  }

  lemma RunStep(states: seq<State>, actions: seq<Action>, i: nat)
    requires IsRun(states, actions) && i < |actions|
    ensures Enabled(states[i], actions[i]) && states[i + 1] == Step(states[i], actions[i])
  {
  }

  lemma {:induction false} TerminatedExactly(states: seq<State>, actions: seq<Action>, n: nat)
    requires IsRun(states, actions) && n < |states|
    ensures states[n].terminated <==> Did(actions, n, TerminateServer)
  {
    if n > 0 {
      RunStep(states, actions, n - 1);
      TerminatedExactly(states, actions, n - 1);
    }
  }

  /** How a step changes one call. */
  lemma {:induction false} StepCall(s: State, a: Action, id: CallId)
    requires Enabled(s, a)
    ensures var s' := Step(s, a);
      && (id in s'.calls <==> id in s.calls || a == StartCall(id, false) || a == StartCall(id, true))
      && (id in s.calls ==> var c, c' := s.calls[id], s'.calls[id];
            && a != StartCall(id, false) && a != StartCall(id, true)
            && c'.running == (c.running && a != FinishCall(id)) && c'.bornAborted == c.bornAborted
            && c'.outerAborted == (c.outerAborted || a == OuterAbort(id))
            && (c'.innerAborted <==>
                  || c.innerAborted
                  || (a == OuterAbort(id) && c.running && !c.outerAborted)
                  || (a == OptIn(id) && s.terminated)
                  || (a == TerminateServer && !s.terminated && id in s.controllers)))
      && (id !in s.calls ==>
            && a != FinishCall(id) && a != OuterAbort(id) && a != OptIn(id)
            && (a == StartCall(id, false) ==> s'.calls[id] == CallState(false, false, true, false, false))
            && (a == StartCall(id, true) ==> s'.calls[id] == CallState(true, false, true, false, true)))
  {
  }

  /** A call is there, runs, and is aborted by its client, as it was started, finished and aborted. */
  ghost predicate CallTold(s: State, actions: seq<Action>, n: nat, id: CallId)
    requires n <= |actions|
  {
    var live, dead := Did(actions, n, StartCall(id, false)), Did(actions, n, StartCall(id, true));
    var finished, aborted := Did(actions, n, FinishCall(id)), Did(actions, n, OuterAbort(id));
    && (id in s.calls <==> live || dead) && !(live && dead)
    && (id in s.calls ==> var c := s.calls[id];
          c.running == !finished && c.bornAborted == dead && c.outerAborted == (dead || aborted))
    && (id !in s.calls ==> !finished && !aborted && !Did(actions, n, OptIn(id)))
  }

  lemma {:induction false} StartedExactly(states: seq<State>, actions: seq<Action>, n: nat, id: CallId)
    requires IsRun(states, actions) && n < |states|
    ensures CallTold(states[n], actions, n, id)
  {
    if n > 0 {
      RunStep(states, actions, n - 1);
      StartedExactly(states, actions, n - 1, id);
      StepTold(states[n - 1], actions, n - 1, id);
    }
  }

  lemma {:induction false} StepTold(s: State, actions: seq<Action>, n: nat, id: CallId)
    requires n < |actions| && Enabled(s, actions[n]) && CallTold(s, actions, n, id)
    ensures CallTold(Step(s, actions[n]), actions, n + 1, id)
  {
    StepCall(s, actions[n], id);
    DidStep(actions, n, StartCall(id, false));
    DidStep(actions, n, StartCall(id, true));
    DidStep(actions, n, FinishCall(id));
    DidStep(actions, n, OuterAbort(id));
    DidStep(actions, n, OptIn(id));
  }

  lemma {:induction false} DidStep(actions: seq<Action>, n: nat, a: Action)
    requires n < |actions|
    ensures Did(actions, n + 1, a) <==> Did(actions, n, a) || actions[n] == a
  {
  }

  /** The controllers kept are exactly those of calls that have opted in and not finished since. */
  lemma {:induction false} RegisteredExactly(states: seq<State>, actions: seq<Action>, n: nat, id: CallId)
    requires IsRun(states, actions) && n < |states|
    ensures id in states[n].controllers <==> Registered(actions, n, id)
  {
    if n > 0 {
      RunStep(states, actions, n - 1);
      RegisteredExactly(states, actions, n - 1, id);
      TerminatedExactly(states, actions, n - 1);
      RunInv(states, actions, n - 1);
      DidStep(actions, n - 1, TerminateServer);
      RegisteredStep(actions, n - 1, id);
    }
  }

  lemma {:induction false} RegisteredStep(actions: seq<Action>, n: nat, id: CallId)
    requires n < |actions|
    ensures Registered(actions, n + 1, id)
            <==> actions[n] != TerminateServer && !Did(actions, n, TerminateServer)
                 && (actions[n] == OptIn(id) || (Registered(actions, n, id) && actions[n] != FinishCall(id)))
  {
    DidStep(actions, n, TerminateServer);
  }

  /** One of the first `n` actions aborts the inner signal. */
  ghost predicate InnerAborted(actions: seq<Action>, n: nat, id: CallId)
    requires n <= |actions|
  {
    exists i :: 0 <= i < n && AbortsInner(actions, i, id)
  }

  lemma {:induction false} InnerAbortedStep(actions: seq<Action>, n: nat, id: CallId)
    requires n < |actions|
    ensures InnerAborted(actions, n + 1, id) <==> InnerAborted(actions, n, id) || AbortsInner(actions, n, id)
  {
  }

  /** The inner signal is aborted exactly when some action has aborted it, even after the call has finished. */
  lemma {:induction false} InnerAbortedExactly(states: seq<State>, actions: seq<Action>, n: nat, id: CallId)
    requires IsRun(states, actions) && n < |states|
    ensures id in states[n].calls && states[n].calls[id].innerAborted <==> InnerAborted(actions, n, id)
  {
    if n > 0 {
      RunStep(states, actions, n - 1);
      InnerAbortedExactly(states, actions, n - 1, id);
      StartedExactly(states, actions, n - 1, id);
      RegisteredExactly(states, actions, n - 1, id);
      TerminatedExactly(states, actions, n - 1);
      InnerAbortedStep(actions, n - 1, id);
      StepCall(states[n - 1], actions[n - 1], id);
      AbortsInnerNow(states[n - 1], actions, n - 1, id);
    }
  }

  lemma {:induction false} AbortsInnerNow(s: State, actions: seq<Action>, n: nat, id: CallId)
    requires n < |actions| && CallTold(s, actions, n, id)
    requires s.terminated == Did(actions, n, TerminateServer)
    requires id in s.controllers <==> Registered(actions, n, id)
    requires id !in s.calls ==> actions[n] != OptIn(id) && actions[n] != OuterAbort(id)
    ensures AbortsInner(actions, n, id) <==>
              && id in s.calls
              && (|| (actions[n] == OuterAbort(id) && s.calls[id].running && !s.calls[id].outerAborted)
                  || (actions[n] == OptIn(id) && s.terminated)
                  || (actions[n] == TerminateServer && !s.terminated && id in s.controllers))
  {
  }
}
