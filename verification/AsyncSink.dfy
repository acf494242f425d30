/** A queue of values against a queue of waiting readers: packages/nice-grpc-web/src/utils/AsyncSink.ts. */
module AsyncSink {
  /** What is pushed: a value or an error. */
  datatype Item<T, E> = Value(value: T) | Error(error: E)

  /** The promise a call of `next` returned. */
  datatype Promise<T, E> = Pending | Settled(item: Item<T, E>) | Done

  datatype Op<T, E> = Push(item: Item<T, E>) | Next | End

  // ------------------------------------------------------------------------------------------
  // The steps

  /** Promises are numbered in the order of the `next` calls; a resolver is the number of its promise. */
  datatype Sink<T, E> = Sink(
    ended: bool,
    values: seq<Item<T, E>>,
    resolvers: seq<nat>,
    promises: seq<Promise<T, E>>)
  {
    predicate Valid() {
      forall i :: 0 <= i < |resolvers| ==> resolvers[i] < |promises|
    }

    function Push(item: Item<T, E>): Sink<T, E>
      requires Valid()
    {
      if ended then this
      else if resolvers != [] then
        this.(resolvers := resolvers[1..], promises := promises[resolvers[0] := Settled(item)])
      else this.(values := values + [item])
    }

    function Next(): Sink<T, E> {
      if values != [] then this.(values := values[1..], promises := promises + [Settled(values[0])])
      else if ended then this.(promises := promises + [Done])
      else this.(resolvers := resolvers + [|promises|], promises := promises + [Pending])
    }

    function ResolveAll(): Sink<T, E>
      requires Valid()
      decreases |resolvers|
    {
      if resolvers == [] then this
      else this.(resolvers := resolvers[1..], promises := promises[resolvers[0] := Done]).ResolveAll()
    }

    function End(): Sink<T, E>
      requires Valid()
    {
      ResolveAll().(ended := true)
    }

    function Step(op: Op<T, E>): Sink<T, E>
      requires Valid()
    {
      match op
      case Push(item) => Push(item)
      case Next => Next()
      case End => End()
    }
  }

  /** The class as written; `promises` records how the promises it handed out have been settled. */
  class AsyncSink<T, E> {
    var ended: bool
    var values: seq<Item<T, E>>
    var resolvers: seq<nat>
    var promises: seq<Promise<T, E>>

    ghost function View(): Sink<T, E>
      reads this
    {
      Sink(ended, values, resolvers, promises)
    }

    constructor ()
      ensures View() == Sink(false, [], [], [])
    {
      ended, values, resolvers, promises := false, [], [], [];
    }

    method Push(item: Item<T, E>)
      requires View().Valid()
      modifies this
      ensures View() == old(View()).Push(item)
    {
      if ended {
        return;
      }
      if |resolvers| > 0 {
        var resolver := resolvers[0];
        resolvers := resolvers[1..];
        promises := promises[resolver := Settled(item)];
      } else {
        values := values + [item];
      }
    }

    method Write(value: T)
      requires View().Valid()
      modifies this
      ensures View() == old(View()).Push(Value(value))
    {
      Push(Value(value));
    }

    method Fail(error: E)
      requires View().Valid()
      modifies this
      ensures View() == old(View()).Push(Error(error))
    {
      Push(Error(error));
    }

    method Next() returns (promise: nat)
      modifies this
      ensures View() == old(View()).Next()
      ensures promise == |old(promises)| < |promises|
    {
      promise := |promises|;
      if |values| > 0 {
        var item := values[0];
        values := values[1..];
        promises := promises + [Settled(item)];
      } else if ended {
        promises := promises + [Done];
      } else {
        resolvers := resolvers + [promise];
        promises := promises + [Pending];
      }
    }

    method End()
      requires View().Valid()
      modifies this
      ensures View() == old(View()).End()
    {
      while |resolvers| > 0
        invariant View().Valid() && View().ResolveAll() == old(View()).ResolveAll()
        invariant ended == old(ended)
        decreases |resolvers|
      {
        var resolver := resolvers[0];
        resolvers := resolvers[1..];
        promises := promises[resolver := Done];
      }
      ended := true;
    }
  }

  // ------------------------------------------------------------------------------------------
  // What a history of calls means, without queues

  /** The items pushed before the first `end`. */
  ghost function Pushed<T, E>(ops: seq<Op<T, E>>): seq<Item<T, E>> {
    if ops == [] then []
    else
      var init, last := ops[..|ops| - 1], ops[|ops| - 1];
      if last.Push? && !Ended(init) then Pushed(init) + [last.item] else Pushed(init)
  }

  function Nexts<T, E>(ops: seq<Op<T, E>>): nat {
    if ops == [] then 0 else Nexts(ops[..|ops| - 1]) + if ops[|ops| - 1].Next? then 1 else 0
  }

  ghost predicate Ended<T, E>(ops: seq<Op<T, E>>) { exists i :: 0 <= i < |ops| && ops[i].End? }

  /** How the k-th `next` stands. */
  ghost function Expected<T, E>(ops: seq<Op<T, E>>, k: nat): Promise<T, E> {
    if k < |Pushed(ops)| then Settled(Pushed(ops)[k])
    else if Ended(ops) then Done
    else Pending
  }

  /** The sink after a history of calls, in any interleaving. */
  ghost function Run<T, E>(ops: seq<Op<T, E>>): (s: Sink<T, E>)
    ensures Explained(ops, s)
    decreases |ops|
  {
    if ops == [] then Sink(false, [], [], [])
    else
      var init, last := ops[..|ops| - 1], ops[|ops| - 1];
      var s := Run(init);
      assert ops == init + [last];
      StepExplained(init, s, last);
      s.Step(last)
  }

  function Numbers(from: nat, to: nat): (r: seq<nat>)
    requires from <= to
    ensures |r| == to - from && forall i :: 0 <= i < |r| ==> r[i] == from + i
  {
    seq(to - from, i requires 0 <= i => from + i)
  }

  /** The queues hold exactly the surplus of items over readers, or of readers over items. */
  ghost predicate Explained<T, E>(ops: seq<Op<T, E>>, s: Sink<T, E>) {
    var items, readers := Pushed(ops), Nexts(ops);
    && s.Valid()
    && s.ended == Ended(ops)
    && |s.promises| == readers
    && (forall k :: 0 <= k < readers ==> s.promises[k] == Expected(ops, k))
    && s.values == (if readers <= |items| then items[readers..] else [])
    && s.resolvers == (if !s.ended && |items| < readers then Numbers(|items|, readers) else [])
  }

  lemma HistoryStep<T, E>(ops: seq<Op<T, E>>, op: Op<T, E>)
    ensures Pushed(ops + [op]) == if op.Push? && !Ended(ops) then Pushed(ops) + [op.item] else Pushed(ops)
    ensures Nexts(ops + [op]) == Nexts(ops) + if op.Next? then 1 else 0
    ensures Ended(ops + [op]) <==> Ended(ops) || op.End?
  {
    var all := ops + [op];
    assert all[..|ops|] == ops;
    assert op.End? ==> all[|ops|].End?;
    assert forall i :: 0 <= i < |ops| ==> all[i] == ops[i];
  }

  lemma {:induction false} ResolveAllDone<T, E>(s: Sink<T, E>)
    requires s.Valid()
    ensures var r := s.ResolveAll();
      && r.ended == s.ended && r.values == s.values && r.resolvers == [] && |r.promises| == |s.promises|
      && forall k: nat :: k < |s.promises| ==> r.promises[k] == if k in s.resolvers then Done else s.promises[k]
    decreases |s.resolvers|
  {
    if s.resolvers != [] {
      ResolveAllDone(s.(resolvers := s.resolvers[1..], promises := s.promises[s.resolvers[0] := Done]));
      assert s.resolvers == [s.resolvers[0]] + s.resolvers[1..];
    }
  }

  lemma PushExplained<T, E>(ops: seq<Op<T, E>>, s: Sink<T, E>, item: Item<T, E>)
    requires Explained(ops, s)
    ensures Explained(ops + [Push(item)], s.Push(item))
  {
    var items, readers := Pushed(ops), Nexts(ops);
    ExpectedAfterPush(ops, item);
    if s.ended {
      assert s.Push(item) == s;
    } else if |items| < readers {
      assert s.resolvers[0] == |items|;
      assert s.resolvers[1..] == Numbers(|items| + 1, readers);
    } else {
      assert s.resolvers == [];
      assert (items + [item])[readers..] == items[readers..] + [item];
    }
  }

  /** A push decides the promise of the first reader that has no item yet, if there can be one. */
  lemma ExpectedAfterPush<T, E>(ops: seq<Op<T, E>>, item: Item<T, E>)
    ensures var ops' := ops + [Push(item)];
      && Nexts(ops') == Nexts(ops) && Ended(ops') == Ended(ops)
      && Pushed(ops') == (if Ended(ops) then Pushed(ops) else Pushed(ops) + [item])
      && forall k: nat :: Expected(ops', k) ==
             if !Ended(ops) && k == |Pushed(ops)| then Settled(item) else Expected(ops, k)
  {
    HistoryStep(ops, Push(item));
  }

  lemma ExpectedAfterNext<T, E>(ops: seq<Op<T, E>>)
    ensures var ops' := ops + [Op<T, E>.Next];
      && Nexts(ops') == Nexts(ops) + 1 && Ended(ops') == Ended(ops) && Pushed(ops') == Pushed(ops)
      && forall k: nat :: Expected(ops', k) == Expected(ops, k)
  {
    HistoryStep(ops, Op<T, E>.Next);
  }

  lemma NextExplained<T, E>(ops: seq<Op<T, E>>, s: Sink<T, E>)
    requires Explained(ops, s)
    ensures Explained(ops + [Op<T, E>.Next], s.Next())
  {
    ExpectedAfterNext(ops);
    var items, readers := Pushed(ops), Nexts(ops);
    if !s.ended && |items| <= readers {
      assert Numbers(|items|, readers + 1) == Numbers(|items|, readers) + [readers];
    }
  }

  /** Every call keeps the explanation. */
  lemma StepExplained<T, E>(ops: seq<Op<T, E>>, s: Sink<T, E>, op: Op<T, E>)
    requires Explained(ops, s)
    ensures Explained(ops + [op], s.Step(op))
  {
    match op {
      case Push(item) => PushExplained(ops, s, item);
      case Next => NextExplained(ops, s);
      case End =>
        HistoryStep(ops, op);
        EndSettles(ops, s);
    }
  }

  lemma EndSettles<T, E>(ops: seq<Op<T, E>>, s: Sink<T, E>)
    requires Explained(ops, s)
    ensures var e := s.End(); e.resolvers == [] && e.values == s.values && |e.promises| == |s.promises|
    ensures forall k: nat :: k < Nexts(ops) ==>
              s.End().promises[k] == if k < |Pushed(ops)| then Settled(Pushed(ops)[k]) else Done
  {
    ResolveAllDone(s);
    forall k: nat | k < Nexts(ops)
      ensures k in s.resolvers <==> !s.ended && |Pushed(ops)| <= k
    {
      assert !s.ended && |Pushed(ops)| <= k ==> s.resolvers[k - |Pushed(ops)|] == k;
    }
  }

  /**
   * For every interleaving: the k-th `next` gets the k-th item pushed before the first `end`, else done once
   * ended, else it waits; and values and waiting readers are never both present.
   */
  lemma SettledInOrder<T, E>(ops: seq<Op<T, E>>)
    ensures |Run(ops).promises| == Nexts(ops)
    ensures forall k :: 0 <= k < Nexts(ops) ==> Run(ops).promises[k] == Expected(ops, k)
    ensures Run(ops).values == [] || Run(ops).resolvers == []
    ensures |Run(ops).values| == if Nexts(ops) < |Pushed(ops)| then |Pushed(ops)| - Nexts(ops) else 0
  {
    assert Explained(ops, Run(ops));
  }

  lemma {:induction false} ExpectedForever<T, E>(ops: seq<Op<T, E>>, more: seq<Op<T, E>>, k: nat)
    requires !Expected(ops, k).Pending?
    ensures Nexts(ops) <= Nexts(ops + more) && Expected(ops + more, k) == Expected(ops, k)
    decreases |more|
  {
    if more == [] {
      assert ops + more == ops;
    } else {
      var init, last := more[..|more| - 1], more[|more| - 1];
      ExpectedForever(ops, init, k);
      assert ops + more == (ops + init) + [last];
      HistoryStep(ops + init, last);
    }
  }

  /** A settled promise never changes again, whatever is called next. */
  lemma SettledForever<T, E>(ops: seq<Op<T, E>>, more: seq<Op<T, E>>, k: nat)
    requires k < Nexts(ops) && !Run(ops).promises[k].Pending?
    ensures k < Nexts(ops + more) && Run(ops + more).promises[k] == Run(ops).promises[k]
  {
    SettledInOrder(ops);
    SettledInOrder(ops + more);
    ExpectedForever(ops, more, k);
  }
}
