/**
 * Composing middleware: composeServerMiddleware.ts and composeClientMiddleware.ts in packages/nice-grpc-common/src.
 */
module Middleware {

  /** What a middleware is given; `Resp` stands for the generator it returns. */
  datatype Call<!Req, !Ctx, !Resp> = Call(path: string, request: Req, next: (Req, Ctx) -> Resp)
  {
    function WithRequest(r: Req): Call<Req, Ctx, Resp> { Call(path, r, next) }

    function WithNext(n: (Req, Ctx) -> Resp): Call<Req, Ctx, Resp> { Call(path, request, n) }
  }

  type Middleware<!Req, !Ctx, !Resp> = (Call<Req, Ctx, Resp>, Ctx) -> Resp

  function ComposeServer<Req, Ctx, Resp>(
    middleware1: Middleware<Req, Ctx, Resp>, middleware2: Middleware<Req, Ctx, Resp>): Middleware<Req, Ctx, Resp>
  {
    (call: Call<Req, Ctx, Resp>, context: Ctx) =>
      middleware1(call.WithNext((request, context1) => middleware2(call.WithRequest(request), context1)), context)
  }

  function ComposeClient<Req, Ctx, Resp>(
    middleware1: Middleware<Req, Ctx, Resp>, middleware2: Middleware<Req, Ctx, Resp>): Middleware<Req, Ctx, Resp>
  {
    (call: Call<Req, Ctx, Resp>, options: Ctx) =>
      middleware2(call.WithNext((request, options2) => middleware1(call.WithRequest(request), options2)), options)
  }

  /** `server.use` called for each middleware in turn. */
  function ServerChain<Req, Ctx, Resp>(ms: seq<Middleware<Req, Ctx, Resp>>): Middleware<Req, Ctx, Resp>
    requires ms != []
    decreases |ms|
  {
    if |ms| == 1 then ms[0] else ComposeServer(ServerChain(ms[..|ms| - 1]), ms[|ms| - 1])
  }

  /** `clientFactory.use` called for each middleware in turn. */
  function ClientChain<Req, Ctx, Resp>(ms: seq<Middleware<Req, Ctx, Resp>>): Middleware<Req, Ctx, Resp>
    requires ms != []
    decreases |ms|
  {
    if |ms| == 1 then ms[0] else ComposeClient(ClientChain(ms[..|ms| - 1]), ms[|ms| - 1])
  }

  // ------------------------------------------------------------------------------------------
  // Calls that cannot be told apart

  ghost predicate SameCall<Req(!new), Ctx(!new), Resp>(a: Call<Req, Ctx, Resp>, b: Call<Req, Ctx, Resp>) {
    a.path == b.path && a.request == b.request && forall r, c :: a.next(r, c) == b.next(r, c)
  }

  /** A middleware can only use `next` by calling it. */
  ghost predicate Extensional<Req(!new), Ctx(!new), Resp(!new)>(m: Middleware<Req, Ctx, Resp>) {
    forall a, b, ctx :: SameCall(a, b) ==> m(a, ctx) == m(b, ctx)
  }

  ghost predicate SameMiddleware<Req(!new), Ctx(!new), Resp(!new)>(
    m: Middleware<Req, Ctx, Resp>, n: Middleware<Req, Ctx, Resp>)
  {
    forall call, ctx :: m(call, ctx) == n(call, ctx)
  }

  lemma ComposeExtensional<Req(!new), Ctx(!new), Resp(!new)>(m1: Middleware<Req, Ctx, Resp>,
                                                             m2: Middleware<Req, Ctx, Resp>)
    requires Extensional(m1) && Extensional(m2)
    ensures Extensional(ComposeServer(m1, m2)) && Extensional(ComposeClient(m2, m1))
  {
    forall a: Call<Req, Ctx, Resp>, b: Call<Req, Ctx, Resp>, ctx: Ctx | SameCall(a, b)
      ensures ComposeServer(m1, m2)(a, ctx) == ComposeServer(m1, m2)(b, ctx)
      ensures ComposeClient(m2, m1)(a, ctx) == ComposeClient(m2, m1)(b, ctx)
    {
      var a1 := a.WithNext((r, c) => m2(a.WithRequest(r), c));
      var b1 := b.WithNext((r, c) => m2(b.WithRequest(r), c));
      forall r: Req, c: Ctx
        ensures a1.next(r, c) == b1.next(r, c)
      {
        assert SameCall(a.WithRequest(r), b.WithRequest(r));
      }
      assert SameCall(a1, b1);
      assert ComposeServer(m1, m2)(a, ctx) == m1(a1, ctx);
    }
  }

  /** Grouping does not matter. */
  lemma ServerAssociative<Req(!new), Ctx(!new), Resp(!new)>(
    m1: Middleware<Req, Ctx, Resp>, m2: Middleware<Req, Ctx, Resp>, m3: Middleware<Req, Ctx, Resp>)
    requires Extensional(m1) && Extensional(m2) && Extensional(m3)
    ensures SameMiddleware(ComposeServer(ComposeServer(m1, m2), m3), ComposeServer(m1, ComposeServer(m2, m3)))
  {
    forall call: Call<Req, Ctx, Resp>, ctx: Ctx
      ensures ComposeServer(ComposeServer(m1, m2), m3)(call, ctx) == ComposeServer(m1, ComposeServer(m2, m3))(call, ctx)
    {
      var inner := call.WithNext((r, c) => m3(call.WithRequest(r), c));
      var left := inner.WithNext((r, c) => m2(inner.WithRequest(r), c));
      var right := call.WithNext((r, c) => ComposeServer(m2, m3)(call.WithRequest(r), c));
      forall r: Req, c: Ctx
        ensures left.next(r, c) == right.next(r, c)
      {
        var own := call.WithRequest(r);
        assert forall r2 :: own.WithRequest(r2) == call.WithRequest(r2);
        var own3 := own.WithNext((r2, c2) => m3(own.WithRequest(r2), c2));
        assert SameCall(inner.WithRequest(r), own3);
        assert ComposeServer(m2, m3)(own, c) == m2(own3, c);
      }
      assert SameCall(left, right);
    }
  }

  lemma ClientAssociative<Req(!new), Ctx(!new), Resp(!new)>(
    m1: Middleware<Req, Ctx, Resp>, m2: Middleware<Req, Ctx, Resp>, m3: Middleware<Req, Ctx, Resp>)
    requires Extensional(m1) && Extensional(m2) && Extensional(m3)
    ensures SameMiddleware(ComposeClient(ComposeClient(m1, m2), m3), ComposeClient(m1, ComposeClient(m2, m3)))
  {
    forall call: Call<Req, Ctx, Resp>, ctx: Ctx
      ensures ComposeClient(ComposeClient(m1, m2), m3)(call, ctx) == ComposeClient(m1, ComposeClient(m2, m3))(call, ctx)
    {
      var inner := call.WithNext((r, c) => m1(call.WithRequest(r), c));
      var right := inner.WithNext((r, c) => m2(inner.WithRequest(r), c));
      var left := call.WithNext((r, c) => ComposeClient(m1, m2)(call.WithRequest(r), c));
      forall r: Req, c: Ctx
        ensures left.next(r, c) == right.next(r, c)
      {
        var own := call.WithRequest(r);
        assert forall r2 :: own.WithRequest(r2) == call.WithRequest(r2);
        var own1 := own.WithNext((r2, c2) => m1(own.WithRequest(r2), c2));
        assert SameCall(inner.WithRequest(r), own1);
        assert ComposeClient(m1, m2)(own, c) == m2(own1, c);
      }
      assert SameCall(left, right);
    }
  }

  // ------------------------------------------------------------------------------------------
  // The order in which a chain runs

  /** Running a list outside in: each middleware's `next` runs the rest, with the request it is given. */
  ghost function Nest<Req, Ctx, Resp>(ms: seq<Middleware<Req, Ctx, Resp>>, call: Call<Req, Ctx, Resp>, ctx: Ctx): Resp
    decreases |ms|
  {
    if ms == [] then call.next(call.request, ctx)
    else ms[0](call.WithNext((r, c) => Nest(ms[1..], call.WithRequest(r), c)), ctx)
  }

  /** Adding a middleware at the inner end. */
  lemma {:induction false} NestSnoc<Req(!new), Ctx(!new), Resp(!new)>(
    ms: seq<Middleware<Req, Ctx, Resp>>, m: Middleware<Req, Ctx, Resp>, call: Call<Req, Ctx, Resp>, ctx: Ctx)
    requires Extensional(m) && forall i :: 0 <= i < |ms| ==> Extensional(ms[i])
    ensures Nest(ms + [m], call, ctx) == Nest(ms, call.WithNext((r, c) => m(call.WithRequest(r), c)), ctx)
    decreases |ms|
  {
    var call1 := call.WithNext((r, c) => m(call.WithRequest(r), c));
    if ms == [] {
      var call2 := call.WithNext((r, c) => Nest([m][1..], call.WithRequest(r), c));
      assert ms + [m] == [m] && SameCall(call2, call);
      assert call.WithRequest(call.request) == call;
    } else {
      var rest := ms[1..];
      assert (ms + [m])[1..] == rest + [m];
      var left := call.WithNext((r, c) => Nest((ms + [m])[1..], call.WithRequest(r), c));
      var right := call1.WithNext((r, c) => Nest(ms[1..], call1.WithRequest(r), c));
      forall r: Req, c: Ctx
        ensures left.next(r, c) == right.next(r, c)
      {
        var own := call.WithRequest(r);
        assert forall r2 :: own.WithRequest(r2) == call.WithRequest(r2);
        NestSnoc(rest, m, own, c);
        NestSame(rest, own.WithNext((r2, c2) => m(own.WithRequest(r2), c2)), call1.WithRequest(r), c);
      }
      assert SameCall(left, right);
      assert Extensional(ms[0]);
    }
  }

  lemma {:induction false} NestSame<Req(!new), Ctx(!new), Resp(!new)>(
    ms: seq<Middleware<Req, Ctx, Resp>>, a: Call<Req, Ctx, Resp>, b: Call<Req, Ctx, Resp>, ctx: Ctx)
    requires SameCall(a, b) && forall i :: 0 <= i < |ms| ==> Extensional(ms[i])
    ensures Nest(ms, a, ctx) == Nest(ms, b, ctx)
    decreases |ms|
  {
    if ms != [] {
      var a1 := a.WithNext((r, c) => Nest(ms[1..], a.WithRequest(r), c));
      var b1 := b.WithNext((r, c) => Nest(ms[1..], b.WithRequest(r), c));
      forall r: Req, c: Ctx
        ensures a1.next(r, c) == b1.next(r, c)
      {
        NestSame(ms[1..], a.WithRequest(r), b.WithRequest(r), c);
      }
      assert SameCall(a1, b1);
      assert Extensional(ms[0]);
    }
  }

  /** Adding a middleware at the outer end. */
  lemma NestCons<Req(!new), Ctx(!new), Resp(!new)>(
    m: Middleware<Req, Ctx, Resp>, ms: seq<Middleware<Req, Ctx, Resp>>, call: Call<Req, Ctx, Resp>, ctx: Ctx)
    ensures Nest([m] + ms, call, ctx) == m(call.WithNext((r, c) => Nest(([m] + ms)[1..], call.WithRequest(r), c)), ctx)
    ensures ([m] + ms)[1..] == ms
  {
  }

  /** On a server the first-attached middleware is outermost. */
  lemma {:induction false} ServerOrder<Req(!new), Ctx(!new), Resp(!new)>(
    ms: seq<Middleware<Req, Ctx, Resp>>, call: Call<Req, Ctx, Resp>, ctx: Ctx)
    requires ms != [] && forall i :: 0 <= i < |ms| ==> Extensional(ms[i])
    ensures ServerChain(ms)(call, ctx) == Nest(ms, call, ctx)
    decreases |ms|
  {
    var init, last := ms[..|ms| - 1], ms[|ms| - 1];
    assert ms == init + [last];
    assert Extensional(last);
    if init == [] {
      var call1 := call.WithNext((r, c) => Nest(ms[1..], call.WithRequest(r), c));
      assert ms[1..] == [];
      assert SameCall(call1, call);
    } else {
      NestSnoc(init, last, call, ctx);
      var call1 := call.WithNext((r, c) => last(call.WithRequest(r), c));
      ServerOrder(init, call1, ctx);
    }
  }

  function Reverse<T>(s: seq<T>): seq<T> {
    if s == [] then [] else [s[|s| - 1]] + Reverse(s[..|s| - 1])
  }

  /** On a client the last-attached middleware is outermost. */
  lemma {:induction false} ClientOrder<Req(!new), Ctx(!new), Resp(!new)>(
    ms: seq<Middleware<Req, Ctx, Resp>>, call: Call<Req, Ctx, Resp>, ctx: Ctx)
    requires ms != [] && forall i :: 0 <= i < |ms| ==> Extensional(ms[i])
    ensures ClientChain(ms)(call, ctx) == Nest(Reverse(ms), call, ctx)
    decreases |ms|
  {
    var init, last := ms[..|ms| - 1], ms[|ms| - 1];
    assert Extensional(last);
    NestCons(last, Reverse(init), call, ctx);
    var outer := call.WithNext((r, c) => Nest(([last] + Reverse(init))[1..], call.WithRequest(r), c));
    if init == [] {
      assert SameCall(outer, call);
    } else {
      var inner := call.WithNext((r, c) => ClientChain(init)(call.WithRequest(r), c));
      forall r: Req, c: Ctx
        ensures inner.next(r, c) == outer.next(r, c)
      {
        ClientOrder(init, call.WithRequest(r), c);
      }
      assert SameCall(inner, outer);
    }
  }
}
