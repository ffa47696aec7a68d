/**
 * The interception protocol of the dynamic proxy put around interface
 * components, and the reflective call it wraps.
 *
 * Objects are known by an identity (`nat`). An interceptor provider is known
 * by its identity too; what it answers for a method is a `Query` passed to
 * every call, so whatever the providers answer at the time of a call is what
 * that call uses. The interceptors' hooks are events in a trace.
 */
module Interception {
  import opened Errors

  //-----------------------------------------------------------------------------
  // MethodInvoker
  //-----------------------------------------------------------------------------

  /** What `Method.invoke` does for one call of the target method. */
  datatype Reflective =
      // the target returned this object
    | Returned(result: nat)
      // `InvocationTargetException` whose cause is an `Exception`
    | ThrewException(exception: nat)
      // `InvocationTargetException` whose cause is an `Error` or other non-`Exception` throwable
    | ThrewError(throwable: nat)
      // `IllegalArgumentException` from the reflective call itself
    | BadArguments
      // `IllegalAccessException` from the reflective call itself
    | NotAccessible

  /** An exception reaching the caller: the target's own, or an `InjectorException` wrapping the failure. */
  datatype Thrown = Thrown(exception: nat) | InjectorException(cause: Reflective)

  /** How a call ends. */
  datatype Outcome = Return(result: nat) | Raise(exception: Thrown)

  /**
   * `MethodInvoker.invoke`: a normal return passes the result through, an
   * `Exception` from the target is rethrown as it is, and everything else
   * (an `Error` from the target, a failure of the reflective call) becomes an
   * `InjectorException` wrapping it.
   */
  function Invoke(o: Reflective): (r: Outcome)
    ensures r.Return? <==> o.Returned?
    ensures o.Returned? ==> r.result == o.result
    ensures (r.Raise? && r.exception.Thrown?) <==> o.ThrewException?
    ensures o.ThrewException? ==> r.exception.exception == o.exception
    ensures (r.Raise? && r.exception.InjectorException?) <==> (o.ThrewError? || o.BadArguments? || o.NotAccessible?)
    ensures r.Raise? && r.exception.InjectorException? ==> r.exception.cause == o
  {
    match o
    case Returned(x) => Return(x)
    case ThrewException(e) => Raise(Thrown(e))
    case _ => Raise(InjectorException(o))
  }

  //-----------------------------------------------------------------------------
  // GenericInvocationHandler
  //-----------------------------------------------------------------------------

  /** What interceptor (by identity), if any, a provider answers for a method. */
  type Query = (nat, string) -> Option<nat>

  /**
   * The handler of one proxy: the wrapped instance and the container's
   * interceptor providers (possibly null). It keeps nothing else, in
   * particular no interceptor list between calls.
   */
  datatype Handler<T> = Handler(target: T, providers: Option<seq<nat>>)

  /** The handler constructor rejects a null instance. */
  function NewHandler<T>(instance: Option<T>, providers: Option<seq<nat>>): (r: Result<Handler<T>>)
    ensures r.Err? <==> instance.None?
    ensures r.Err? ==> r.error == NullComponentInstance
    ensures r.Ok? ==> r.value.target == instance.value && r.value.providers == providers
  {
    match instance
    case None => Err(NullComponentInstance)
    case Some(t) => Ok(Handler(t, providers))
  }

  /** The interceptors the providers of `ps` answer for `m`, in provider order, nulls dropped. */
  function Collect(ps: seq<nat>, q: Query, m: string): seq<nat>
    decreases |ps|
  {
    if ps == [] then []
    else
      var last := q(ps[|ps| - 1], m);
      Collect(ps[..|ps| - 1], q, m) + (if last.Some? then [last.value] else [])
  }

  /** Collecting over two runs of providers concatenates their answers: the order is kept. */
  lemma {:induction false} CollectAppend(a: seq<nat>, b: seq<nat>, q: Query, m: string)
    ensures Collect(a + b, q, m) == Collect(a, q, m) + Collect(b, q, m)
    decreases |b|
  {
    if b == [] {
      assert a + b == a;
    } else {
      var b' := b[..|b| - 1];
      CollectAppend(a, b', q, m);
      assert (a + b)[..|a + b| - 1] == a + b';
      assert (a + b)[|a + b| - 1] == b[|b| - 1];
    }
  }

  /** An interceptor is collected exactly when some provider answers it. */
  lemma {:induction false} CollectMembers(ps: seq<nat>, q: Query, m: string, x: nat)
    ensures x in Collect(ps, q, m) <==> exists i :: 0 <= i < |ps| && q(ps[i], m) == Some(x)
    decreases |ps|
  {
    if ps != [] {
      var init := ps[..|ps| - 1];
      CollectMembers(init, q, m, x);
      assert forall i :: 0 <= i < |init| ==> init[i] == ps[i];
      if x in Collect(ps, q, m) && x !in Collect(init, q, m) {
        assert q(ps[|ps| - 1], m) == Some(x);
      }
    }
  }

  /** The interceptors in force for a call, or null when there is none (or no provider array). */
  function ActiveInterceptors(providers: Option<seq<nat>>, q: Query, m: string): (r: Option<seq<nat>>)
    ensures r.None? <==> providers.None? || Collect(providers.value, q, m) == []
    ensures r.Some? ==> r.value == Collect(providers.value, q, m) && |r.value| > 0
  {
    match providers
    case None => None
    case Some(ps) =>
      var active := Collect(ps, q, m);
      if |active| > 0 then Some(active) else None
  }

  /**
   * `getActiveInterceptorsForMethod`: asks every provider in registration
   * order and keeps the non-null answers.
   */
  method GetActiveInterceptorsForMethod(providers: Option<seq<nat>>, q: Query, m: string)
    returns (r: Option<seq<nat>>)
    ensures r == ActiveInterceptors(providers, q, m)
    ensures r.Some? ==> forall k :: 0 <= k < |r.value| ==>
                          exists i :: 0 <= i < |providers.value| && q(providers.value[i], m) == Some(r.value[k])
  {
    r := None;
    if providers.Some? {
      var ps := providers.value;
      var active: seq<nat> := [];
      var i := 0;
      while i < |ps|
        invariant 0 <= i <= |ps|
        invariant active == Collect(ps[..i], q, m)
      {
        assert ps[..i + 1][..i] == ps[..i];
        var interceptor := q(ps[i], m);
        if interceptor.Some? {
          active := active + [interceptor.value];
        }
        i := i + 1;
      }
      assert ps[..i] == ps;
      if |active| > 0 {
        r := Some(active);
        forall k | 0 <= k < |active|
          ensures exists i :: 0 <= i < |ps| && q(ps[i], m) == Some(active[k])
        {
          CollectMembers(ps, q, m, active[k]);
        }
      }
    }
  }

  /** The hooks an interceptor sees, and the call of the target itself. */
  datatype Event =
    | BeforeCall(interceptor: nat)
    | Invoked
    | AfterCall(interceptor: nat, result: nat)
    | OnError(interceptor: nat, exception: Thrown)

  /** `notifyInterceptorsBeforeCall`: one `beforeCall` per interceptor, in order. */
  function Befores(chain: seq<nat>): (r: seq<Event>)
    ensures |r| == |chain|
    ensures forall k :: 0 <= k < |chain| ==> r[k] == BeforeCall(chain[k])
  {
    if chain == [] then [] else Befores(chain[..|chain| - 1]) + [BeforeCall(chain[|chain| - 1])]
  }

  /** The closing hook of interceptor `i`: `afterCall` with the result, or `onError` with the exception. */
  function Closing(i: nat, out: Outcome): Event {
    match out
    case Return(x) => AfterCall(i, x)
    case Raise(e) => OnError(i, e)
  }

  /** `notifyInterceptorsAfterCall` and `notifyInterceptorsOnError`: one closing hook per interceptor, last first. */
  function Unwind(chain: seq<nat>, out: Outcome): (r: seq<Event>)
    ensures |r| == |chain|
    ensures forall k :: 0 <= k < |chain| ==> r[k] == Closing(chain[|chain| - 1 - k], out)
  {
    if chain == [] then [] else [Closing(chain[|chain| - 1], out)] + Unwind(chain[..|chain| - 1], out)
  }

  /** One call through the proxy: the hooks in the order they ran, and how the call ended. */
  datatype Call = Call(trace: seq<Event>, outcome: Outcome)

  /**
   * `invoke` of the handler. With active interceptors: every `beforeCall` in
   * order, the target once, then every `afterCall` (on success) or `onError`
   * (on failure) in reverse order, and the target's result or exception as
   * the outcome. Without: the target alone.
   */
  function HandleCall<T>(h: Handler<T>, q: Query, m: string, o: Reflective): (r: Call)
    ensures r.outcome == Invoke(o)
    ensures ActiveInterceptors(h.providers, q, m).None? ==> r.trace == [Invoked]
    ensures ActiveInterceptors(h.providers, q, m).Some? ==>
              var chain := ActiveInterceptors(h.providers, q, m).value;
              && |r.trace| == 2 * |chain| + 1
              && (forall k :: 0 <= k < |chain| ==> r.trace[k] == BeforeCall(chain[k]))
              && r.trace[|chain|] == Invoked
              && (forall k :: |chain| < k < |r.trace| ==> r.trace[k] == Closing(chain[2 * |chain| - k], r.outcome))
  {
    var out := Invoke(o);
    match ActiveInterceptors(h.providers, q, m)
    case None => Call([Invoked], out)
    case Some(chain) => Call(Befores(chain) + [Invoked] + Unwind(chain, out), out)
  }

  /** The target is invoked exactly once per call, after every `beforeCall` and before every closing hook. */
  lemma InvokedOnce<T>(h: Handler<T>, q: Query, m: string, o: Reflective)
    ensures var t := HandleCall(h, q, m, o).trace;
            var n := |t| / 2;
            && |t| % 2 == 1
            && (forall k :: 0 <= k < |t| ==> (t[k] == Invoked <==> k == n))
            && (forall k :: 0 <= k < n ==> t[k].BeforeCall?)
            && (forall k :: n < k < |t| ==> t[k].AfterCall? || t[k].OnError?)
  {
  }

  /**
   * A successful call runs `afterCall` hooks only, all with the target's
   * result; a failed one runs `onError` hooks only, all with the very
   * exception that is then rethrown.
   */
  lemma ClosingMatchesOutcome<T>(h: Handler<T>, q: Query, m: string, o: Reflective)
    ensures var r := HandleCall(h, q, m, o);
            && (o.Returned? ==> forall e :: e in r.trace ==> !e.OnError? && (e.AfterCall? ==> e.result == o.result))
            && (!o.Returned? ==> forall e :: e in r.trace ==> !e.AfterCall? && (e.OnError? ==> r.outcome == Raise(e.exception)))
  {
  }

  /**
   * Interceptors nest: the `k`-th from the start of the trace opens with
   * `beforeCall` and the `k`-th from the end is its own closing hook.
   */
  lemma Nesting<T>(h: Handler<T>, q: Query, m: string, o: Reflective)
    ensures var t := HandleCall(h, q, m, o).trace;
            forall k :: 0 <= k < |t| / 2 ==>
              t[k].BeforeCall? && t[|t| - 1 - k] == Closing(t[k].interceptor, Invoke(o))
  {
  }

  /** With no active interceptor the proxy is a pure pass-through: no hook runs. */
  lemma PassThrough<T>(h: Handler<T>, q: Query, m: string, o: Reflective)
    requires h.providers.None? || Collect(h.providers.value, q, m) == []
    ensures HandleCall(h, q, m, o) == Call([Invoked], Invoke(o))
  {
  }
}
