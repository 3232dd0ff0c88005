/**
 `GraphQL\Promise\Promise`: a stored value plus two handler lists.

 `then` does not create a derived promise: it appends to the lists and
 returns the same promise, and `wait` later feeds the flattened value through
 every fulfilment handler in registration order.
 */
module BuiltinPromise {
  import opened PhpValues
  import opened Completion
  import opened FlattenFacts

  /** `Promise::all($promiseOrValues)`: a promise holding the value, with no handlers. */
  function All(v: Value): (p: Promise)
    ensures p.source == v && p.onFulfilled == [] && p.onRejected == []
  {
    Promise(v, [], [])
  }

  function Registered(h: Option<Callable>): seq<Callable> {
    if h.Some? then [h.value] else []
  }

  /** `Promise::then`: each non-null handler is appended to its own list; the
      stored value is untouched and the result stands for the same promise. */
  function Then(p: Promise, onFulfilled: Option<Callable>, onRejected: Option<Callable>): (q: Promise)
    ensures q.source == p.source
    ensures |q.onFulfilled| == |p.onFulfilled| + (if onFulfilled.Some? then 1 else 0)
    ensures |q.onRejected| == |p.onRejected| + (if onRejected.Some? then 1 else 0)
    ensures q.onFulfilled[..|p.onFulfilled|] == p.onFulfilled
    ensures q.onRejected[..|p.onRejected|] == p.onRejected
    ensures onFulfilled.Some? ==> q.onFulfilled[|p.onFulfilled|] == onFulfilled.value
    ensures onRejected.Some? ==> q.onRejected[|p.onRejected|] == onRejected.value
    ensures onFulfilled.None? && onRejected.None? ==> q == p
  {
    Promise(p.source, p.onFulfilled + Registered(onFulfilled), p.onRejected + Registered(onRejected))
  }

  /** Registering one more handler feeds it the output of the handlers
      registered before it. */
  lemma {:induction false} ChainAppend(call: Behaviour, hs: seq<Callable>, h: Callable, v: Value)
    ensures Chain(call, hs + [h], v) ==
      match Chain(call, hs, v) {
        case Ok(w) => call(h, w)
        case Thrown(t) => Thrown(t)
      }
  {
    if |hs| > 0 {
      assert (hs + [h])[1..] == hs[1..] + [h];
      match call(hs[0], v)
      case Ok(w) => ChainAppend(call, hs[1..], h, w);
      case Thrown(_) =>
    }
  }

  /** A handler that throws ends the chain: the handlers after it are never
      run and the throw is the chain's result. */
  lemma {:induction false} ChainStopsAtThrow(call: Behaviour, hs: seq<Callable>, i: nat, v: Value, w: Value, t: Throwable)
    requires i < |hs|
    requires Chain(call, hs[..i], v) == Ok(w)
    requires call(hs[i], w) == Thrown(t)
    ensures Chain(call, hs, v) == Thrown(t)
  {
    if i == 0 {
    } else {
      assert hs[..i][0] == hs[0];
      assert hs[..i][1..] == hs[1..][..i - 1];
      match call(hs[0], v)
      case Ok(v') => ChainStopsAtThrow(call, hs[1..], i - 1, v', w, t);
      case Thrown(_) =>
    }
  }

  /** Waiting on a fresh promise is exactly flattening its value; in
      particular a flat value comes back unchanged. */
  lemma WaitOnFreshPromiseFlattens(call: Behaviour, v: Value, fuel: nat)
    ensures PromiseWait(call, All(v), fuel) == Flatten(call, v, fuel)
    ensures Flat(v) ==> PromiseWait(call, All(v), fuel) == Done(Ok(v))
  {
    if Flat(v) {
      FlatIsFixpoint(call, v, fuel);
    }
  }

  /** With every fulfilment handler returning normally, `wait` returns the
      last handler's output; without handlers, the flattened value. */
  lemma WaitRunsFulfilmentHandlers(call: Behaviour, p: Promise, fuel: nat, flat: Value, x: Value)
    requires Flatten(call, p.source, fuel) == Done(Ok(flat))
    requires Chain(call, p.onFulfilled, flat) == Ok(x)
    ensures PromiseWait(call, p, fuel) == Done(Ok(x))
    ensures p.onFulfilled == [] ==> x == flat
  {
  }

  /** `then(f)` followed by `wait` applies `f` to what `wait` would have
      returned before `f` was registered. */
  lemma ThenThenWait(call: Behaviour, p: Promise, f: Callable, fuel: nat, flat: Value, x: Value)
    requires Flatten(call, p.source, fuel) == Done(Ok(flat))
    requires Chain(call, p.onFulfilled, flat) == Ok(x)
    requires call(f, x).Ok?
    ensures PromiseWait(call, p, fuel) == Done(Ok(x))
    ensures PromiseWait(call, Then(p, Some(f), None), fuel) == Done(call(f, x))
  {
    ChainAppend(call, p.onFulfilled, f, flat);
  }

  /** A fulfilment handler that throws an exception skips the handlers after
      it and hands the exception to the rejection handlers. */
  lemma WaitRejectsOnHandlerException(call: Behaviour, p: Promise, fuel: nat, flat: Value, i: nat, w: Value, t: Throwable)
    requires Flatten(call, p.source, fuel) == Done(Ok(flat))
    requires i < |p.onFulfilled|
    requires Chain(call, p.onFulfilled[..i], flat) == Ok(w)
    requires call(p.onFulfilled[i], w) == Thrown(t) && t.IsException()
    ensures PromiseWait(call, p, fuel) == Done(Reject(call, p.onRejected, t))
  {
    ChainStopsAtThrow(call, p.onFulfilled, i, flat, w, t);
  }

  /** An exception while flattening the stored value skips every fulfilment
      handler; an engine error is not caught at all. */
  lemma WaitRejectsOnFlattenThrow(call: Behaviour, p: Promise, fuel: nat, t: Throwable)
    requires Flatten(call, p.source, fuel) == Done(Thrown(t))
    ensures t.IsException() ==> PromiseWait(call, p, fuel) == Done(Reject(call, p.onRejected, t))
    ensures !t.IsException() ==> PromiseWait(call, p, fuel) == Done(Thrown(t))
  {
  }

  /** Rejection handlers run in order on the exception; if the last one
      returns an exception it is thrown, if it returns anything else `wait`
      returns `null` rather than that value. */
  lemma RejectOutcome(call: Behaviour, hs: seq<Callable>, t: Throwable, reason: Value)
    requires t.IsException()
    requires Chain(call, hs, Exn(t)) == Ok(reason)
    ensures reason.Exn? && reason.throwable.IsException() ==> Reject(call, hs, t) == Thrown(reason.throwable)
    ensures !(reason.Exn? && reason.throwable.IsException()) ==> Reject(call, hs, t) == Ok(Null)
  {
  }
}
