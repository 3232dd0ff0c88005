/**
 Waiting on deferred values: `Promise::completePromiseIfNeeded`,
 `Promise::wait` and `PromiseWrapper::wait`.

 The three call each other (a promise's stored value may be a wrapper, a
 wrapper may wrap a promise, and whatever `wait` returns is flattened again),
 so they live together. Each unwrapping of a thenable costs one unit of fuel;
 descending into arrays and into the structure of a promise or wrapper costs
 nothing. A computation that runs out of fuel reports `OutOfFuel`.
 */
module Completion {
  import opened PhpValues

  /** Runs the callables in order, each on the previous one's return value,
      stopping at the first that throws: the `foreach` loops of `wait`. */
  function Chain(call: Behaviour, hs: seq<Callable>, v: Value): Outcome
  {
    if |hs| == 0 then Ok(v)
    else
      match call(hs[0], v)
      case Ok(w) => Chain(call, hs[1..], w)
      case Thrown(t) => Thrown(t)
  }

  /** The body of `Promise::wait` once the stored value has been flattened
      (or flattening threw): the `try` runs the fulfilment handlers, the
      `catch (\Exception)` runs the rejection handlers over the exception, and
      the result is rethrown if it is still an exception, else `null`. */
  function Conclude(call: Behaviour, p: Promise, flat: Outcome): Outcome
  {
    var attempt := match flat {
      case Ok(v) => Chain(call, p.onFulfilled, v)
      case Thrown(t) => Thrown(t)
    };
    match attempt
    case Ok(v) => Ok(v)
    case Thrown(t) => if t.IsException() then Reject(call, p.onRejected, t) else Thrown(t)
  }

  /** The `catch` block of `Promise::wait`: the rejection handlers are run
      over the caught exception; a handler that throws ends `wait` with that
      throw; a final exception is rethrown, anything else gives `null`. */
  function Reject(call: Behaviour, hs: seq<Callable>, t: Throwable): (r: Outcome)
    requires t.IsException()
    ensures hs == [] ==> r == Thrown(t)
    ensures r.Ok? ==> r.value == Null
  {
    match Chain(call, hs, Exn(t))
    case Thrown(t') => Thrown(t')
    case Ok(reason) =>
      if reason.Exn? && reason.throwable.IsException() then Thrown(reason.throwable)
      else Ok(Null)
  }

  /** What `PromiseWrapper::wait` reports after handing two capturing
      handlers to a `then` that has no `wait` next to it. */
  function Captured(effect: ThenEffect): Outcome
  {
    match effect
    case CallsFulfil(v) => Ok(v)
    case CallsReject(t) => Thrown(t)
    case CallsNeither => Ok(Null)
    case ThenThrows(t) => Thrown(t)
  }

  /** `Promise::completePromiseIfNeeded`: a thenable is waited on and the
      result flattened again; an array or `\Traversable` is flattened entry by
      entry; anything else is returned as is. */
  function Flatten(call: Behaviour, v: Value, fuel: nat): Fueled<Outcome>
    decreases fuel, v
  {
    if IsThenable(v) then
      if fuel == 0 then OutOfFuel
      else
        var waited := match v {
          case Deferred(p) => PromiseWait(call, p, fuel - 1)
          case Wrapped(wr) => WrapperWait(call, wr, fuel - 1)
          case Obj(f) => Done(f.waitResult)
        };
        match waited
        case OutOfFuel => OutOfFuel
        case Done(Thrown(t)) => Done(Thrown(t))
        case Done(Ok(w)) => Flatten(call, w, fuel - 1)
    else if v.List? then FlattenEntries(call, v.kind, v.entries, 0, [], fuel)
    else Done(Ok(v))
  }

  /** The `foreach` over an array or `\Traversable`: entries from `i` on are
      flattened in order and assigned into the result array `acc`. */
  function FlattenEntries(call: Behaviour, kind: ListKind, es: seq<Entry>, i: nat, acc: seq<Entry>, fuel: nat): Fueled<Outcome>
    requires i <= |es|
    decreases fuel, List(kind, es), |es| - i
  {
    if i == |es| then Done(Ok(List(PhpArray, acc)))
    else
      match Flatten(call, es[i].value, fuel)
      case OutOfFuel => OutOfFuel
      case Done(Thrown(t)) => Done(Thrown(t))
      case Done(Ok(w)) => FlattenEntries(call, kind, es, i + 1, Put(acc, es[i].key, w), fuel)
  }

  /** `Promise::wait` */
  function PromiseWait(call: Behaviour, p: Promise, fuel: nat): Fueled<Outcome>
    decreases fuel, Deferred(p)
  {
    match Flatten(call, p.source, fuel)
    case OutOfFuel => OutOfFuel
    case Done(flat) => Done(Conclude(call, p, flat))
  }

  /** `PromiseWrapper::wait` */
  function WrapperWait(call: Behaviour, w: PromiseWrapper, fuel: nat): Fueled<Outcome>
    decreases fuel, Wrapped(w)
  {
    match w.wrapped
    case None => Done(Thrown(CallOnNull))
    case Some(Deferred(p)) => PromiseWait(call, p, fuel)
    case Some(Wrapped(inner)) => WrapperWait(call, inner, fuel)
    case Some(Obj(f)) =>
      if HasMethod(Obj(f), WaitMethod) then Done(f.waitResult)
      else if HasMethod(Obj(f), ThenMethod) then Done(Captured(f.thenEffect))
      else Done(Thrown(NoThenToCall))
    case Some(_) => Done(Thrown(NoThenToCall))
  }
}
