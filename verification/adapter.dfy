/**
 `GraphQL\Promise\PromiseWrapper`: an adapter around any object that has a
 callable `then`, optionally with its own `wait`.
 */
module Adapter {
  import opened PhpValues
  import opened Completion
  import BuiltinPromise

  const ThenMissing := Throwable(LogicException, "Promise does not implement \"then\" method")
  const NothingWrapped := Throwable(LogicException, "No wrapped promise found!")

  /** The wrapper invariant: it wraps nothing, or an object with a callable `then`. */
  predicate Valid(w: PromiseWrapper) {
    w.wrapped.None? || HasMethod(w.wrapped.value, ThenMethod)
  }

  /** `setWrappedPromise`: the only way a candidate gets into a wrapper. */
  function SetWrappedPromise(w: PromiseWrapper, candidate: Value): (r: Result<PromiseWrapper>)
    ensures r.Ok? <==> HasMethod(candidate, ThenMethod)
    ensures r.Ok? ==> r.value.wrapped == Some(candidate) && Valid(r.value)
    ensures r.Thrown? ==> r.error == ThenMissing
  {
    if !HasMethod(candidate, ThenMethod) then Thrown(ThenMissing)
    else Ok(w.(wrapped := Some(candidate)))
  }

  /** `new PromiseWrapper($candidate)` and `PromiseWrapper::wrap($candidate)`:
      `null` gives an empty wrapper, anything else goes through the setter. */
  function Wrap(candidate: Value): (r: Outcome)
    ensures candidate == Null ==> r == Ok(Wrapped(PromiseWrapper(None)))
    ensures candidate != Null ==> (r.Ok? <==> HasMethod(candidate, ThenMethod))
    ensures candidate != Null && r.Ok? ==> r.value == Wrapped(PromiseWrapper(Some(candidate)))
    ensures r.Ok? ==> r.value.Wrapped? && Valid(r.value.wrapper)
    ensures r.Thrown? ==> r.error == ThenMissing
  {
    var empty := PromiseWrapper(None);
    if candidate == Null then Ok(Wrapped(empty))
    else
      match SetWrappedPromise(empty, candidate)
      case Ok(w) => Ok(Wrapped(w))
      case Thrown(t) => Thrown(t)
  }

  /** `PromiseWrapper::then`: an empty wrapper is refused first; two null
      handlers return the wrapper itself; otherwise the wrapped object's
      `then` result is wrapped anew, which validates it again. PHP's
      emptiness test is falsiness, modelled as `None?`: a wrapper holding
      `null` or another falsy value is not reachable, since `Valid` admits
      only objects, and objects are never falsy. */
  function WrapperThen(w: PromiseWrapper, onFulfilled: Option<Callable>, onRejected: Option<Callable>): (r: Outcome)
    ensures w.wrapped.None? ==> r == Thrown(NothingWrapped)
    ensures w.wrapped.Some? && onFulfilled.None? && onRejected.None? ==> r == Ok(Wrapped(w))
    ensures r.Ok? ==> r.value.Wrapped?
    ensures r.Ok? && (onFulfilled.Some? || onRejected.Some?) ==> Valid(r.value.wrapper)
    ensures w.wrapped.Some? && (onFulfilled.Some? || onRejected.Some?) ==>
      var inner := w.wrapped.value;
      && (!HasMethod(inner, ThenMethod) ==> r == Thrown(NoThenToCall))
      && (inner.Deferred? ==> r == Ok(Wrapped(PromiseWrapper(Some(Deferred(BuiltinPromise.Then(inner.promise, onFulfilled, onRejected)))))))
      && (inner.Wrapped? && WrapperThen(inner.wrapper, onFulfilled, onRejected).Thrown? ==>
            r == WrapperThen(inner.wrapper, onFulfilled, onRejected))
      && (inner.Wrapped? && WrapperThen(inner.wrapper, onFulfilled, onRejected).Ok? ==>
            r == Ok(Wrapped(PromiseWrapper(Some(WrapperThen(inner.wrapper, onFulfilled, onRejected).value)))))
      && (inner.Obj? && HasMethod(inner, ThenMethod) && inner.foreign.thenEffect.ThenThrows? ==>
            r == Thrown(inner.foreign.thenEffect.thrown))
      && (inner.Obj? && HasMethod(inner, ThenMethod) && !inner.foreign.thenEffect.ThenThrows? ==>
            r == Wrap(inner.foreign.thenResult))
    decreases w
  {
    match w.wrapped
    case None => Thrown(NothingWrapped)
    case Some(inner) =>
      if onFulfilled.None? && onRejected.None? then Ok(Wrapped(w))
      else
        match inner
        case Deferred(p) => Wrap(Deferred(BuiltinPromise.Then(p, onFulfilled, onRejected)))
        case Wrapped(w') =>
          (match WrapperThen(w', onFulfilled, onRejected)
           case Ok(chained) => Wrap(chained)
           case Thrown(t) => Thrown(t))
        case Obj(f) =>
          if !HasMethod(inner, ThenMethod) then Thrown(NoThenToCall)
          else if f.thenEffect.ThenThrows? then Thrown(f.thenEffect.thrown)
          else Wrap(f.thenResult)
        case _ => Thrown(NoThenToCall)
  }

  /** One call a caller can make on a wrapper it holds. */
  datatype Call = SetCall(candidate: Value) | ThenCall(onFulfilled: Option<Callable>, onRejected: Option<Callable>)

  /** The wrapper a caller holds after a sequence of calls, each made on the
      wrapper the previous call returned; stops at the first throw. */
  function Drive(w: PromiseWrapper, calls: seq<Call>): Result<PromiseWrapper>
    decreases calls
  {
    if |calls| == 0 then Ok(w)
    else
      var next := match calls[0] {
        case SetCall(c) => SetWrappedPromise(w, c)
        case ThenCall(f, r) =>
          match WrapperThen(w, f, r) {
            case Ok(v) => if v.Wrapped? then Ok(v.wrapper) else Ok(w)
            case Thrown(t) => Thrown(t)
          }
      };
      match next
      case Ok(w') => Drive(w', calls[1..])
      case Thrown(t) => Thrown(t)
  }

  /** No other state is reachable: starting from any wrapper `wrap` can
      build, every wrapper a caller obtains wraps nothing or an object with a
      callable `then`. */
  lemma {:induction false} OnlyValidWrappersReachable(candidate: Value, calls: seq<Call>)
    requires Wrap(candidate).Ok?
    ensures Drive(Wrap(candidate).value.wrapper, calls).Ok? ==> Valid(Drive(Wrap(candidate).value.wrapper, calls).value)
  {
    DriveKeepsValid(Wrap(candidate).value.wrapper, calls);
  }

  lemma {:induction false} DriveKeepsValid(w: PromiseWrapper, calls: seq<Call>)
    requires Valid(w)
    ensures Drive(w, calls).Ok? ==> Valid(Drive(w, calls).value)
    decreases calls
  {
    if |calls| > 0 {
      match calls[0]
      case SetCall(c) =>
        if SetWrappedPromise(w, c).Ok? {
          DriveKeepsValid(SetWrappedPromise(w, c).value, calls[1..]);
        }
      case ThenCall(f, r) =>
        var res := WrapperThen(w, f, r);
        if res.Ok? {
          DriveKeepsValid(res.value.wrapper, calls[1..]);
        }
    }
  }

  /** A `then` whose result has no callable `then` is refused when it is
      wrapped, with the same error as a bad candidate. */
  lemma ThenResultWithoutThenIsRefused(f: Foreign, onFulfilled: Callable)
    requires f.hasThen && !f.thenEffect.ThenThrows?
    requires f.thenResult != Null && !HasMethod(f.thenResult, ThenMethod)
    ensures WrapperThen(PromiseWrapper(Some(Obj(f))), Some(onFulfilled), None) == Thrown(ThenMissing)
  {
  }

  /** A `then` that returns `null` is not refused: the constructor skips the
      setter for `null`, so the result is an empty wrapper, on which the
      next `then` fails with the "no wrapped promise" error. */
  lemma ThenResultNullGivesEmptyWrapper(f: Foreign, h: Callable, h': Callable)
    requires f.hasThen && !f.thenEffect.ThenThrows? && f.thenResult == Null
    ensures WrapperThen(PromiseWrapper(Some(Obj(f))), Some(h), None) == Ok(Wrapped(PromiseWrapper(None)))
    ensures WrapperThen(PromiseWrapper(None), Some(h'), None) == Thrown(NothingWrapped)
  {
  }

  /** `then` on a wrapped built-in promise registers the handlers on it and
      wraps the result. */
  lemma ThenOnBuiltinPromise(p: Promise, onFulfilled: Option<Callable>, onRejected: Option<Callable>)
    requires onFulfilled.Some? || onRejected.Some?
    ensures WrapperThen(PromiseWrapper(Some(Deferred(p))), onFulfilled, onRejected)
         == Ok(Wrapped(PromiseWrapper(Some(Deferred(BuiltinPromise.Then(p, onFulfilled, onRejected))))))
  {
  }

  /** `n + 1` wrappers around `x`, each wrapping the next. */
  function Nest(x: Value, n: nat): (w: PromiseWrapper)
    ensures w.wrapped.Some?
  {
    if n == 0 then PromiseWrapper(Some(x)) else PromiseWrapper(Some(Wrapped(Nest(x, n - 1))))
  }

  /** However many wrappers surround a built-in promise from `all($v)`,
      waiting on the outermost is flattening `$v`. */
  lemma {:induction false} WaitThroughWrappers(call: Behaviour, v: Value, n: nat, fuel: nat)
    ensures WrapperWait(call, Nest(Deferred(BuiltinPromise.All(v)), n), fuel) == Flatten(call, v, fuel)
  {
    if n == 0 {
      BuiltinPromise.WaitOnFreshPromiseFlattens(call, v, fuel);
    } else {
      WaitThroughWrappers(call, v, n - 1, fuel);
    }
  }

  /** When the wrapped object has its own `wait`, the wrapper's `wait` is
      exactly that `wait`. */
  lemma WaitDelegates(call: Behaviour, w: PromiseWrapper, fuel: nat)
    requires w.wrapped.Some? && HasMethod(w.wrapped.value, WaitMethod)
    ensures w.wrapped.value.Obj? ==> WrapperWait(call, w, fuel) == Done(w.wrapped.value.foreign.waitResult)
    ensures w.wrapped.value.Deferred? ==> WrapperWait(call, w, fuel) == PromiseWait(call, w.wrapped.value.promise, fuel)
    ensures w.wrapped.value.Wrapped? ==> WrapperWait(call, w, fuel) == WrapperWait(call, w.wrapped.value.wrapper, fuel)
  {
  }

  /** Without a `wait`, the wrapper calls `then` once with capturing handlers:
      a captured rejection is thrown, else the captured value is returned,
      and `null` if `then` called neither handler. The wrapper raises no
      error of its own for the missing `wait`. */
  lemma WaitCaptures(call: Behaviour, f: Foreign, fuel: nat)
    requires f.hasThen && !f.hasWait && !f.implementsPromiseInterface
    ensures var r := WrapperWait(call, PromiseWrapper(Some(Obj(f))), fuel);
            && (f.thenEffect.CallsReject? ==> r == Done(Thrown(f.thenEffect.reason)))
            && (f.thenEffect.CallsFulfil? ==> r == Done(Ok(f.thenEffect.fulfilValue)))
            && (f.thenEffect.CallsNeither? ==> r == Done(Ok(Null)))
            && (f.thenEffect.CallsFulfil? || f.thenEffect.CallsNeither? ==> r.Done? && r.result.Ok?)
  {
  }
}
