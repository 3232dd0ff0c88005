/**
 The PHP values that flow through the promise layer of graphql-php.

 A value is either plain data (null, a scalar, an array), an object the
 promise layer cares about (a built-in `Promise`, a `PromiseWrapper`, a
 `\Traversable`, an exception object), or any other object, which the layer
 sees only through its capabilities (`Foreign`).
 */
module PhpValues {

  datatype Option<+T> = None | Some(value: T)

  /** The throwable classes the promise layer distinguishes. `Error` is PHP's
      engine error (calling a method on null, ...): it is not an `\Exception`. */
  datatype ThrowableClass = Exception | LogicException | Error

  datatype Throwable = Throwable(cls: ThrowableClass, message: string) {
    /** `$t instanceof \Exception` */
    predicate IsException() {
      !cls.Error?
    }
  }

  /** A normal return or a thrown throwable. */
  datatype Result<+T> = Ok(value: T) | Thrown(error: Throwable)

  /** A computation that finished, or that needed more unwrapping steps than
      its fuel allowed. */
  datatype Fueled<+T> = Done(result: T) | OutOfFuel

  /** A PHP array key. */
  datatype Key = IntKey(i: int) | StrKey(s: string)

  /** A user callable handed to `then`; what it does is given separately. */
  datatype Callable = Callable(id: nat)

  /** A PHP array, or a `\Traversable` object that is iterated with `foreach`. */
  datatype ListKind = PhpArray | Traversable

  datatype Value =
    | Null
    | Scalar(repr: string)
    | List(kind: ListKind, entries: seq<Entry>)
    | Exn(throwable: Throwable)
    | Obj(foreign: Foreign)
    | Deferred(promise: Promise)
    | Wrapped(wrapper: PromiseWrapper)

  datatype Entry = Entry(key: Key, value: Value)

  /** `GraphQL\Promise\Promise`: the stored value and the two handler lists. */
  datatype Promise = Promise(source: Value, onFulfilled: seq<Callable>, onRejected: seq<Callable>)

  /** `GraphQL\Promise\PromiseWrapper`: the wrapped candidate, if any. */
  datatype PromiseWrapper = PromiseWrapper(wrapped: Option<Value>)

  /** What a foreign object's `then` does with the two handlers it is given. */
  datatype ThenEffect =
    | CallsFulfil(fulfilValue: Value)
    | CallsReject(reason: Throwable)
    | CallsNeither
    | ThenThrows(thrown: Throwable)

  /** A third-party object, described by its capabilities: whether its class
      implements `PromiseInterface` (which gives it public `then` and `wait`),
      whether `then` and `wait` are otherwise callable on it, what `wait()`
      yields, what `then` does with its handlers and what `then` returns. */
  datatype Foreign = Foreign(
    implementsPromiseInterface: bool,
    hasThen: bool,
    hasWait: bool,
    waitResult: Outcome,
    thenEffect: ThenEffect,
    thenResult: Value)

  type Outcome = Result<Value>

  /** How each registered callable behaves when invoked on an argument. */
  type Behaviour = (Callable, Value) -> Outcome

  /** The engine error for `null->then(...)`. */
  const CallOnNull := Throwable(Error, "Call to a member function then() on null")

  /** The engine error for calling `then` on a value that has no such method. */
  const NoThenToCall := Throwable(Error, "Call to undefined method then()")

  datatype Method = ThenMethod | WaitMethod

  /** `is_object($v) && is_callable([$v, $method])` */
  predicate HasMethod(v: Value, m: Method) {
    match v
    case Deferred(_) => true
    case Wrapped(_) => true
    case Obj(f) => f.implementsPromiseInterface || (if m.ThenMethod? then f.hasThen else f.hasWait)
    case _ => false
  }

  /** `$v instanceof PromiseInterface`: the two classes of this library and
      any third-party class that declares the interface; having methods named
      `then` and `wait` is not enough. */
  predicate IsThenable(v: Value) {
    v.Deferred? || v.Wrapped? || (v.Obj? && v.foreign.implementsPromiseInterface)
  }

  /** No two entries share a key, as in every PHP array. */
  predicate UniqueKeys(es: seq<Entry>) {
    forall i, j :: 0 <= i < j < |es| ==> es[i].key != es[j].key
  }

  predicate HasKey(es: seq<Entry>, k: Key) {
    exists i :: 0 <= i < |es| && es[i].key == k
  }

  /** `$a[$k] = $x` on an array `$a`: an existing key keeps its position and
      takes the new value, a new key is appended at the end. */
  function Put(a: seq<Entry>, k: Key, x: Value): (r: seq<Entry>)
    ensures HasKey(a, k) ==> |r| == |a|
    ensures !HasKey(a, k) ==> r == a + [Entry(k, x)]
    ensures forall i :: 0 <= i < |a| ==> r[i].key == a[i].key
    ensures HasKey(r, k)
  {
    if |a| == 0 then
      var r := [Entry(k, x)];
      assert r[0].key == k;
      r
    else if a[0].key == k then
      var r := [Entry(k, x)] + a[1..];
      assert r[0].key == k;
      r
    else
      var rest := Put(a[1..], k, x);
      HasKeyPastHead(a, k);
      var r := [a[0]] + rest;
      assert forall i :: 0 <= i < |rest| ==> r[i + 1] == rest[i];
      assert forall i :: 1 <= i < |a| ==> a[1..][i - 1] == a[i];
      r
  }

  /** Past a head entry with another key, the key is in the array exactly
      when it is in the rest. */
  lemma HasKeyPastHead(a: seq<Entry>, k: Key)
    requires |a| > 0 && a[0].key != k
    ensures HasKey(a, k) <==> HasKey(a[1..], k)
  {
    if HasKey(a, k) {
      var i :| 0 <= i < |a| && a[i].key == k;
      assert a[1..][i - 1] == a[i];
    }
    if HasKey(a[1..], k) {
      var i :| 0 <= i < |a[1..]| && a[1..][i].key == k;
      assert a[i + 1] == a[1..][i];
    }
  }

  /** In a key-unique array, assignment replaces the value under the key and
      leaves every other entry as it was. */
  lemma PutValues(a: seq<Entry>, k: Key, x: Value)
    requires UniqueKeys(a)
    ensures forall i :: 0 <= i < |a| ==> Put(a, k, x)[i] == (if a[i].key == k then Entry(k, x) else a[i])
  {
    forall i | 0 <= i < |a| ensures Put(a, k, x)[i] == (if a[i].key == k then Entry(k, x) else a[i]) {
      if a[i].key == k {
        PutReplacesFirst(a, k, x, i);
      } else {
        PutKeepsOthers(a, k, x, i);
      }
    }
  }

  /** An entry under another key is never touched. */
  lemma {:induction false} PutKeepsOthers(a: seq<Entry>, k: Key, x: Value, i: nat)
    requires i < |a| && a[i].key != k
    ensures Put(a, k, x)[i] == a[i]
  {
    if a[0].key == k {
      assert Put(a, k, x) == [Entry(k, x)] + a[1..];
    } else if i > 0 {
      PutKeepsOthers(a[1..], k, x, i - 1);
      var rest := Put(a[1..], k, x);
      assert Put(a, k, x) == [a[0]] + rest;
      assert Put(a, k, x)[i] == rest[i - 1];
    }
  }

  /** The first entry under the key takes the new value. */
  lemma {:induction false} PutReplacesFirst(a: seq<Entry>, k: Key, x: Value, i: nat)
    requires i < |a| && a[i].key == k
    requires forall j :: 0 <= j < i ==> a[j].key != k
    ensures Put(a, k, x)[i] == Entry(k, x)
  {
    if i > 0 {
      assert a[0].key != k;
      assert forall j :: 0 <= j < i - 1 ==> a[1..][j] == a[j + 1];
      PutReplacesFirst(a[1..], k, x, i - 1);
      var rest := Put(a[1..], k, x);
      assert Put(a, k, x) == [a[0]] + rest;
      assert Put(a, k, x)[i] == rest[i - 1];
    }
  }

  /** Assignment keeps a key-unique array key-unique. */
  lemma PutKeepsUniqueKeys(a: seq<Entry>, k: Key, x: Value)
    requires UniqueKeys(a)
    ensures UniqueKeys(Put(a, k, x))
  {
    var r := Put(a, k, x);
    if HasKey(a, k) {
      forall i, j | 0 <= i < j < |r| ensures r[i].key != r[j].key {
        assert r[i].key == a[i].key && r[j].key == a[j].key;
      }
    } else {
      forall i, j | 0 <= i < j < |r| ensures r[i].key != r[j].key {
        if j == |a| {
          assert r[j].key == k && r[i] == a[i];
        } else {
          assert r[i] == a[i] && r[j] == a[j];
        }
      }
    }
  }
}
