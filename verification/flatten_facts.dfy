/**
 What `Promise::completePromiseIfNeeded` guarantees: its results are flat
 (no thenable at any array depth), flat values are left as they are, arrays
 keep their keys and order, and extra fuel never changes a finished result.
 */
module FlattenFacts {
  import opened PhpValues
  import opened Completion

  /** A value flattening leaves alone: no thenable at any array depth, no
      `\Traversable` still to be iterated, and arrays with unique keys. */
  predicate Flat(v: Value) {
    && !IsThenable(v)
    && match v
       case List(kind, es) => kind == PhpArray && UniqueKeys(es) && forall i :: 0 <= i < |es| ==> Flat(es[i].value)
       case _ => true
  }

  predicate AllFlat(es: seq<Entry>) {
    forall i :: 0 <= i < |es| ==> Flat(es[i].value)
  }

  /** Flattening a flat value returns it unchanged, whatever the handlers do
      and however little fuel is given. */
  lemma {:induction false} FlatIsFixpoint(call: Behaviour, v: Value, fuel: nat)
    requires Flat(v)
    ensures Flatten(call, v, fuel) == Done(Ok(v))
    decreases v
  {
    match v
    case List(kind, es) =>
      FlatEntriesFixpoint(call, es, 0, fuel);
      assert es[..0] == [];
    case _ =>
  }

  lemma {:induction false} FlatEntriesFixpoint(call: Behaviour, es: seq<Entry>, i: nat, fuel: nat)
    requires i <= |es|
    requires UniqueKeys(es) && AllFlat(es)
    ensures FlattenEntries(call, PhpArray, es, i, es[..i], fuel) == Done(Ok(List(PhpArray, es)))
    decreases List(PhpArray, es), |es| - i
  {
    if i == |es| {
      assert es[..i] == es;
    } else {
      FlatIsFixpoint(call, es[i].value, fuel);
      assert !HasKey(es[..i], es[i].key) by {
        forall j | 0 <= j < i ensures es[..i][j].key != es[i].key {
          assert es[..i][j] == es[j];
        }
      }
      assert Put(es[..i], es[i].key, es[i].value) == es[..i + 1] by {
        assert es[..i + 1] == es[..i] + [es[i]];
      }
      FlatEntriesFixpoint(call, es, i + 1, fuel);
    }
  }

  /** Whatever flattening returns is flat. */
  lemma {:induction false} FlattenYieldsFlat(call: Behaviour, v: Value, fuel: nat)
    requires Flatten(call, v, fuel).Done? && Flatten(call, v, fuel).result.Ok?
    ensures Flat(Flatten(call, v, fuel).result.value)
    decreases fuel, v
  {
    match v
    case Deferred(p) =>
      var w := PromiseWait(call, p, fuel - 1).result.value;
      FlattenYieldsFlat(call, w, fuel - 1);
    case Wrapped(wr) =>
      var w := WrapperWait(call, wr, fuel - 1).result.value;
      FlattenYieldsFlat(call, w, fuel - 1);
    case Obj(f) =>
      if f.implementsPromiseInterface {
        FlattenYieldsFlat(call, f.waitResult.value, fuel - 1);
      }
    case List(kind, es) =>
      FlattenEntriesYieldFlat(call, kind, es, 0, [], fuel);
    case _ =>
  }

  lemma {:induction false} FlattenEntriesYieldFlat(call: Behaviour, kind: ListKind, es: seq<Entry>, i: nat, acc: seq<Entry>, fuel: nat)
    requires i <= |es|
    requires UniqueKeys(acc) && AllFlat(acc)
    requires FlattenEntries(call, kind, es, i, acc, fuel).Done?
    requires FlattenEntries(call, kind, es, i, acc, fuel).result.Ok?
    ensures Flat(FlattenEntries(call, kind, es, i, acc, fuel).result.value)
    decreases fuel, List(kind, es), |es| - i
  {
    if i < |es| {
      FlattenYieldsFlat(call, es[i].value, fuel);
      var w := Flatten(call, es[i].value, fuel).result.value;
      var acc' := Put(acc, es[i].key, w);
      PutKeepsUniqueKeys(acc, es[i].key, w);
      PutValues(acc, es[i].key, w);
      assert AllFlat(acc') by {
        forall j | 0 <= j < |acc'| ensures Flat(acc'[j].value) {
          if j < |acc| {
            assert acc'[j] == Entry(es[i].key, w) || acc'[j] == acc[j];
          } else {
            assert acc' == acc + [Entry(es[i].key, w)];
          }
        }
      }
      FlattenEntriesYieldFlat(call, kind, es, i + 1, acc', fuel);
    }
  }

  /** Flattening is idempotent: flattening a result again gives it back. */
  lemma FlattenIdempotent(call: Behaviour, v: Value, fuel: nat, call': Behaviour, fuel': nat)
    requires Flatten(call, v, fuel).Done? && Flatten(call, v, fuel).result.Ok?
    ensures var r := Flatten(call, v, fuel).result.value;
            Flatten(call', r, fuel') == Done(Ok(r))
  {
    FlattenYieldsFlat(call, v, fuel);
    FlatIsFixpoint(call', Flatten(call, v, fuel).result.value, fuel');
  }

  /** Flattening an array (or a `\Traversable` without repeated keys) gives an
      array with exactly the same keys in the same order, each entry holding
      the flattening of the original entry. */
  lemma FlattenKeepsKeys(call: Behaviour, kind: ListKind, es: seq<Entry>, fuel: nat)
    requires UniqueKeys(es)
    requires Flatten(call, List(kind, es), fuel).Done? && Flatten(call, List(kind, es), fuel).result.Ok?
    ensures var r := Flatten(call, List(kind, es), fuel).result.value;
            && r.List? && r.kind == PhpArray && |r.entries| == |es|
            && forall i :: 0 <= i < |es| ==>
                 && r.entries[i].key == es[i].key
                 && Flatten(call, es[i].value, fuel) == Done(Ok(r.entries[i].value))
  {
    EntriesKeepKeys(call, kind, es, 0, [], fuel);
  }

  lemma {:induction false} EntriesKeepKeys(call: Behaviour, kind: ListKind, es: seq<Entry>, i: nat, acc: seq<Entry>, fuel: nat)
    requires i <= |es| && UniqueKeys(es)
    requires |acc| == i
    requires forall j :: 0 <= j < i ==>
      acc[j].key == es[j].key && Flatten(call, es[j].value, fuel) == Done(Ok(acc[j].value))
    requires FlattenEntries(call, kind, es, i, acc, fuel).Done?
    requires FlattenEntries(call, kind, es, i, acc, fuel).result.Ok?
    ensures var r := FlattenEntries(call, kind, es, i, acc, fuel).result.value;
            && r.List? && r.kind == PhpArray && |r.entries| == |es|
            && forall j :: 0 <= j < |es| ==>
                 && r.entries[j].key == es[j].key
                 && Flatten(call, es[j].value, fuel) == Done(Ok(r.entries[j].value))
    decreases |es| - i
  {
    if i < |es| {
      var w := Flatten(call, es[i].value, fuel).result.value;
      assert !HasKey(acc, es[i].key) by {
        forall j | 0 <= j < i ensures acc[j].key != es[i].key {
        }
      }
      var acc' := Put(acc, es[i].key, w);
      assert acc' == acc + [Entry(es[i].key, w)];
      EntriesKeepKeys(call, kind, es, i + 1, acc', fuel);
    }
  }

  /** Flattening `v` finished without a throw. */
  predicate FlattensNormally(call: Behaviour, v: Value, fuel: nat) {
    Flatten(call, v, fuel).Done? && Flatten(call, v, fuel).result.Ok?
  }

  /** A throw while flattening an array comes from its first entry whose
      flattening throws: every entry before it flattened normally. */
  lemma FlattenListThrowsFirstError(call: Behaviour, kind: ListKind, es: seq<Entry>, fuel: nat, t: Throwable)
    requires Flatten(call, List(kind, es), fuel) == Done(Thrown(t))
    ensures exists j :: 0 <= j < |es| && Flatten(call, es[j].value, fuel) == Done(Thrown(t))
              && forall m :: 0 <= m < j ==> FlattensNormally(call, es[m].value, fuel)
  {
    var j := EntriesThrowFromEntry(call, kind, es, 0, [], fuel, t);
  }

  lemma {:induction false} EntriesThrowFromEntry(call: Behaviour, kind: ListKind, es: seq<Entry>, i: nat, acc: seq<Entry>, fuel: nat, t: Throwable)
    returns (j: nat)
    requires i <= |es|
    requires FlattenEntries(call, kind, es, i, acc, fuel) == Done(Thrown(t))
    ensures i <= j < |es| && Flatten(call, es[j].value, fuel) == Done(Thrown(t))
    ensures forall m :: i <= m < j ==> FlattensNormally(call, es[m].value, fuel)
    decreases |es| - i
  {
    var f := Flatten(call, es[i].value, fuel);
    if f.result.Ok? {
      j := EntriesThrowFromEntry(call, kind, es, i + 1, Put(acc, es[i].key, f.result.value), fuel, t);
      assert FlattensNormally(call, es[i].value, fuel);
    } else {
      j := i;
    }
  }

  /** No entry after position `m` and before `n` repeats the key of `es[m]`:
      `es[m]` is the last assignment to that key among the first `n`. */
  predicate LastOccurrence(es: seq<Entry>, m: nat, n: nat)
    requires m < n <= |es|
  {
    forall m' :: m < m' < n ==> es[m'].key != es[m].key
  }

  /** Among the first `n` entries, key `k1` occurs before key `k2` does. */
  predicate FirstBefore(es: seq<Entry>, k1: Key, k2: Key, n: nat)
    requires n <= |es|
  {
    exists m1 :: 0 <= m1 < n && es[m1].key == k1 && forall m2 :: 0 <= m2 <= m1 ==> es[m2].key != k2
  }

  /** What the `foreach` has built in `acc` after the first `n` entries: each
      key once, exactly the keys seen, in order of first occurrence, each
      holding the flattening of the last entry with that key. */
  predicate Collapsed(call: Behaviour, fuel: nat, es: seq<Entry>, n: nat, acc: seq<Entry>)
    requires n <= |es|
  {
    UniqueKeys(acc) && KeysSeen(es, n, acc) && AllKeysKept(es, n, acc)
    && LastWins(call, fuel, es, n, acc) && FirstOccurrenceOrder(es, n, acc)
  }

  /** Every key of `acc` is the key of one of the first `n` entries. */
  predicate KeysSeen(es: seq<Entry>, n: nat, acc: seq<Entry>)
    requires n <= |es|
  {
    forall j :: 0 <= j < |acc| ==> exists m :: 0 <= m < n && es[m].key == acc[j].key
  }

  /** The key of each of the first `n` entries is a key of `acc`. */
  predicate AllKeysKept(es: seq<Entry>, n: nat, acc: seq<Entry>)
    requires n <= |es|
  {
    forall m :: 0 <= m < n ==> HasKey(acc, es[m].key)
  }

  /** Each key of `acc` holds the flattening of the last of the first `n`
      entries with that key. */
  predicate LastWins(call: Behaviour, fuel: nat, es: seq<Entry>, n: nat, acc: seq<Entry>)
    requires n <= |es|
  {
    forall j, m :: 0 <= j < |acc| && 0 <= m < n && acc[j].key == es[m].key && LastOccurrence(es, m, n) ==>
      Flatten(call, es[m].value, fuel) == Done(Ok(acc[j].value))
  }

  /** The keys of `acc` are in order of their first occurrence among the
      first `n` entries. */
  predicate FirstOccurrenceOrder(es: seq<Entry>, n: nat, acc: seq<Entry>)
    requires n <= |es|
  {
    forall j1, j2 :: 0 <= j1 < j2 < |acc| ==> FirstBefore(es, acc[j1].key, acc[j2].key, n)
  }

  /** Flattening any array or `\Traversable` whose entries all flatten
      normally gives an array holding each of its keys exactly once, in order
      of first occurrence, under the flattening of the last entry with that
      key: repeated keys collapse, and the last assignment wins. */
  lemma TraversableCollapsesToLastValue(call: Behaviour, kind: ListKind, es: seq<Entry>, fuel: nat)
    requires Flatten(call, List(kind, es), fuel).Done? && Flatten(call, List(kind, es), fuel).result.Ok?
    ensures var r := Flatten(call, List(kind, es), fuel).result.value;
            && r.List? && r.kind == PhpArray && UniqueKeys(r.entries)
            && (forall m :: 0 <= m < |es| ==> HasKey(r.entries, es[m].key))
            && (forall j :: 0 <= j < |r.entries| ==> HasKey(es, r.entries[j].key))
            && (forall j, m :: 0 <= j < |r.entries| && 0 <= m < |es| && r.entries[j].key == es[m].key && LastOccurrence(es, m, |es|) ==>
                  Flatten(call, es[m].value, fuel) == Done(Ok(r.entries[j].value)))
            && (forall j1, j2 :: 0 <= j1 < j2 < |r.entries| ==> FirstBefore(es, r.entries[j1].key, r.entries[j2].key, |es|))
  {
    EntriesCollapse(call, kind, es, 0, [], fuel);
    var r := Flatten(call, List(kind, es), fuel).result.value;
    forall j | 0 <= j < |r.entries| ensures HasKey(es, r.entries[j].key) {
      var m :| 0 <= m < |es| && es[m].key == r.entries[j].key;
    }
  }

  lemma {:induction false} EntriesCollapse(call: Behaviour, kind: ListKind, es: seq<Entry>, i: nat, acc: seq<Entry>, fuel: nat)
    requires i <= |es| && Collapsed(call, fuel, es, i, acc)
    requires FlattenEntries(call, kind, es, i, acc, fuel).Done? && FlattenEntries(call, kind, es, i, acc, fuel).result.Ok?
    ensures var r := FlattenEntries(call, kind, es, i, acc, fuel).result.value;
            r.List? && r.kind == PhpArray && Collapsed(call, fuel, es, |es|, r.entries)
    decreases |es| - i
  {
    if i < |es| {
      var w := Flatten(call, es[i].value, fuel).result.value;
      CollapseStep(call, fuel, es, i, acc, w);
      EntriesCollapse(call, kind, es, i + 1, Put(acc, es[i].key, w), fuel);
    }
  }

  lemma CollapseStep(call: Behaviour, fuel: nat, es: seq<Entry>, i: nat, acc: seq<Entry>, w: Value)
    requires i < |es| && Collapsed(call, fuel, es, i, acc)
    requires Flatten(call, es[i].value, fuel) == Done(Ok(w))
    ensures Collapsed(call, fuel, es, i + 1, Put(acc, es[i].key, w))
  {
    PutKeepsUniqueKeys(acc, es[i].key, w);
    CollapseKeysFrom(es, i, acc, w);
    CollapseKeysKept(es, i, acc, w);
    CollapseLastWins(call, fuel, es, i, acc, w);
    CollapseOrder(es, i, acc, w);
  }

  lemma CollapseKeysKept(es: seq<Entry>, i: nat, acc: seq<Entry>, w: Value)
    requires i < |es|
    requires AllKeysKept(es, i, acc)
    ensures AllKeysKept(es, i + 1, Put(acc, es[i].key, w))
  {
    var acc' := Put(acc, es[i].key, w);
    forall m | 0 <= m < i + 1 ensures HasKey(acc', es[m].key) {
      if m < i {
        var j :| 0 <= j < |acc| && acc[j].key == es[m].key;
        assert acc'[j].key == es[m].key;
      }
    }
  }

  lemma CollapseKeysFrom(es: seq<Entry>, i: nat, acc: seq<Entry>, w: Value)
    requires i < |es|
    requires KeysSeen(es, i, acc)
    ensures KeysSeen(es, i + 1, Put(acc, es[i].key, w))
  {
    var acc' := Put(acc, es[i].key, w);
    forall j | 0 <= j < |acc'| ensures exists m :: 0 <= m < i + 1 && es[m].key == acc'[j].key {
      if j < |acc| {
        var m :| 0 <= m < i && es[m].key == acc[j].key;
        assert es[m].key == acc'[j].key;
      } else {
        assert acc' == acc + [Entry(es[i].key, w)];
        assert es[i].key == acc'[j].key;
      }
    }
  }

  lemma CollapseLastWins(call: Behaviour, fuel: nat, es: seq<Entry>, i: nat, acc: seq<Entry>, w: Value)
    requires i < |es| && UniqueKeys(acc)
    requires LastWins(call, fuel, es, i, acc)
    requires Flatten(call, es[i].value, fuel) == Done(Ok(w))
    ensures LastWins(call, fuel, es, i + 1, Put(acc, es[i].key, w))
  {
    var k := es[i].key;
    var acc' := Put(acc, k, w);
    PutValues(acc, k, w);
    forall j, m | 0 <= j < |acc'| && 0 <= m < i + 1 && acc'[j].key == es[m].key && LastOccurrence(es, m, i + 1)
      ensures Flatten(call, es[m].value, fuel) == Done(Ok(acc'[j].value))
    {
      if m == i {
        if j < |acc| {
          assert acc'[j] == Entry(k, w);
        } else {
          assert acc' == acc + [Entry(k, w)];
        }
      } else {
        assert es[i].key != es[m].key;
        if !HasKey(acc, k) {
          assert acc' == acc + [Entry(k, w)];
        }
        assert j < |acc| && acc'[j] == acc[j];
        assert LastOccurrence(es, m, i);
      }
    }
  }

  lemma CollapseOrder(es: seq<Entry>, i: nat, acc: seq<Entry>, w: Value)
    requires i < |es|
    requires KeysSeen(es, i, acc) && AllKeysKept(es, i, acc) && FirstOccurrenceOrder(es, i, acc)
    ensures FirstOccurrenceOrder(es, i + 1, Put(acc, es[i].key, w))
  {
    var k := es[i].key;
    var acc' := Put(acc, k, w);
    forall j1, j2 | 0 <= j1 < j2 < |acc'| ensures FirstBefore(es, acc'[j1].key, acc'[j2].key, i + 1) {
      if j2 < |acc| {
        assert acc'[j1].key == acc[j1].key && acc'[j2].key == acc[j2].key;
        assert FirstBefore(es, acc[j1].key, acc[j2].key, i);
        var m1 :| 0 <= m1 < i && es[m1].key == acc[j1].key && forall m2 :: 0 <= m2 <= m1 ==> es[m2].key != acc[j2].key;
        assert 0 <= m1 < i + 1 && es[m1].key == acc'[j1].key;
      } else {
        assert !HasKey(acc, k);
        assert acc' == acc + [Entry(k, w)];
        var m1 :| 0 <= m1 < i && es[m1].key == acc[j1].key;
        forall m2 | 0 <= m2 <= m1 ensures es[m2].key != k {
          assert HasKey(acc, es[m2].key);
        }
        assert acc'[j1].key == acc[j1].key && acc'[j2].key == k;
        assert 0 <= m1 < i + 1 && es[m1].key == acc'[j1].key;
      }
    }
  }

  /** Fuel only bounds the computation: once flattening finishes, more fuel
      gives the same result. */
  lemma {:induction false} FlattenFuelMonotone(call: Behaviour, v: Value, k: nat, k': nat)
    requires k <= k' && Flatten(call, v, k).Done?
    ensures Flatten(call, v, k') == Flatten(call, v, k)
    decreases k, v
  {
    match v
    case Deferred(p) =>
      PromiseWaitFuelMonotone(call, p, k - 1, k' - 1);
      var pw := PromiseWait(call, p, k - 1);
      if pw.result.Ok? {
        FlattenFuelMonotone(call, pw.result.value, k - 1, k' - 1);
      }
    case Wrapped(wr) =>
      WrapperWaitFuelMonotone(call, wr, k - 1, k' - 1);
      var ww := WrapperWait(call, wr, k - 1);
      if ww.result.Ok? {
        FlattenFuelMonotone(call, ww.result.value, k - 1, k' - 1);
      }
    case Obj(f) =>
      if f.implementsPromiseInterface && f.waitResult.Ok? {
        FlattenFuelMonotone(call, f.waitResult.value, k - 1, k' - 1);
      }
    case List(kind, es) =>
      EntriesFuelMonotone(call, kind, es, 0, [], k, k');
    case _ =>
  }

  lemma {:induction false} EntriesFuelMonotone(call: Behaviour, kind: ListKind, es: seq<Entry>, i: nat, acc: seq<Entry>, k: nat, k': nat)
    requires i <= |es|
    requires k <= k' && FlattenEntries(call, kind, es, i, acc, k).Done?
    ensures FlattenEntries(call, kind, es, i, acc, k') == FlattenEntries(call, kind, es, i, acc, k)
    decreases k, List(kind, es), |es| - i
  {
    if i < |es| {
      FlattenFuelMonotone(call, es[i].value, k, k');
      var f := Flatten(call, es[i].value, k);
      if f.result.Ok? {
        EntriesFuelMonotone(call, kind, es, i + 1, Put(acc, es[i].key, f.result.value), k, k');
      }
    }
  }

  lemma {:induction false} PromiseWaitFuelMonotone(call: Behaviour, p: Promise, k: nat, k': nat)
    requires k <= k' && PromiseWait(call, p, k).Done?
    ensures PromiseWait(call, p, k') == PromiseWait(call, p, k)
    decreases k, Deferred(p)
  {
    FlattenFuelMonotone(call, p.source, k, k');
  }

  lemma {:induction false} WrapperWaitFuelMonotone(call: Behaviour, w: PromiseWrapper, k: nat, k': nat)
    requires k <= k' && WrapperWait(call, w, k).Done?
    ensures WrapperWait(call, w, k') == WrapperWait(call, w, k)
    decreases k, Wrapped(w)
  {
    match w.wrapped
    case Some(Deferred(p)) => PromiseWaitFuelMonotone(call, p, k, k');
    case Some(Wrapped(inner)) => WrapperWaitFuelMonotone(call, inner, k, k');
    case _ =>
  }

  /** An object whose class does not declare `PromiseInterface` is not a
      thenable, whatever methods it has: flattening returns it untouched
      instead of waiting on it. */
  lemma ForeignIsNotWaitedOn(call: Behaviour, f: Foreign, fuel: nat)
    requires !f.implementsPromiseInterface
    ensures Flatten(call, Obj(f), fuel) == Done(Ok(Obj(f)))
  {
  }

  /** A third-party `PromiseInterface` is a thenable: flattening calls its
      `wait`, passes on what it throws and flattens what it returns. */
  lemma ForeignPromiseIsWaitedOn(call: Behaviour, f: Foreign, fuel: nat)
    requires f.implementsPromiseInterface
    ensures f.waitResult.Thrown? ==> Flatten(call, Obj(f), fuel + 1) == Done(f.waitResult)
    ensures f.waitResult.Ok? && Flat(f.waitResult.value) ==> Flatten(call, Obj(f), fuel + 1) == Done(f.waitResult)
    ensures Flatten(call, Obj(f), 0) == OutOfFuel
  {
    if f.waitResult.Ok? && Flat(f.waitResult.value) {
      FlatIsFixpoint(call, f.waitResult.value, fuel);
    }
  }

  /** A `PromiseWrapper` is a thenable: flattening waits on it and flattens
      what the wrapped object's `wait` yields. */
  lemma WrapperIsWaitedOn(call: Behaviour, f: Foreign, v: Value, fuel: nat)
    requires f.hasThen && f.hasWait && f.waitResult == Ok(v) && Flat(v)
    ensures Flatten(call, Wrapped(PromiseWrapper(Some(Obj(f)))), fuel + 1) == Done(Ok(v))
  {
    FlatIsFixpoint(call, v, fuel);
  }

  /** Iterating a `\Traversable` that repeats a key assigns the key twice:
      the key keeps its first position and takes the last value. */
  lemma TraversableRepeatedKeyCollapses(call: Behaviour, k: Key, a: string, b: string)
    ensures Flatten(call, List(Traversable, [Entry(k, Scalar(a)), Entry(k, Scalar(b))]), 0)
         == Done(Ok(List(PhpArray, [Entry(k, Scalar(b))])))
  {
    var es := [Entry(k, Scalar(a)), Entry(k, Scalar(b))];
    var first := Put([], k, Scalar(a));
    assert first == [Entry(k, Scalar(a))];
    assert Put(first, k, Scalar(b)) == [Entry(k, Scalar(b))];
    assert FlattenEntries(call, Traversable, es, 2, [Entry(k, Scalar(b))], 0) == Done(Ok(List(PhpArray, [Entry(k, Scalar(b))])));
    assert Flatten(call, es[1].value, 0) == Done(Ok(Scalar(b)));
    assert FlattenEntries(call, Traversable, es, 1, first, 0) == FlattenEntries(call, Traversable, es, 2, [Entry(k, Scalar(b))], 0);
    assert Flatten(call, es[0].value, 0) == Done(Ok(Scalar(a)));
    assert FlattenEntries(call, Traversable, es, 0, [], 0) == FlattenEntries(call, Traversable, es, 1, first, 0);
  }
}
