# graphql-php deferred values and interface registry, in Dafny

This project models three small sequential pieces of the graphql-php execution layer:

- **The built-in deferred value `GraphQL\Promise\Promise`.** It stores a value and two handler lists. `then` appends to those lists and hands back the same promise. `wait` first flattens the stored value (`completePromiseIfNeeded`). Flattening recursively waits on every thenable and rebuilds every array or `\Traversable` entry by entry. `wait` then folds the fulfilment handlers over the flat value. If an `\Exception` is thrown anywhere in that, it folds the rejection handlers over it instead, and finally rethrows or returns `null`.
- **The adapter `GraphQL\Promise\PromiseWrapper`.** It accepts only an object with a callable `then`. Its `then` re-wraps whatever the wrapped `then` returns. Its `wait` either delegates to the wrapped object's own `wait`, or registers two capturing handlers and reports what they captured.
- **`GraphQL\Type\Definition\InterfaceType`.**
  - A process-wide queue of deferred "add this object type to each of its interfaces" actions, drained in order and then cleared.
  - A `getFields` that is memoised and backed by a thunk.
  - A `getField` lookup that fails on a missing name.

Files:

| file | module | models |
|---|---|---|
| `php_values.dfy` | `PhpValues` | PHP values, throwables, the `Promise`/`PromiseWrapper` records, foreign objects as capability records, array assignment |
| `completion.dfy` | `Completion` | `completePromiseIfNeeded`, `Promise::wait`, `PromiseWrapper::wait` (mutually recursive, fuel-bounded) |
| `flatten_facts.dfy` | `FlattenFacts` | what flattening guarantees |
| `promise.dfy` | `BuiltinPromise` | `Promise::all`, `Promise::then` and the laws of `wait` |
| `adapter.dfy` | `Adapter` | `PromiseWrapper` construction, `setWrappedPromise`, `then`, and the laws of its `wait` |
| `interface_type.dfy` | `InterfaceTypes` | the implementation queue, `getFields`, `getField`, `getResolveTypeFn` |

Modelling choices:

- **Callables.** PHP callables are opaque `Callable(id)` values. What each one does is given by a parameter `call: (Callable, Value) -> Outcome`: a normal return or a throw. A datatype cannot hold functions over itself, so the behaviour lives outside the promise record.
- **Foreign objects.** A third-party object is the record `Foreign`, which says:
  - whether its class implements `PromiseInterface`: such an object is a thenable that flattening waits on, and it has callable `then` and `wait`;
  - whether `then` and `wait` are otherwise callable on it;
  - what `wait()` yields;
  - what `then` does with its two handlers: calls the fulfilment handler, calls the rejection handler, calls neither, or throws;
  - what `then` returns.
- **Exceptions.** Exceptions are `Outcome = Ok(value) | Thrown(throwable)`. A throwable's class is `Exception`, `LogicException` or `Error`. `Error` is PHP's engine error: `catch (\Exception)` in `wait` does not catch it, and `instanceof \Exception` is false for it.
- **Fuel.** Flattening takes a fuel argument. Unwrapping one thenable costs one unit; that covers the re-flattening of whatever `wait` returned (Promise.php:38). Descending into arrays or into a promise's stored value costs nothing. A run that needs more unwrapping steps than its fuel allows reports `OutOfFuel`. `FlattenFuelMonotone` proves that extra fuel never changes a finished result.
- **Array assignment.** `$results[$key] = ...` is `Put`. An existing key keeps its position and takes the new value; a new key is appended. A `\Traversable` that yields a key twice therefore collapses to one entry.
- **The registry.** Interfaces are identified by name. Each interface's implementation list lives in the registry's map, and a name with no entry has the empty list.
- **Handlers registered on the wrapper.** The capturing handlers of `PromiseWrapper::wait` are not `Callable`s. Their effect is what the foreign `then` reports.

Where the source and its own test disagree, this model follows the code. tests/Promise/PromiseWrapperTest.php:37-41 expects `wait` on an object without `wait` to throw `LogicException('Promise does not implement "wait" method')`. The code never raises that: it calls `then` with capturing handlers and returns what they captured, or `null` if neither handler was called (`Adapter.WaitCaptures`).

## Model

| member | source | states |
|---|---|---|
| PhpValues.Put | src/Promise/Promise.php:43 | assigning into an array keeps every existing key in place, appends a new key at the end, and leaves the key present |
| PhpValues.PutValues | src/Promise/Promise.php:43 | in a key-unique array, the entry under the assigned key takes the new value and every other entry keeps its value |
| PhpValues.PutKeepsUniqueKeys | src/Promise/Promise.php:43 | assigning into a key-unique array leaves it key-unique |
| Completion.Reject | src/Promise/Promise.php:64-72 | with no rejection handlers the caught exception is rethrown; a rejection path that returns normally returns `null` |
| FlattenFacts.FlatIsFixpoint | src/Promise/Promise.php:35-49 | a value with no thenable, no `\Traversable` and unique keys at any array depth is returned unchanged, for any handlers and any fuel |
| FlattenFacts.FlattenYieldsFlat | src/Promise/Promise.php:35-49 | every normal result of flattening is flat: no thenable and no `\Traversable` at any array depth |
| FlattenFacts.FlattenIdempotent | src/Promise/Promise.php:35-49 | flattening a flattened result gives it back |
| FlattenFacts.FlattenKeepsKeys | src/Promise/Promise.php:40-46 | flattening an array gives an array with the same keys in the same order, each entry the flattening of the original entry |
| FlattenFacts.FlattenFuelMonotone | src/Promise/Promise.php:37-39 | once flattening finishes within some fuel, any larger fuel gives the same result |
| FlattenFacts.ForeignIsNotWaitedOn | src/Promise/Promise.php:30-33 | an object whose class does not implement `PromiseInterface` is not a thenable, whatever methods it has, and is returned untouched |
| FlattenFacts.ForeignPromiseIsWaitedOn | src/Promise/Promise.php:30-39 | a third-party `PromiseInterface` is a thenable: its `wait` is called, a throw from it is passed on, and a flat value it returns is the result |
| FlattenFacts.WrapperIsWaitedOn | src/Promise/Promise.php:30-39 | a `PromiseWrapper` is a thenable: flattening waits on it and returns the flat value its wrapped object's `wait` yields |
| FlattenFacts.TraversableCollapsesToLastValue | src/Promise/Promise.php:40-46 | when every entry flattens normally, the result is an array holding each key of the input exactly once and no other key, in order of first occurrence, each under the flattening of the last entry with that key |
| FlattenFacts.TraversableRepeatedKeyCollapses | src/Promise/Promise.php:40-46 | example: a two-entry `\Traversable` yielding one key with two scalars becomes a one-entry array holding the second scalar |
| FlattenFacts.FlattenListThrowsFirstError | src/Promise/Promise.php:40-46 | a throw while flattening an array is the throw of one of its entries, and every entry before that one flattened normally: the loop stops at the first failing entry |
| BuiltinPromise.Then | src/Promise/Promise.php:84-98 | `then` appends each non-null handler at the end of its own list, keeps the stored value, and with two null handlers changes nothing |
| BuiltinPromise.ChainAppend | src/Promise/Promise.php:60-62 | a handler registered last receives the output of the handlers registered before it |
| BuiltinPromise.ChainStopsAtThrow | src/Promise/Promise.php:58-64 | a fulfilment handler that throws ends the fold with that throw; later handlers never run |
| BuiltinPromise.WaitOnFreshPromiseFlattens | src/Promise/Promise.php:25-63 | waiting on `Promise::all($v)` is exactly flattening `$v`, and a flat `$v` comes back unchanged |
| BuiltinPromise.WaitRunsFulfilmentHandlers | src/Promise/Promise.php:59-63 | when no handler throws, `wait` returns the last handler's output, or the flattened value when there are no handlers |
| BuiltinPromise.ThenThenWait | src/Promise/Promise.php:56-98 | registering `f` with `then` and waiting returns `f` applied to what `wait` returned before `f` was registered |
| BuiltinPromise.WaitRejectsOnHandlerException | src/Promise/Promise.php:58-71 | an exception from the i-th fulfilment handler skips the rest and hands that exception to the rejection handlers |
| BuiltinPromise.WaitRejectsOnFlattenThrow | src/Promise/Promise.php:58-71 | an exception while flattening skips every fulfilment handler and goes to the rejection handlers; an engine error escapes uncaught |
| BuiltinPromise.RejectOutcome | src/Promise/Promise.php:65-72 | the rejection fold's final exception is thrown; any other final value makes `wait` return `null`, not that value |
| Adapter.SetWrappedPromise | src/Promise/PromiseWrapper.php:91-100 | the candidate is stored exactly when it is an object with a callable `then`; otherwise the "does not implement then" LogicException |
| Adapter.Wrap | src/Promise/PromiseWrapper.php:13-27 | `null` builds an empty wrapper; any other candidate is accepted exactly when it has a callable `then`, else the same LogicException |
| Adapter.WrapperThen | src/Promise/PromiseWrapper.php:70-84 | an empty wrapper fails with "No wrapped promise found!" before anything else; two null handlers return the wrapper itself; otherwise the wrapped object's `then` is called and its result wrapped anew: handlers registered on a built-in promise, the inner wrapper's `then` result wrapped once more, a foreign `then` result passed through `wrap`, a throw from `then` passed on, and an engine error when there is no `then` |
| Adapter.OnlyValidWrappersReachable | src/Promise/PromiseWrapper.php:91-100 | after any sequence of `setWrappedPromise` and `then` calls, the wrapper held wraps nothing or an object with a callable `then` |
| Adapter.ThenResultWithoutThenIsRefused | src/Promise/PromiseWrapper.php:83 | a non-null `then` result without a callable `then` is refused with the "does not implement then" LogicException |
| Adapter.ThenResultNullGivesEmptyWrapper | src/Promise/PromiseWrapper.php:13-18 | a `then` returning `null` gives an empty wrapper, whose next `then` fails with "No wrapped promise found!" |
| Adapter.ThenOnBuiltinPromise | src/Promise/PromiseWrapper.php:83 | `then` on a wrapped built-in promise registers the handlers on it and wraps the result |
| Adapter.WaitThroughWrappers | src/Promise/PromiseWrapper.php:34-38 | waiting on any number of nested wrappers around `Promise::all($v)` is flattening `$v` |
| Adapter.WaitDelegates | src/Promise/PromiseWrapper.php:35-38 | when the wrapped object has a callable `wait`, the wrapper's `wait` is exactly that `wait` |
| Adapter.WaitCaptures | src/Promise/PromiseWrapper.php:39-56 | without `wait`: a captured rejection is thrown, else the captured value is returned, and `null` when `then` called neither handler |
| InterfaceTypes.AddImplementationToInterfaces | src/Type/Definition/InterfaceType.php:34-42 | queueing appends one action and changes no implementation list |
| InterfaceTypes.AddImplementation | src/Type/Definition/InterfaceType.php:60-63 | the object type is appended to that interface's list and no other list changes |
| InterfaceTypes.RunAction | src/Type/Definition/InterfaceType.php:36-41 | one action appends the object type to each declared interface's list, once per declaration, and leaves other lists alone |
| InterfaceTypes.LoadImplementationToInterfaces | src/Type/Definition/InterfaceType.php:47-53 | draining leaves the queue empty and extends each list by the queued object types in queue order; with an empty queue it changes nothing |
| InterfaceTypes.NoDeduplication | src/Type/Definition/InterfaceType.php:60-63 | queueing one object type twice lists it twice |
| InterfaceTypes.PendingAppend | src/Type/Definition/InterfaceType.php:49-51 | a later queued object type lands after the earlier ones |
| InterfaceTypes.PendingOnlyDeclared | src/Type/Definition/InterfaceType.php:38-40 | object types that do not declare an interface add nothing to it |
| InterfaceTypes.ResolveTypeFnIsConfigured | src/Type/Definition/InterfaceType.php:118-121 | `getResolveTypeFn` gives the configured `resolveType`, or nothing when none was configured |
| InterfaceTypes.GetFields | src/Type/Definition/InterfaceType.php:90-99 | the first call computes and caches the map with exactly the configured names, running the thunk once; a throwing thunk's throw is passed on and leaves the cache at the empty map; a cached map is returned with nothing changed |
| InterfaceTypes.GetField | src/Type/Definition/InterfaceType.php:106-113 | a throw from loading the fields is passed on; otherwise the lookup succeeds exactly when the name is a field, and fails with `Field "<name>" is not defined for type "<type>"` |
| InterfaceTypes.GetFieldsMemoised | src/Type/Definition/InterfaceType.php:92-98 | a second `getFields` changes nothing and returns the first call's map, or the empty map after a throwing thunk |
| InterfaceTypes.FieldsFromConfig | src/Type/Definition/InterfaceType.php:94-95 | a missing `fields` config gives the empty map; a non-callable one is used directly |
| InterfaceTypes.ThunkSeesEmptyFields | src/Type/Definition/InterfaceType.php:93-95 | the thunk runs after the cache is set to the empty map, so a re-entrant `getFields` sees no fields; its throw is what `getFields` throws |
| InterfaceTypes.ThunkFailureIsPermanent | src/Type/Definition/InterfaceType.php:92-98 | after the thunk throws once it never runs again: every later `getFields` returns the empty map and every `getField` reports the field missing |
| InterfaceTypes.ThunkRunsAtMostOnce | src/Type/Definition/InterfaceType.php:90-99 | over any sequence of `getFields`/`getField` calls the thunk runs at most once, and exactly once after the first call |

## Left out

- Object identity and aliasing. `Promise::then` mutates the promise and returns `$this`, so every holder of the object sees the new handlers. The model returns the updated promise as a new value.
- Configuration validation (`Config::validate`) and the internals of `FieldDefinition::createMap` and `Utils::invariant` are not part of this model. `CreateMap` is a stand-in that keeps each config entry under its name; this is assumed, not derived from the source. The `getField` failure is an `Exception` carrying the message.
- `\Traversable` inputs are finite, re-iterable entry lists with integer or string keys. The model does not cover iteration that throws (which `wait` would hand to the rejection handlers), generators that can be iterated only once, keys of other types (an object key makes the assignment an engine error), or an object that is both `\Traversable` and `PromiseInterface` (which is waited on, since the thenable test comes first).
- Field order. `getFields` returns a Dafny `map`, which is unordered; the source returns a PHP array in field-declaration order.
- `ObjectType::getInterfaces` is not part of this model: an object type carries its declared interface names directly.
- Actions queued while the queue is being drained. The drain iterates over a copy of the queue and then clears it, so such an action would be dropped silently. The model cannot express this, because the `getInterfaces` call that could queue it is not modelled.
- The executor (non-null propagation, error collection, abstract-type resolution through `resolveType`) is not part of this model. Only `getResolveTypeFn`, which returns the configured callback, is modelled.
- The test helpers that spawn shell processes and poll for their completion. This is I/O and busy-waiting.
- Third-party promise internals. A foreign object is only its capability record.
- PHP's dynamic checks (`is_callable`, `instanceof`, `is_array`) are reduced to the shape of the `Value` datatype and capability flags. String keys that PHP converts to integer keys are not modelled.
- PHP's exact engine-error messages are abbreviated. These are calling `then` on `null`, and calling `then` on a value without that method.
- A foreign `then` rejecting with `null` or with a non-exception value is not modelled. Such a `then` rejects with a throwable.
- Adapter.WrapperThen: it states validity of the result only when a handler is given. With two null handlers it returns the wrapper unchanged, so that wrapper is valid only if the input was (see `Adapter.OnlyValidWrappersReachable`).
- InterfaceTypes.GetField: it states that the definition carries the looked-up name only when the fields were not cached yet. A cache installed some other way is not constrained.
