/**
 `GraphQL\Type\Definition\InterfaceType`: the process-wide queue that tells
 interfaces about their implementations, and the memoised field map.

 Interfaces are identified by name. The registry keeps the queue of object
 types whose "add me to my interfaces" action is pending, and each
 interface's implementation list; an interface that was never given an
 implementation has the empty list.
 */
module InterfaceTypes {
  import opened PhpValues

  /** An object type as the registry sees it: a name and the names of the
      interfaces it declares, in declaration order. */
  datatype ObjectType = ObjectType(name: string, interfaces: seq<string>)

  datatype Registry = Registry(queue: seq<ObjectType>, implementations: map<string, seq<ObjectType>>)

  /** The implementation list of `iface`. */
  function Implementations(impls: map<string, seq<ObjectType>>, iface: string): seq<ObjectType> {
    if iface in impls then impls[iface] else []
  }

  /** How often `iface` occurs among the declared interfaces. */
  function Occurrences(ifaces: seq<string>, iface: string): nat {
    if |ifaces| == 0 then 0
    else (if ifaces[0] == iface then 1 else 0) + Occurrences(ifaces[1..], iface)
  }

  function Repeat(impl: ObjectType, n: nat): (r: seq<ObjectType>)
    ensures |r| == n && forall i :: 0 <= i < n ==> r[i] == impl
  {
    if n == 0 then [] else [impl] + Repeat(impl, n - 1)
  }

  /** What draining the queued object types adds to `iface`'s list, in queue order. */
  function Pending(queue: seq<ObjectType>, iface: string): seq<ObjectType> {
    if |queue| == 0 then []
    else
      var last := queue[|queue| - 1];
      Pending(queue[..|queue| - 1], iface) + Repeat(last, Occurrences(last.interfaces, iface))
  }

  /** `addImplementationToInterfaces($impl)`: queues the action and nothing else. */
  function AddImplementationToInterfaces(r: Registry, impl: ObjectType): (r': Registry)
    ensures r'.queue == r.queue + [impl]
    ensures r'.implementations == r.implementations
  {
    r.(queue := r.queue + [impl])
  }

  /** `addImplementation($impl)` on the interface named `iface`: appends, with no deduplication. */
  function AddImplementation(impls: map<string, seq<ObjectType>>, iface: string, impl: ObjectType): (impls': map<string, seq<ObjectType>>)
    ensures Implementations(impls', iface) == Implementations(impls, iface) + [impl]
    ensures forall other :: other != iface ==> Implementations(impls', other) == Implementations(impls, other)
  {
    impls[iface := Implementations(impls, iface) + [impl]]
  }

  /** One queued action: `$impl` is added to each interface of
      `$impl->getInterfaces()`, in that order. */
  function RunAction(impls: map<string, seq<ObjectType>>, impl: ObjectType, ifaces: seq<string>): (impls': map<string, seq<ObjectType>>)
    ensures forall iface :: Implementations(impls', iface) == Implementations(impls, iface) + Repeat(impl, Occurrences(ifaces, iface))
    decreases |ifaces|
  {
    if |ifaces| == 0 then impls
    else
      var added := AddImplementation(impls, ifaces[0], impl);
      var rest := RunAction(added, impl, ifaces[1..]);
      assert forall iface :: Implementations(rest, iface) == Implementations(impls, iface) + Repeat(impl, Occurrences(ifaces, iface)) by {
        forall iface
          ensures Implementations(rest, iface) == Implementations(impls, iface) + Repeat(impl, Occurrences(ifaces, iface))
        {
          var later := Repeat(impl, Occurrences(ifaces[1..], iface));
          assert Implementations(rest, iface) == Implementations(added, iface) + later;
          if iface == ifaces[0] {
            assert Repeat(impl, Occurrences(ifaces, iface)) == [impl] + later;
            assert Implementations(added, iface) == Implementations(impls, iface) + [impl];
          } else {
            assert Occurrences(ifaces, iface) == Occurrences(ifaces[1..], iface);
          }
        }
      }
      rest
  }

  /** `loadImplementationToInterfaces()`: runs the queued actions in queue
      order, then empties the queue. */
  method LoadImplementationToInterfaces(r: Registry) returns (r': Registry)
    ensures r'.queue == []
    ensures forall iface :: Implementations(r'.implementations, iface)
                         == Implementations(r.implementations, iface) + Pending(r.queue, iface)
    ensures r.queue == [] ==> r' == r
  {
    var impls := r.implementations;
    var i := 0;
    while i < |r.queue|
      invariant 0 <= i <= |r.queue|
      invariant i == 0 ==> impls == r.implementations
      invariant Drained(r.implementations, r.queue[..i], impls)
    {
      DrainStep(r.implementations, r.queue, i, impls);
      impls := RunAction(impls, r.queue[i], r.queue[i].interfaces);
      i := i + 1;
    }
    assert r.queue[..i] == r.queue;
    r' := Registry([], impls);
  }

  /** `impls` is `base` after draining `done`. */
  ghost predicate Drained(base: map<string, seq<ObjectType>>, done: seq<ObjectType>, impls: map<string, seq<ObjectType>>) {
    forall iface :: Implementations(impls, iface) == Implementations(base, iface) + Pending(done, iface)
  }

  lemma DrainStep(base: map<string, seq<ObjectType>>, queue: seq<ObjectType>, i: nat, impls: map<string, seq<ObjectType>>)
    requires i < |queue| && Drained(base, queue[..i], impls)
    ensures Drained(base, queue[..i + 1], RunAction(impls, queue[i], queue[i].interfaces))
  {
    PendingStep(queue, i);
  }

  lemma PendingStep(queue: seq<ObjectType>, i: nat)
    requires i < |queue|
    ensures forall iface :: Pending(queue[..i + 1], iface)
                         == Pending(queue[..i], iface) + Repeat(queue[i], Occurrences(queue[i].interfaces, iface))
  {
    assert queue[..i + 1][..i] == queue[..i];
  }

  /** Queueing the same object type twice and draining lists it twice for
      each interface it declares once. */
  lemma {:induction false} NoDeduplication(impl: ObjectType, iface: string)
    requires Occurrences(impl.interfaces, iface) == 1
    ensures Pending([impl, impl], iface) == [impl, impl]
  {
    assert [impl, impl][..1] == [impl];
    assert [impl][..0] == [];
    assert Repeat(impl, 1) == [impl];
    assert Pending([impl], iface) == [impl];
  }

  /** Draining a queue of two object types is draining the first and then
      the second: the lists grow in queue order. */
  lemma {:induction false} PendingAppend(queue: seq<ObjectType>, impl: ObjectType, iface: string)
    ensures Pending(queue + [impl], iface) == Pending(queue, iface) + Repeat(impl, Occurrences(impl.interfaces, iface))
  {
    assert (queue + [impl])[..|queue|] == queue;
  }

  /** An object type that does not declare `iface` adds nothing to it. */
  lemma {:induction false} PendingOnlyDeclared(queue: seq<ObjectType>, iface: string)
    requires forall i :: 0 <= i < |queue| ==> Occurrences(queue[i].interfaces, iface) == 0
    ensures Pending(queue, iface) == []
  {
    if |queue| > 0 {
      PendingOnlyDeclared(queue[..|queue| - 1], iface);
    }
  }

  // ---- fields ----

  /** One entry of the `fields` config, keyed by field name. */
  datatype FieldConfig = FieldConfig(typeName: string)

  /** A field definition as `FieldDefinition::createMap` builds it. */
  datatype FieldDefinition = FieldDefinition(name: string, typeName: string)

  /** The `fields` config: absent, given directly, or a thunk. The thunk is
      given what a re-entrant `getFields` call on the same interface would
      return while the thunk runs, and may throw. */
  datatype FieldsConfig =
    | NoFields
    | Direct(fields: map<string, FieldConfig>)
    | Thunk(produce: map<string, FieldDefinition> -> Result<map<string, FieldConfig>>)

  datatype InterfaceConfig = InterfaceConfig(
    name: string,
    fields: FieldsConfig,
    resolveType: Option<Callable>,
    description: Option<string>)

  /** An interface type. `thunkRuns` counts evaluations of the `fields` thunk. */
  datatype InterfaceType = InterfaceType(
    config: InterfaceConfig,
    resolveTypeFn: Option<Callable>,
    fieldsCache: Option<map<string, FieldDefinition>>,
    thunkRuns: nat)

  /** `new InterfaceType($config)` (configuration validation is not modelled). */
  function NewInterfaceType(config: InterfaceConfig): (t: InterfaceType)
    ensures t.config == config && t.fieldsCache.None? && t.thunkRuns == 0
  {
    InterfaceType(config, config.resolveType, None, 0)
  }

  /** `getResolveTypeFn()` */
  function GetResolveTypeFn(t: InterfaceType): Option<Callable> {
    t.resolveTypeFn
  }

  lemma ResolveTypeFnIsConfigured(config: InterfaceConfig)
    ensures GetResolveTypeFn(NewInterfaceType(config)) == config.resolveType
  {
  }

  /** Stand-in for `FieldDefinition::createMap`, which is not part of this
      model: each config entry becomes a definition named after its key. */
  function CreateMap(fields: map<string, FieldConfig>): (m: map<string, FieldDefinition>)
    ensures m.Keys == fields.Keys
  {
    map n | n in fields :: FieldDefinition(n, fields[n].typeName)
  }

  /** The raw `fields` config: empty when missing, used as is when not
      callable, the thunk's result (or its throw) when callable. The thunk
      sees the empty map `getFields` stores before calling it. */
  function RawFields(fields: FieldsConfig): Result<map<string, FieldConfig>> {
    match fields
    case NoFields => Ok(map[])
    case Direct(m) => Ok(m)
    case Thunk(produce) => produce(map[])
  }

  /** `getFields()`: computes and caches the map on the first call only. The
      cache is set to the empty map before the thunk runs, so a thunk that
      throws leaves it empty. */
  function GetFields(t: InterfaceType): (r: (InterfaceType, Result<map<string, FieldDefinition>>))
    ensures r.0.config == t.config && r.0.resolveTypeFn == t.resolveTypeFn
    ensures r.0.fieldsCache.Some?
    ensures r.1.Ok? ==> r.0.fieldsCache == Some(r.1.value)
    ensures t.fieldsCache.Some? ==> r.0 == t && r.1 == Ok(t.fieldsCache.value)
    ensures t.fieldsCache.None? ==> (r.1.Thrown? <==> RawFields(t.config.fields).Thrown?)
    ensures t.fieldsCache.None? && r.1.Ok? ==> r.1.value.Keys == RawFields(t.config.fields).value.Keys
    ensures r.1.Thrown? ==> t.config.fields.Thunk? && RawFields(t.config.fields) == Thrown(r.1.error) && r.0.fieldsCache == Some(map[])
    ensures t.fieldsCache.None? && t.config.fields.Thunk? ==> r.0.thunkRuns == t.thunkRuns + 1
    ensures !(t.fieldsCache.None? && t.config.fields.Thunk?) ==> r.0.thunkRuns == t.thunkRuns
  {
    match t.fieldsCache
    case Some(m) => (t, Ok(m))
    case None =>
      var runs := if t.config.fields.Thunk? then t.thunkRuns + 1 else t.thunkRuns;
      match RawFields(t.config.fields)
      case Thrown(e) => (t.(fieldsCache := Some(map[]), thunkRuns := runs), Thrown(e))
      case Ok(raw) =>
        var m := CreateMap(raw);
        (t.(fieldsCache := Some(m), thunkRuns := runs), Ok(m))
  }

  function FieldMissing(t: InterfaceType, name: string): Throwable {
    Throwable(Exception, "Field \"" + name + "\" is not defined for type \"" + t.config.name + "\"")
  }

  /** `getField($name)`: loads the fields if needed (a throw from that
      propagates), then looks the name up. */
  function GetField(t: InterfaceType, name: string): (r: (InterfaceType, Result<FieldDefinition>))
    ensures r.0 == GetFields(t).0
    ensures GetFields(t).1.Thrown? ==> r.1 == Thrown(GetFields(t).1.error)
    ensures GetFields(t).1.Ok? ==> (r.1.Ok? <==> name in GetFields(t).1.value)
    ensures r.1.Ok? ==> r.1.value == GetFields(t).1.value[name]
    ensures r.1.Ok? && t.fieldsCache.None? ==> r.1.value.name == name
    ensures GetFields(t).1.Ok? && r.1.Thrown? ==> r.1.error == FieldMissing(t, name)
  {
    var (t', fields) := GetFields(t);
    match fields
    case Thrown(e) => (t', Thrown(e))
    case Ok(m) => if name in m then (t', Ok(m[name])) else (t', Thrown(FieldMissing(t, name)))
  }

  /** A second `getFields` changes nothing and returns what the cache holds:
      the first call's map, or the empty map after a throwing thunk. */
  lemma GetFieldsMemoised(t: InterfaceType)
    ensures GetFields(GetFields(t).0).0 == GetFields(t).0
    ensures GetFields(t).1.Ok? ==> GetFields(GetFields(t).0).1 == GetFields(t).1
    ensures GetFields(t).1.Thrown? ==> GetFields(GetFields(t).0).1 == Ok(map[])
  {
  }

  /** Missing `fields` config gives the empty map; a direct config is used as is. */
  lemma FieldsFromConfig(t: InterfaceType)
    requires t.fieldsCache.None?
    ensures t.config.fields.NoFields? ==> GetFields(t).1 == Ok(map[])
    ensures t.config.fields.Direct? ==> GetFields(t).1 == Ok(CreateMap(t.config.fields.fields))
  {
  }

  /** The thunk runs with the interface's fields already set to the empty
      map, so a `getFields` inside it sees no fields instead of recursing. */
  lemma ThunkSeesEmptyFields(t: InterfaceType, produce: map<string, FieldDefinition> -> Result<map<string, FieldConfig>>)
    requires t.fieldsCache.None? && t.config.fields == Thunk(produce)
    ensures produce(map[]).Ok? ==> GetFields(t).1 == Ok(CreateMap(produce(map[]).value))
    ensures produce(map[]).Thrown? ==> GetFields(t).1 == Thrown(produce(map[]).error)
  {
  }

  /** A field lookup on an interface, or a request for all its fields. */
  datatype Access = AllFields | OneField(name: string)

  function Perform(t: InterfaceType, accesses: seq<Access>): InterfaceType
    decreases |accesses|
  {
    if |accesses| == 0 then t
    else
      var t' := match accesses[0] {
        case AllFields => GetFields(t).0
        case OneField(n) => GetField(t, n).0
      };
      Perform(t', accesses[1..])
  }

  /** However many lookups are made, the `fields` thunk of a new interface
      runs at most once, and it runs once as soon as anything is looked up. */
  lemma {:induction false} ThunkRunsAtMostOnce(config: InterfaceConfig, accesses: seq<Access>)
    ensures Perform(NewInterfaceType(config), accesses).thunkRuns <= 1
    ensures config.fields.Thunk? && |accesses| > 0 ==> Perform(NewInterfaceType(config), accesses).thunkRuns == 1
  {
    var t := NewInterfaceType(config);
    if |accesses| > 0 {
      var t' := GetFields(t).0;
      assert t'.thunkRuns <= 1 && t'.fieldsCache.Some?;
      assert config.fields.Thunk? ==> t'.thunkRuns == 1;
      CachedStaysPut(t', accesses[1..]);
    }
  }

  lemma {:induction false} CachedStaysPut(t: InterfaceType, accesses: seq<Access>)
    requires t.fieldsCache.Some?
    ensures Perform(t, accesses) == t
    decreases |accesses|
  {
    if |accesses| > 0 {
      CachedStaysPut(t, accesses[1..]);
    }
  }

  /** A `fields` thunk that throws is never run again: the interface keeps
      the empty map stored before the call, so every later `getFields`
      returns no fields and every `getField` reports the field as missing. */
  lemma {:induction false} ThunkFailureIsPermanent(config: InterfaceConfig, accesses: seq<Access>, name: string)
    requires config.fields.Thunk? && config.fields.produce(map[]).Thrown?
    ensures GetFields(NewInterfaceType(config)).1 == Thrown(config.fields.produce(map[]).error)
    ensures var t' := GetFields(NewInterfaceType(config)).0;
            && t'.fieldsCache == Some(map[]) && t'.thunkRuns == 1
            && Perform(t', accesses) == t'
            && GetFields(t').1 == Ok(map[])
            && GetField(t', name).1 == Thrown(FieldMissing(t', name))
  {
    var t' := GetFields(NewInterfaceType(config)).0;
    CachedStaysPut(t', accesses);
  }
}
