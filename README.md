# biteECS bookkeeping layer in Dafny

biteECS wraps the `bitecs` entity-component-system library in a few classes that keep
their own records of entities, components and component proxies. This project models
that bookkeeping and proves what it keeps consistent.

- **Entity** (`Entities.Entity`) keeps three maps: key -> (store, proxy), store -> key and
  proxy -> key. It supports adding a component, removing one by store or by proxy, looking
  one up, writing a component's data, listing the proxies, and destroying the entity.
  The three maps are modelled as the value `EntityTables.Tables`. `EntityTables.Consistent`
  states that they form a bijection.
- **EntityManager** (`Entities.EntityManager`) keeps the live entities by eid and the
  registered prefabs. `CreatePrefab` creates an entity and walks a template in order. For
  each step it resolves the component, attaches it, merges the default data with the
  caller's override (the override wins) and writes the fields.
- **ComponentManager** (`ComponentManagers.ComponentManager`) registers proxy classes by
  key. It keeps a last-in first-out pool of retired proxies per key.
- **World** (`Worlds.World`) keeps one last-in first-out pool of retired proxies, shared by
  every component type. This is the pool `Entity` uses.
- **ComponentProxy** (`ComponentProxies.ComponentProxy`) binds a store to an entity. It sets
  the membership flag when built and clears it on `destroy`.

The `bitecs` world is abstract (`BitEcs.BitWorld`). It has three parts:

- the set of live eids;
- the set of (store, eid) membership pairs that `addComponent`/`removeComponent` toggle;
- the field table `store[field][eid]`.

Fresh eids from `addEntity` are a precondition (`eid !in live`). JavaScript records are
lists of entries (`BitEcs.Record`). Object spread is `BitEcs.Merge`, and a loop of field
writes is `BitEcs.WriteRecord`.

The source files come from different revisions, and some calls do not match the
signatures they target:

- `world.ts:29` builds a proxy with two arguments; the proxy constructor takes four.
- `entityManager.ts:118` calls `addComponent` with a proxy; the signature is `(key, store)`.
- `entityManager.ts:107` uses `world.componentManager`, which `world.ts` does not declare.

Each operation is therefore modelled on the shared abstract state as its own file writes
it:

- The world builds a new proxy over (bitecs world, store, eid, key).
- The entity manager attaches each resolved step with `AddComponent(key, class.store)`.
- The entity manager holds its component registry and its `World` directly.

## Model

| member | source | states |
|---|---|---|
| BitEcs.BitWorld.constructor | src/world.ts:10 | `createWorld()` starts with no live eid, no membership and no written cell |
| BitEcs.BitWorld.WriteRow | src/entity.ts:113-117 | the field-write loop leaves the field table equal to `WriteRecord` of the record's entries in order; live eids and memberships are untouched |
| BitEcs.WriteRecordCells | src/entityManager.ts:128-132 | writing a record into one row sets exactly that row's cells named by the record, each to the record's value, and no other cell |
| BitEcs.Spread | src/entityManager.ts:121-124 | `Object.assign`: writes each property of the source record, in order, onto the target; its keys and values are stated by `SpreadKeys` and `SpreadGet` |
| BitEcs.Merge | src/entityManager.ts:121-124 | `{...data, ...override}` as two spreads onto an empty object; its fields are stated by `MergeFields` |
| BitEcs.WriteRecord | src/entityManager.ts:128-132 | the field table after writing every entry of a record into one row, in entry order; the cells it sets are stated by `WriteRecordCells` |
| BitEcs.Get | src/entityManager.ts:121-124 | a property lookup succeeds exactly when the record has the property |
| BitEcs.Put | src/entityManager.ts:121-124 | a property write adds the key, makes it read back as the written value, leaves other keys alone and keeps keys distinct |
| BitEcs.SpreadKeys | src/entityManager.ts:121-124 | spreading a record onto another yields the union of their keys, still each once |
| BitEcs.SpreadGet | src/entityManager.ts:121-124 | after a spread, a key of the spread record reads its value there; any other key reads as before |
| BitEcs.MergeFields | src/entityManager.ts:121-124 | `{...data, ...override}` has every field of both; where both define a field, the override's value wins |
| BitEcs.SpreadCopies | src/entityManager.ts:121-122 | spreading a record with distinct keys into an empty object copies it entry for entry, in order (JavaScript's order for non-integer-like keys) |
| ComponentProxies.ComponentProxy.constructor | src/componentProxy.ts:38-45 | records world, store, entity and name, and marks (store, eid) present; nothing else changes |
| ComponentProxies.ComponentProxy.Attach | src/componentProxy.ts:50-52 | only the entity reference changes (store and name are constants, and the frame excludes membership) |
| ComponentProxies.ComponentProxy.Destroy | src/componentProxy.ts:57-61 | returns true exactly when an entity is bound; with one, clears (store, eid) and keeps the binding; without one, changes nothing |
| Worlds.World.constructor | src/world.ts:9-13 | a fresh bitecs world and an empty pool |
| Worlds.World.CreateComponentProxy | src/world.ts:22-30 | a non-empty pool: pops its last proxy, shrinks the pool by one, rebinds the proxy and keeps its store. An empty pool: a fresh proxy over the given store, pool unchanged. Either way the proxy is bound to the entity |
| Worlds.World.RetireProxy | src/world.ts:35-37 | appends the proxy to the pool and changes nothing else |
| Worlds.RetireThenCreate | src/world.ts:22-37 | retiring p then creating for any component type returns p, rebound, with the pool and memberships as before |
| ComponentManagers.Pushed | src/componentManager.ts:67-71 | pushing grows the key's pool by the proxy at its end, creating the pool if absent; other keys' pools are unchanged |
| ComponentManagers.Popped | src/componentManager.ts:48-50 | popping drops the last proxy of the key's pool, so it shrinks by one; other keys' pools are unchanged |
| ComponentManagers.PushPop | src/componentManager.ts:50 | a push then a pop on the same key yields the pushed proxy and restores every pool |
| ComponentManagers.ComponentManager.constructor | src/componentManager.ts:20-24 | no pools and no registered classes |
| ComponentManagers.ComponentManager.RegisterComponent | src/componentManager.ts:29-31 | stores the class under its own key, overwriting any earlier one; pools unchanged |
| ComponentManagers.ComponentManager.GetComponent | src/componentManager.ts:36-38 | returns something exactly when the key is registered; that is the class registered under the key |
| ComponentManagers.ComponentManager.CreateComponentProxy | src/componentManager.ts:47-60 | a non-empty pool for the key: pops its last proxy, rebinds it, shrinks that pool only. An empty or absent pool with an unregistered key: fails with nothing changed. With a registered key: a fresh proxy of that class, pools unchanged |
| ComponentManagers.ComponentManager.RetireProxy | src/componentManager.ts:65-72 | destroys the proxy (clearing its membership when bound) and pushes it onto the pool for its name; live eids and fields are unchanged |
| ComponentManagers.RetireThenCreate | src/componentManager.ts:47-72 | retiring p then creating for p's name returns p, rebound to the new entity, with every pool as before |
| EntityTables.Attach | src/entity.ts:55-59 | the three map writes of `addComponent`; `AttachConsistent` and `AttachDetachRoundTrip` state what they keep |
| EntityTables.Resolve | src/entity.ts:78-82 | the key `removeComponent` reads from the store map or the proxy map; `ResolveHeld` and `ResolveAgrees` state when it succeeds |
| EntityTables.Detach | src/entity.ts:86-88 | the three deletes of `removeComponent`; `DetachConsistent` states what they keep |
| EntityTables.Lookup | src/entity.ts:94-99 | `getComponent` succeeds exactly when the key is attached; the proxy it returns resolves back to the key; otherwise it fails with ComponentNotFound |
| EntityTables.EmptyConsistent | src/entity.ts:34-36 | a new entity's maps are consistent and no key looks up |
| EntityTables.AttachConsistent | src/entity.ts:55-59 | adding a fresh key, store and proxy keeps the bijection; the key looks up to the proxy; store and proxy resolve to the key; other keys look up as before |
| EntityTables.ResolveAgrees | src/entity.ts:78-81 | the store and the proxy of an attached key resolve to that same key |
| EntityTables.ResolveHeld | src/entity.ts:78-82 | a store or proxy resolves exactly when some attached key holds it, and what it resolves to is attached |
| EntityTables.DetachConsistent | src/entity.ts:86-88 | deleting an attached key's three entries keeps the bijection; the key, its store and its proxy no longer resolve; other keys look up as before |
| EntityTables.DetachByStore | src/entity.ts:136-138 | removing by a held store drops exactly that store and its proxy from the reverse maps and keeps the bijection |
| EntityTables.ConsistentSizes | src/entity.ts:55-59 | consistent maps have equal sizes |
| EntityTables.AttachDetachRoundTrip | src/entity.ts:77-89 | adding a fresh component and removing it, by store or by proxy, restores the maps exactly |
| EntityTables.AddThenRemoveEmpties | src/tests/entity.test.ts:56-68 | from an empty entity, an add and its remove leave all three maps empty and the key unresolvable |
| EntityTables.SetComponentAsWritten | src/entity.ts:104-118 | as written: fails with ComponentNotFound on a missing key; on an attached key it passes exactly when every data key names an object in the storage record ("store", "proxy" or a name inherited from `Object.prototype`) |
| EntityTables.StorageWrites | src/entity.ts:113-117 | the as-written loop indexes the storage record: it passes exactly when every key is "store", "proxy" or an inherited `Object.prototype` name, and otherwise throws a TypeError |
| EntityTables.SetComponentAsWrittenThrows | src/entity.ts:116 | as written, setting `x` on an attached component throws instead of writing; setting `constructor` does not throw |
| Prefabs.KeyOf | src/entityManager.ts:98-101 | a step's key: the string it names, or the static `key` of its class |
| Prefabs.OverrideFor | src/entityManager.ts:102 | the caller's override for a key, or no data |
| Prefabs.StepData | src/entityManager.ts:121-124 | a step's default data merged with its override; stated by `StepDataDistinct` |
| Prefabs.PrefabFields | src/entityManager.ts:96-133 | the field table after writing each applied step's merged data in template order; stated by `PrefabFieldsAt`, `PrefabFieldsElsewhere` and `OverridesWin` |
| Prefabs.ResolveStep | src/entityManager.ts:105-110 | a class step resolves to its class; a key step resolves exactly when the key is registered |
| Prefabs.ResolvedPrefix | src/entityManager.ts:96-110 | the steps before the count all resolve, and the step at the count (if any) does not |
| Prefabs.ResolvedPrefixAt | src/entityManager.ts:110 | a walk that reaches i with every earlier step resolved, stopping at the end or at an unresolved step, has applied exactly `ResolvedPrefix` steps |
| Prefabs.ResolvedPrefixCovers | src/entityManager.ts:96-110 | when the first m steps all resolve, the walk applies at least m steps |
| Prefabs.RepeatAfterStopFits | src/entityManager.ts:110 | the template [A, missing, A] applies one step and is admitted by `AppliedFit`, though its two A steps share a key and a store |
| Prefabs.StepDataDistinct | src/entityManager.ts:102-124 | a step's merged data names each field once; a field reads the override's value when the override has it, else the template default |
| Prefabs.PrefabFieldsAt | src/entityManager.ts:96-133 | after the walk, step i's row holds every merged field with its merged value, and a field outside the merged data keeps its old value |
| Prefabs.PrefabFieldsElsewhere | src/entityManager.ts:96-133 | the walk leaves every cell outside the rows it writes unchanged |
| Prefabs.OverridesWin | src/entityManager.ts:121-132 | after the walk, a field the override names holds the override's value, a default-only field holds the default, other fields keep their values |
| Prefabs.TemplateDataWritten | src/tests/entityManager.test.ts:96-103 | the template `position` with x = 100, y = 100 writes 100 into both fields of the new entity |
| Entities.Entity.constructor | src/entity.ts:31-37 | takes a fresh eid and marks it live, with empty maps |
| Entities.Entity.AddComponent | src/entity.ts:43-70 | marks (store, eid); takes the world pool's last proxy (or a fresh one over the store) bound to the entity; the maps become `Attach` of the old maps; the bijection is kept. The key's accessor is then defined: the add fails with TypeError, after all those effects, exactly when an earlier add defined it |
| Entities.AddRemoveAdd | src/entity.ts:43-89 | on an entity with no components, add, remove and add again of one key: the first add passes, the second attaches the component again and fails with TypeError |
| Entities.Entity.RemoveComponent | src/entity.ts:77-89 | resolves the key by store or proxy. Held: clears (store, eid), appends the recorded proxy to the world pool, maps become `Detach` of the key. Not held: TypeError, nothing changed |
| Entities.Entity.GetComponent | src/entity.ts:94-99 | succeeds exactly when the key is attached, with the recorded proxy, which maps back to the key; otherwise ComponentNotFound |
| Entities.Entity.SetComponent | src/entity.ts:104-117 | a missing key fails with ComponentNotFound, writing nothing and attaching nothing; an attached key writes the data into its store's row of this eid |
| Entities.Entity.Components | src/entity.ts:123-129 | one proxy per attached key: as many as keys, each attached proxy present, each once |
| Entities.Entity.RemoveStore | src/entity.ts:136-138 | one removal of the `forEach`: the maps become `Detach` of the key held under the store; the proxy is retired to the pool and its membership cleared |
| Entities.Entity.RemoveAll | src/entity.ts:136-138 | removing every component by store empties the three maps, clears the membership of each store the entity held (and no other) and retires exactly the held proxies |
| Entities.Entity.Destroy | src/entity.ts:135-148 | empties all maps, clears the membership of each store the entity held, retires every held proxy, deletes the eid from the manager and from the live set, and leaves the eid invalid |
| Entities.EntityManager.constructor | src/entityManager.ts:29-34 | no entities and no prefabs |
| Entities.EntityManager.Create | src/entityManager.ts:43-47 | registers a new entity under its fresh eid; the map grows by exactly one |
| Entities.EntityManager.Remove | src/entityManager.ts:52-54 | deletes the entity's eid entry and no other |
| Entities.EntityManager.RegisterPrefab | src/entityManager.ts:59-61 | stores or overwrites the prefab under its key; `GetPrefab` then returns it and other keys read as before |
| Entities.EntityManager.GetPrefab | src/entityManager.ts:66-72 | returns the prefab exactly when the key is registered, otherwise PrefabNotFound |
| Entities.EntityManager.ApplyStep | src/entityManager.ts:97-133 | one template step: attaches the step's component under its key and writes its merged data, extending the walk by one step; the pool loses its last proxy if it has one |
| Entities.EntityManager.Walk | src/entityManager.ts:96-134 | applies the steps in order and stops at the first that does not resolve; the entity then holds exactly the resolved leading steps, with memberships and fields written, and the pool is the initial pool less one proxy from its end per applied step, until it runs out |
| Entities.EntityManager.CreatePrefab | src/entityManager.ts:87-138 | always registers a fresh entity first. Unknown prefab: PrefabNotFound with nothing attached and the pool, memberships and fields unchanged. Otherwise the walk result, with the pool less one proxy per applied step; UnknownComponent if some step does not resolve, the entity if all do |
| Entities.WalkStep | src/entityManager.ts:112-133 | attaching step i with a pooled or new proxy, marking it and writing its data turns the walk after i steps into the walk after i + 1 |
| Entities.StepTables | src/entityManager.ts:118 | after attaching step i, the tables hold exactly the keys and stores of the first i + 1 steps |
| Entities.StepPool | src/world.ts:23-29 | popping the attached proxy keeps the pool a duplicate-free prefix of the initial pool, one proxy shorter per step until it is empty, that holds none of the entity's proxies |
| Entities.StepIsNew | src/entityManager.ts:96-118 | a resolving step's key and store differ from those of the earlier steps |
| Entities.StepGrows | src/entityManager.ts:96-118 | the keys and stores of the walk grow by exactly step i |
| Entities.StepExtends | src/entityManager.ts:118-132 | the memberships and field table of the walk grow by exactly step i's membership and merged data |

## Left out

- The `bitecs` library itself (`createWorld`, `addEntity`, `removeEntity`, `addComponent`,
  `removeComponent`, `defineComponent`). It is foreign code; only its effect on the live set,
  the membership set and the field table is modelled. `addEntity` is a fresh eid passed in
  by the caller.
- `ComponentManager.defineQuery` (src/componentManager.ts:77-93) and the query getters of
  src/system.ts. Query matching and enter/exit diffing happen inside `bitecs`.
- `System.processEntities` and `getEntityById` from src/system.ts. The system manager,
  the Phaser plugin glue (src/biteECS.plugin.ts), src/engine.ts and src/component.ts.
- The `Object.defineProperty` accessor that `addComponent` installs (src/entity.ts:62-70).
  Reading it is modelled as a lookup through `Entities.Entity.GetComponent`. Defining it is
  modelled by the set `Entities.Entity.accessors`: the property is not configurable, so a key
  added before cannot be added again.
- Entities.Entity.AddComponent: a key that names a property the entity already has (an own
  field such as `eid`, or an inherited method such as `destroy`) is not modelled. In the source
  the accessor replaces or shadows that property.
- BitEcs.Put: keeps insertion order for every key. JavaScript enumerates integer-like keys
  such as "0" first, in ascending order. Only the order of a record's entries differs; the
  field table is the same, because each entry writes its own cell.
- Typed-array element widths: field values are unbounded integers, with no `ui32` wrap-around.
- Entities.Entity.AddComponent: requires the key and store to be unattached. Re-adding an
  attached key in the source overwrites the forward entry and leaves the old reverse entries
  stale, then throws at the accessor definition, with the bijection broken. Adding an attached
  store under a new key has `componentKeyMap.set(store, key)` (src/entity.ts:56) overwrite the
  store's entry. The old key's store then resolves to the new key and the old key's proxy to
  the old key, and the three maps are no longer a bijection. Neither case is modelled.
- Entities.Entity.AddComponent: requires that no proxy the entity holds waits in the world
  pool. It uses this to show the popped proxy is new to the entity.
- Entities.EntityManager.CreatePrefab: requires the world pool to be duplicate-free. It also
  requires the steps the walk applies (those before the first unresolved step) to use distinct
  keys and distinct stores (`Prefabs.AppliedFit`). In the source a repeated key throws at its
  accessor definition after its attach effects; a repeated store overwrites the store map's
  entry. Neither case is modelled.
- Entities.EntityManager.CreatePrefab: the extra proxy built at src/entityManager.ts:112-115
  is not modelled. Its only effect is marking the same (store, eid) again.
- Entities.EntityManager.CreatePrefab: the model writes each step's merged data into the store
  row of its resolved class, as the comment at src/entityManager.ts:131 describes. The source
  writes no store cell. `entity[key]` is the proxy the world handed out, a base
  `ComponentProxy` (src/world.ts:29) or a pooled one whose store may belong to another
  component. That class declares no field accessors (src/componentProxy.ts:31-62). So
  `entity[key][dataKey] = value` (src/entityManager.ts:132) sets a plain property on the proxy,
  which is what src/tests/entityManager.test.ts:101 reads back.
- Entities.Entity.SetComponent: stores carry no field schema in the model, so any field name
  is written. The intended `Component.store[key][eid] = value` throws for a field the store
  does not define. `Prefabs.PrefabFields` writes any field in the same way.
- Entities.EntityManager.CreatePrefab: the second `entityMap.set` at src/entityManager.ts:136 is
  not modelled. It stores the same entity under the same eid that `create` already stored.
- Entities.EntityManager.CreatePrefab: the overrides are a map from component key to record.
  The source declares an array but indexes it by key.
- Entities.EntityManager.CreatePrefab: `Walk` reports as one result what the source raises as
  an exception at src/entityManager.ts:110. The steps before the failing one stay applied.
- Entities.Entity.RemoveComponent: performs the three deletes before the membership clear and the
  retire, unlike the source's order at src/entity.ts:84-88. The three updates touch different
  state, so the final state is the same. When nothing resolves, the model returns TypeError,
  which stands for the source's read of `component.store` on `undefined`.
- Entities.EntityManager.Walk: does not state that the proxies the entity holds after the walk
  are bound to its eid, or that the proxies left in the pool keep their binding.
  `Entities.Entity.AddComponent` states that each attached proxy is bound to the eid when it is
  attached. Later steps only pop proxies that the entity does not hold. Carrying either heap
  fact through the loop is not proved. The same holds for `ApplyStep` and `CreatePrefab`.
- Entities.Entity.Components: covers the set of proxies returned, not `Map` insertion order.
- Entities.Entity.RemoveAll: covers the set of removals, not `Map.forEach` order. The proxies
  land in the world pool in some order; the model proves which proxies but not their order.
- ComponentProxies.ComponentProxy.constructor: the proxy's entity is held as an eid
  (`Option<Eid>`), not as a reference to the `Entity` object. So the proxy does not see the
  entity's eid become invalid on destroy.
- Worlds.World.CreateComponentProxy: the pool is modelled as a `seq` field reassigned on pop
  and push, not as an array mutated in place. Aliasing of the pool array with other holders is
  not modelled.
- `World.entityManager` (src/world.ts:6,11) is not a field of `Worlds.World`. An entity holds its
  manager directly, because a world-to-manager reference would make the modules cyclic.

## Findings

| source | as written | input that shows it | evidently intended | confidence | as-written member | corrected member |
|---|---|---|---|---|---|---|
| src/entity.ts:116 | the loop writes `Component[key][this.eid]`, where `Component` is the `{store, proxy}` record from `componentMap` | an attached key and data `{x: 10}`: `Component["x"]` is `undefined`, so indexing it throws a TypeError | write `Component.store[key][this.eid] = value`, as the comment on line 115 says | not executed | EntityTables.SetComponentAsWrittenThrows | Entities.Entity.SetComponent |
