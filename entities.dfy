/**
 * Entities and the entity manager. An entity keeps the three mutually
 * consistent maps of its components; the manager keeps the live entities by
 * eid and the registered prefabs. The two classes share a module because each
 * calls into the other (an entity deregisters itself on destroy, the manager
 * creates entities).
 */
module Entities {
  import opened Wrappers
  import opened BitEcs
  import opened ComponentProxies
  import opened Worlds
  import opened ComponentManagers
  import opened EntityTables
  import opened Prefabs

  class Entity {
    const world: World
    /** The manager that the entity deregisters from (`world.entityManager`). */
    const manager: EntityManager
    var componentMap: map<string, Storage>
    var componentKeyMap: map<StoreId, string>
    var proxyKeyMap: map<ComponentProxy, string>
    /** The bitecs eid; None stands for the NaN a destroyed entity is left with. */
    var eid: Option<Eid>
    /**
     * The keys `addComponent` has defined an accessor property for. The
     * property is not configurable, so it outlives the component's removal.
     */
    var accessors: set<string>

    function State(): Tables
      reads this
    {
      Tables(componentMap, componentKeyMap, proxyKeyMap)
    }

    ghost predicate Valid()
      reads this
    {
      Consistent(State()) && (eid.None? ==> componentMap == map[])
    }

    /** `new Entity(world)`: `addEntity` hands out `eid`, which no live entity holds. */
    constructor (world: World, manager: EntityManager, eid: Eid)
      requires eid !in world.store.live
      modifies world.store
      ensures this.world == world && this.manager == manager && this.eid == Some(eid)
      ensures State() == Empty && accessors == {} && Valid()
      ensures world.store.live == old(world.store.live) + {eid}
      ensures world.store.members == old(world.store.members) && world.store.fields == old(world.store.fields)
    {
      this.world := world;
      this.manager := manager;
      this.eid := Some(eid);
      componentMap := map[];
      componentKeyMap := map[];
      proxyKeyMap := map[];
      accessors := {};
      new;
      world.store.live := world.store.live + {eid};
    }

    /**
     * Marks (store, eid) present, takes a proxy from the world's pool (or a new
     * one) bound to this entity, and records key -> (store, proxy),
     * store -> key and proxy -> key. It then defines the accessor property for
     * the key, which throws when an earlier add already defined it: a key
     * added, removed and added again ends attached, yet the add fails.
     */
    method AddComponent(key: string, store: StoreId) returns (r: Outcome)
      requires Valid() && eid.Some?
      requires key !in componentMap && store !in componentKeyMap
      requires forall p :: p in proxyKeyMap ==> p !in world.proxyPool
      modifies this`componentMap, this`componentKeyMap, this`proxyKeyMap, this`accessors, world, world.store, Top(world.proxyPool)
      ensures Valid() && eid == old(eid)
      ensures r == if key in old(accessors) then Fail(TypeError) else Pass
      ensures accessors == old(accessors) + {key}
      ensures key in componentMap && componentMap[key].store == store
      ensures State() == Attach(old(State()), key, store, componentMap[key].proxy)
      ensures componentMap[key].proxy.entity == eid
      ensures old(world.proxyPool) != [] ==>
        && componentMap[key].proxy == old(world.proxyPool[|world.proxyPool| - 1])
        && world.proxyPool == old(world.proxyPool[..|world.proxyPool| - 1])
      ensures old(world.proxyPool) == [] ==>
        fresh(componentMap[key].proxy) && componentMap[key].proxy.store == store && world.proxyPool == []
      ensures world.store.members == old(world.store.members) + {(store, eid.value)}
      ensures world.store.live == old(world.store.live) && world.store.fields == old(world.store.fields)
    {
      world.store.members := world.store.members + {(store, eid.value)};
      var proxy := world.CreateComponentProxy(store, eid.value, key);
      assert proxy !in proxyKeyMap;
      AttachConsistent(State(), key, store, proxy);
      var t := Attach(State(), key, store, proxy);
      componentMap, componentKeyMap, proxyKeyMap := t.components, t.storeKeys, t.proxyKeys;
      if key in accessors {
        return Fail(TypeError);
      }
      accessors := accessors + {key};
      return Pass;
    }

    /**
     * Resolves the key from the store or the proxy, clears the membership of
     * (store, eid), retires the recorded proxy to the world's pool and deletes
     * all three entries. A store or proxy the entity does not hold makes the
     * lookup of `component.store` fail on `undefined` before anything changes.
     */
    method RemoveComponent(component: ComponentRef) returns (r: Outcome)
      requires Valid()
      modifies this`componentMap, this`componentKeyMap, this`proxyKeyMap, world, world.store
      ensures Valid() && eid == old(eid)
      ensures Resolve(old(State()), component).None? ==>
        && r == Fail(TypeError)
        && State() == old(State())
        && world.proxyPool == old(world.proxyPool)
        && world.store.members == old(world.store.members)
      ensures Resolve(old(State()), component).Some? ==>
        var key := Resolve(old(State()), component).value;
        var storage := old(componentMap)[key];
        && r == Pass && eid.Some?
        && State() == Detach(old(State()), key)
        && world.proxyPool == old(world.proxyPool) + [storage.proxy]
        && world.store.members == old(world.store.members) - {(storage.store, eid.value)}
      ensures world.store.live == old(world.store.live) && world.store.fields == old(world.store.fields)
    {
      var key := Resolve(State(), component);
      ResolveHeld(State(), component);
      if key.None? {
        return Fail(TypeError);
      }
      var storage := componentMap[key.value];
      DetachConsistent(State(), key.value);
      var t := Detach(State(), key.value);
      componentMap, componentKeyMap, proxyKeyMap := t.components, t.storeKeys, t.proxyKeys;
      world.store.members := world.store.members - {(storage.store, eid.value)};
      world.RetireProxy(storage.proxy);
      return Pass;
    }

    /**
     * `getComponent` (and the per-key accessor property): the proxy recorded
     * for an attached key, ComponentNotFound otherwise.
     */
    function GetComponent(key: string): (r: Result<ComponentProxy>)
      requires Valid()
      reads this
      ensures r.Ok? <==> key in componentMap
      ensures r.Ok? ==> r.value == componentMap[key].proxy && proxyKeyMap[r.value] == key
      ensures r.Err? ==> r.error == ComponentNotFound
    {
      Lookup(State(), key)
    }

    /**
     * Writes every entry of `data` into the row of the key's store; fails when
     * the key is not attached, and never attaches it.
     */
    method SetComponent(key: string, data: Record) returns (r: Outcome)
      requires Valid()
      modifies world.store
      ensures key !in componentMap ==> r == Fail(ComponentNotFound) && world.store.fields == old(world.store.fields)
      ensures key in componentMap ==>
        && r == Pass && eid.Some?
        && world.store.fields == WriteRecord(old(world.store.fields), componentMap[key].store, eid.value, data)
      ensures world.store.live == old(world.store.live) && world.store.members == old(world.store.members)
    {
      if key !in componentMap {
        return Fail(ComponentNotFound);
      }
      world.store.WriteRow(componentMap[key].store, eid.value, data);
      return Pass;
    }

    /** One proxy per attached key, each once. */
    method Components() returns (proxies: seq<ComponentProxy>)
      requires Valid()
      ensures |proxies| == |componentMap|
      ensures forall k :: k in componentMap ==> componentMap[k].proxy in proxies
      ensures forall i :: 0 <= i < |proxies| ==> proxies[i] in proxyKeyMap
      ensures Distinct(proxies)
    {
      proxies := [];
      var keys := componentMap.Keys;
      while keys != {}
        invariant keys <= componentMap.Keys
        invariant |proxies| + |keys| == |componentMap|
        invariant forall k :: k in componentMap && k !in keys ==> componentMap[k].proxy in proxies
        invariant forall i :: 0 <= i < |proxies| ==> proxies[i] in proxyKeyMap && proxyKeyMap[proxies[i]] !in keys
        invariant Distinct(proxies)
        decreases keys
      {
        var k :| k in keys;
        proxies := proxies + [componentMap[k].proxy];
        keys := keys - {k};
      }
    }

    /** One step of the `forEach` of `destroy`: removes the component held under `store`. */
    method RemoveStore(store: StoreId) returns (ghost proxy: ComponentProxy)
      requires Valid() && store in componentKeyMap
      modifies this`componentMap, this`componentKeyMap, this`proxyKeyMap, world, world.store
      ensures Valid() && eid == old(eid) && eid.Some?
      ensures proxy in old(proxyKeyMap)
      ensures old(componentKeyMap)[store] in old(componentMap)
      ensures State() == Detach(old(State()), old(componentKeyMap)[store])
      ensures componentKeyMap.Keys == old(componentKeyMap).Keys - {store}
      ensures proxyKeyMap.Keys == old(proxyKeyMap).Keys - {proxy}
      ensures world.proxyPool == old(world.proxyPool) + [proxy]
      ensures world.store.members == old(world.store.members) - {(store, eid.value)}
      ensures world.store.live == old(world.store.live) && world.store.fields == old(world.store.fields)
    {
      ghost var before := State();
      DetachByStore(before, store);
      proxy := componentMap[componentKeyMap[store]].proxy;
      var _ := RemoveComponent(ByStore(store));
    }

    /** The `forEach` of `destroy`: removes every component by its store. */
    method RemoveAll() returns (ghost retired: seq<ComponentProxy>)
      requires Valid()
      modifies this`componentMap, this`componentKeyMap, this`proxyKeyMap, world, world.store
      ensures Valid() && eid == old(eid) && State() == Empty
      ensures eid.Some? ==>
        world.store.members == old(world.store.members) - MembershipOf(old(componentKeyMap).Keys, eid.value)
      ensures eid.None? ==> world.store.members == old(world.store.members)
      ensures world.store.live == old(world.store.live) && world.store.fields == old(world.store.fields)
      ensures world.proxyPool == old(world.proxyPool) + retired
      ensures multiset(retired) == multiset(old(proxyKeyMap).Keys)
    {
      retired := [];
      ghost var t0 := State();
      ghost var members0 := world.store.members;
      ghost var pool0 := world.proxyPool;
      ghost var gone: set<StoreId> := {};
      ghost var dropped: set<ComponentProxy> := {};
      while componentKeyMap != map[]
        invariant Valid() && eid == old(eid)
        invariant componentKeyMap.Keys == t0.storeKeys.Keys - gone && gone <= t0.storeKeys.Keys
        invariant proxyKeyMap.Keys == t0.proxyKeys.Keys - dropped && dropped <= t0.proxyKeys.Keys
        invariant eid.Some? ==> world.store.members == members0 - MembershipOf(gone, eid.value)
        invariant eid.None? ==> world.store.members == members0
        invariant world.store.live == old(world.store.live) && world.store.fields == old(world.store.fields)
        invariant world.proxyPool == pool0 + retired
        invariant multiset(retired) == multiset(dropped)
        decreases t0.storeKeys.Keys - gone
      {
        var store :| store in componentKeyMap;
        ghost var pool := world.proxyPool;
        ghost var members := world.store.members;
        ghost var stores := componentKeyMap.Keys;
        ghost var proxies := proxyKeyMap.Keys;
        ghost var proxy := RemoveStore(store);
        RetiredGrows(pool0, retired, pool, proxy, dropped);
        SetDrop(t0.storeKeys.Keys, stores, gone, store);
        SetDrop(t0.proxyKeys.Keys, proxies, dropped, proxy);
        MembershipGrows(gone, store, eid.value);
        SetDrop(members0, members, MembershipOf(gone, eid.value), (store, eid.value));
        retired, gone, dropped := retired + [proxy], gone + {store}, dropped + {proxy};
      }
      ConsistentSizes(State());
      AllGone(t0.storeKeys.Keys, componentKeyMap.Keys, gone);
      AllGone(t0.proxyKeys.Keys, proxyKeyMap.Keys, dropped);
    }

    /**
     * Removes every component, deregisters from the manager, frees the eid in
     * bitecs and leaves the eid invalid.
     */
    method Destroy()
      requires Valid() && manager.Valid()
      modifies this, world, world.store, manager
      ensures Valid() && manager.Valid()
      ensures State() == Empty && eid.None? && accessors == old(accessors)
      ensures old(eid).Some? ==>
        world.store.members == old(world.store.members) - MembershipOf(old(componentKeyMap).Keys, old(eid).value)
      ensures old(eid).None? ==> world.store.members == old(world.store.members)
      ensures world.store.live == if old(eid).Some? then old(world.store.live) - {old(eid).value} else old(world.store.live)
      ensures world.store.fields == old(world.store.fields)
      ensures |world.proxyPool| >= |old(world.proxyPool)| && world.proxyPool[..|old(world.proxyPool)|] == old(world.proxyPool)
      ensures multiset(world.proxyPool) == multiset(old(world.proxyPool)) + multiset(old(proxyKeyMap).Keys)
      ensures manager.entityMap == if old(eid).Some? then old(manager.entityMap) - {old(eid).value} else old(manager.entityMap)
      ensures manager.prefabMap == old(manager.prefabMap)
    {
      ghost var retired := RemoveAll();
      assert world.proxyPool[..|old(world.proxyPool)|] == old(world.proxyPool);
      assert manager.Valid();
      manager.Remove(this);
      if eid.Some? {
        world.store.live := world.store.live - {eid.value};
      }
      eid := None;
    }
  }

  /**
   * Adding a component, removing it and adding it again: the second add
   * attaches the component as the first did, then fails because the key's
   * accessor property already exists.
   */
  method AddRemoveAdd(e: Entity, key: string, store: StoreId) returns (first: Outcome, second: Outcome)
    requires e.Valid() && e.eid.Some? && e.State() == Empty && key !in e.accessors
    modifies e, e.world, e.world.store, Top(e.world.proxyPool)
    ensures first == Pass && second == Fail(TypeError)
    ensures key in e.componentMap && e.componentMap[key].store == store && e.Valid()
    ensures e.world.store.members == old(e.world.store.members) + {(store, e.eid.value)}
  {
    first := e.AddComponent(key, store);
    AttachDetachRoundTrip(Empty, key, store, e.componentMap[key].proxy, ByStore(store));
    var _ := e.RemoveComponent(ByStore(store));
    second := e.AddComponent(key, store);
  }

  /** The membership pairs of an entity's stores. */
  function MembershipOf(stores: set<StoreId>, eid: Eid): set<(StoreId, Eid)>
  {
    set s | s in stores :: (s, eid)
  }

  lemma RetiredGrows(pool0: seq<ComponentProxy>, retired: seq<ComponentProxy>, pool: seq<ComponentProxy>,
                     proxy: ComponentProxy, dropped: set<ComponentProxy>)
    requires pool == pool0 + retired && proxy !in dropped
    ensures pool + [proxy] == pool0 + (retired + [proxy])
    ensures multiset(dropped + {proxy}) == multiset(dropped) + multiset{proxy}
  {
  }

  lemma MembershipGrows(stores: set<StoreId>, store: StoreId, eid: Eid)
    ensures MembershipOf(stores + {store}, eid) == MembershipOf(stores, eid) + {(store, eid)}
  {
  }

  /** Nothing left means everything is gone. */
  lemma AllGone<T>(whole: set<T>, rest: set<T>, gone: set<T>)
    requires rest == whole - gone && gone <= whole && |rest| == 0
    ensures gone == whole
  {
  }

  /** One more element leaves a set that was `whole - gone` before. */
  lemma SetDrop<T>(whole: set<T>, rest: set<T>, gone: set<T>, x: T)
    requires rest == whole - gone
    ensures rest - {x} == whole - (gone + {x})
  {
  }

  class EntityManager {
    const world: World
    /** The component registry that prefab steps are resolved in (`world.componentManager`). */
    const components: ComponentManager
    var entityMap: map<Eid, Entity>
    var prefabMap: map<string, Prefab>

    /** Every registered entity sits under its own eid, and that eid is live. */
    ghost predicate Valid()
      reads this, world.store`live, entityMap.Values
    {
      forall id :: id in entityMap ==> entityMap[id].eid == Some(id) && id in world.store.live
    }

    constructor (world: World, components: ComponentManager)
      ensures this.world == world && this.components == components
      ensures entityMap == map[] && prefabMap == map[] && Valid()
    {
      this.world := world;
      this.components := components;
      entityMap := map[];
      prefabMap := map[];
    }

    /** Makes an entity under a fresh eid and registers it; the map grows by one. */
    method Create(eid: Eid) returns (entity: Entity)
      requires Valid() && eid !in world.store.live
      modifies this, world.store
      ensures Valid() && fresh(entity)
      ensures entity.world == world && entity.manager == this && entity.eid == Some(eid)
      ensures entity.State() == Empty && entity.accessors == {} && entity.Valid()
      ensures eid !in old(entityMap) && entityMap == old(entityMap)[eid := entity]
      ensures |entityMap| == |old(entityMap)| + 1
      ensures prefabMap == old(prefabMap)
      ensures world.store.live == old(world.store.live) + {eid}
      ensures world.store.members == old(world.store.members) && world.store.fields == old(world.store.fields)
    {
      entity := new Entity(world, this, eid);
      entityMap := entityMap[eid := entity];
    }

    /** Deletes the entry under the entity's eid and no other. */
    method Remove(entity: Entity)
      requires Valid()
      modifies this
      ensures Valid()
      ensures entityMap == if entity.eid.Some? then old(entityMap) - {entity.eid.value} else old(entityMap)
      ensures prefabMap == old(prefabMap)
    {
      if entity.eid.Some? {
        entityMap := entityMap - {entity.eid.value};
      }
    }

    /** Stores the prefab under its key, replacing any prefab there before. */
    method RegisterPrefab(key: string, prefab: Prefab)
      requires Valid()
      modifies this
      ensures Valid() && entityMap == old(entityMap)
      ensures prefabMap == old(prefabMap)[key := prefab]
      ensures GetPrefab(key) == Ok(prefab)
      ensures forall k :: k != key ==> GetPrefab(k) == old(GetPrefab(k))
    {
      prefabMap := prefabMap[key := prefab];
    }

    /** The prefab registered under the key, or PrefabNotFound. */
    function GetPrefab(key: string): (r: Result<Prefab>)
      reads this
      ensures r.Ok? <==> key in prefabMap
      ensures r.Ok? ==> r.value == prefabMap[key]
      ensures r.Err? ==> r.error == PrefabNotFound
    {
      if key in prefabMap then Ok(prefabMap[key]) else Err(PrefabNotFound)
    }

    /** `Walking` read off the entity and the world. */
    ghost predicate Walked(entity: Entity, prefab: Prefab, i: nat, registry: Registry, overrides: Overrides, eid: Eid,
                           members0: set<(StoreId, Eid)>, fields0: map<Cell, int>, pool0: seq<ComponentProxy>)
      reads entity, world, world.store
    {
      && entity.Valid() && entity.eid == Some(eid) && entity.world == world
      && entity.accessors == entity.componentMap.Keys
      && Walking(entity.State(), world.store.members, world.store.fields, world.proxyPool,
                 prefab, i, registry, overrides, eid, members0, fields0, pool0)
    }

    /** One step of the walk: attach step i's component under its key, then write its merged data. */
    method ApplyStep(entity: Entity, prefab: Prefab, i: nat, cls: ProxyClass, ghost registry: Registry, overrides: Overrides, eid: Eid,
                     ghost members0: set<(StoreId, Eid)>, ghost fields0: map<Cell, int>, ghost pool0: seq<ComponentProxy>)
      requires Walked(entity, prefab, i, registry, overrides, eid, members0, fields0, pool0)
      requires i < |prefab| && AppliedFit(prefab, registry) && ResolveStep(prefab[i], registry) == Some(cls)
      requires Valid()
      modifies entity, world, world.store, Top(world.proxyPool)
      ensures Walked(entity, prefab, i + 1, registry, overrides, eid, members0, fields0, pool0)
      ensures entity.eid == old(entity.eid) && world.store.live == old(world.store.live) && Valid()
    {
      var key := KeyOf(prefab[i]);
      ghost var t, members, fields, pool := entity.State(), world.store.members, world.store.fields, world.proxyPool;
      StepIsNew(prefab, registry, i);
      var _ := entity.AddComponent(key, cls.store);
      ghost var proxy, t', members', pool' := entity.componentMap[key].proxy, entity.State(), world.store.members, world.proxyPool;
      world.store.WriteRow(cls.store, eid, StepData(prefab[i], overrides));
      WalkStep(t, t', members, members', fields, world.store.fields, pool, pool', proxy,
               prefab, i, cls, registry, overrides, eid, members0, fields0, pool0);
    }

    /**
     * The loop of `createPrefab`: applies the steps in order and stops at the
     * first one whose component does not resolve.
     */
    method Walk(entity: Entity, prefab: Prefab, overrides: Overrides, eid: Eid) returns (r: Outcome, ghost n: nat)
      requires Valid() && components.Valid() && AppliedFit(prefab, components.componentMap)
      requires Walked(entity, prefab, 0, components.componentMap, overrides, eid, world.store.members, world.store.fields, world.proxyPool)
      modifies entity, world, world.store, world.proxyPool
      ensures n == ResolvedPrefix(prefab, components.componentMap)
      ensures Walked(entity, prefab, n, components.componentMap, overrides, eid,
                     old(world.store.members), old(world.store.fields), old(world.proxyPool))
      ensures world.proxyPool == old(world.proxyPool)[..PoolLeft(|old(world.proxyPool)|, n)]
      ensures r == if n == |prefab| then Pass else Fail(UnknownComponent)
      ensures entity.eid == old(entity.eid) && world.store.live == old(world.store.live) && Valid()
    {
      ghost var registry := components.componentMap;
      ghost var members0, fields0, pool0 := world.store.members, world.store.fields, world.proxyPool;
      var i := 0;
      while i < |prefab|
        invariant i <= |prefab| && Walked(entity, prefab, i, registry, overrides, eid, members0, fields0, pool0)
        invariant entity.eid == old(entity.eid) && world.store.live == old(world.store.live) && Valid()
      {
        var config := prefab[i];
        var component := if config.component.ByKey? then components.GetComponent(config.component.key)
                         else Some(config.component.cls);
        if component.None? {
          ResolvedPrefixAt(prefab, registry, i);
          return Fail(UnknownComponent), i;
        }
        TopWithin(world.proxyPool, pool0);
        ApplyStep(entity, prefab, i, component.value, registry, overrides, eid, members0, fields0, pool0);
        i := i + 1;
      }
      ResolvedPrefixAt(prefab, registry, i);
      return Pass, i;
    }

    /**
     * Creates and registers an entity, then walks the prefab's steps in order:
     * resolve the component, attach it under its key, and write its default
     * data merged with the caller's override. An unregistered prefab name
     * fails after the entity is registered; a step that does not resolve fails
     * with the steps before it already applied.
     */
    method CreatePrefab(prefabType: string, overrides: Overrides, eid: Eid) returns (r: Result<Entity>)
      requires Valid() && components.Valid()
      requires eid !in world.store.live
      requires Distinct(world.proxyPool)
      requires prefabType in prefabMap ==> AppliedFit(prefabMap[prefabType], components.componentMap)
      modifies this, world, world.store, world.proxyPool
      ensures Valid() && prefabMap == old(prefabMap)
      ensures eid !in old(entityMap) && eid in entityMap && entityMap == old(entityMap)[eid := entityMap[eid]]
      ensures fresh(entityMap[eid]) && entityMap[eid].eid == Some(eid) && entityMap[eid].Valid()
      ensures world.store.live == old(world.store.live) + {eid}
      ensures prefabType !in old(prefabMap) ==>
        && r == Err(PrefabNotFound)
        && entityMap[eid].State() == Empty
        && world.store.members == old(world.store.members) && world.store.fields == old(world.store.fields)
        && world.proxyPool == old(world.proxyPool)
      ensures prefabType in old(prefabMap) ==>
        var steps := old(prefabMap)[prefabType];
        var n := ResolvedPrefix(steps, components.componentMap);
        && r == (if n == |steps| then Ok(entityMap[eid]) else Err(UnknownComponent))
        && Walked(entityMap[eid], steps, n, components.componentMap, overrides, eid,
                  old(world.store.members), old(world.store.fields), old(world.proxyPool))
        && world.proxyPool == old(world.proxyPool)[..PoolLeft(|old(world.proxyPool)|, n)]
    {
      var entity := Create(eid);
      if prefabType !in prefabMap {
        return Err(PrefabNotFound);
      }
      var prefab := prefabMap[prefabType];
      WalkStart(prefab, components.componentMap, overrides, eid, world.store.fields);
      assert world.proxyPool == world.proxyPool[..|world.proxyPool|];
      var outcome, _ := Walk(entity, prefab, overrides, eid);
      if outcome.Fail? {
        return Err(UnknownComponent);
      }
      return Ok(entity);
    }
  }

  /**
   * The walk after `i` steps, on values: the entity's tables hold exactly the
   * keys and stores of the first `i` steps, each key under its step's store;
   * their memberships are marked and their data written; and the pool is the
   * initial pool less one proxy from its end for each step, until it runs out.
   */
  ghost predicate Walking(t: Tables, members: set<(StoreId, Eid)>, fields: map<Cell, int>, pool: seq<ComponentProxy>,
                          prefab: Prefab, i: nat, registry: Registry, overrides: Overrides, eid: Eid,
                          members0: set<(StoreId, Eid)>, fields0: map<Cell, int>, pool0: seq<ComponentProxy>)
  {
    && HoldsSteps(t, prefab, i, registry)
    && members == members0 + MembersOf(prefab[..i], registry, eid)
    && fields == PrefabFields(fields0, prefab[..i], registry, overrides, eid)
    && PoolTaken(t, pool, pool0, i)
  }

  /** The number of pooled proxies left after `steps` steps, each taking one while any remain. */
  function PoolLeft(size: nat, steps: nat): nat
  {
    if steps <= size then size - steps else 0
  }

  /** The tables hold exactly the keys and stores of the first `i` steps, each key under its step's store. */
  ghost predicate HoldsSteps(t: Tables, prefab: Prefab, i: nat, registry: Registry)
  {
    && i <= |prefab| && AllResolve(prefab[..i], registry)
    && t.components.Keys == KeysOf(prefab[..i])
    && t.storeKeys.Keys == StoresOf(prefab[..i], registry)
    && (forall j :: 0 <= j < i ==>
          KeyOf(prefab[j]) in t.components && t.components[KeyOf(prefab[j])].store == StoreOf(prefab[j], registry))
  }

  /**
   * The pool is the initial pool less one proxy from its end for each of the
   * `i` steps while any remain, without repeats and without any proxy the
   * tables hold.
   */
  ghost predicate PoolTaken(t: Tables, pool: seq<ComponentProxy>, pool0: seq<ComponentProxy>, i: nat)
  {
    && |pool| == PoolLeft(|pool0|, i) && pool == pool0[..|pool|]
    && Distinct(pool)
    && (forall p :: p in t.proxyKeys ==> p !in pool)
  }

  /**
   * Attaching step i under its key with a proxy popped from the pool (or a
   * new one when the pool is empty), marking its membership and writing its
   * merged data, extends the walk by that step.
   */
  lemma {:induction false} WalkStep(t: Tables, t': Tables, members: set<(StoreId, Eid)>, members': set<(StoreId, Eid)>,
                 fields: map<Cell, int>, fields': map<Cell, int>,
                 pool: seq<ComponentProxy>, pool': seq<ComponentProxy>, proxy: ComponentProxy,
                 prefab: Prefab, i: nat, cls: ProxyClass, registry: Registry, overrides: Overrides, eid: Eid,
                 members0: set<(StoreId, Eid)>, fields0: map<Cell, int>, pool0: seq<ComponentProxy>)
    requires Walking(t, members, fields, pool, prefab, i, registry, overrides, eid, members0, fields0, pool0)
    requires i < |prefab| && AppliedFit(prefab, registry) && ResolveStep(prefab[i], registry) == Some(cls)
    requires t' == Attach(t, KeyOf(prefab[i]), cls.store, proxy)
    requires members' == members + {(cls.store, eid)}
    requires fields' == WriteRecord(fields, cls.store, eid, StepData(prefab[i], overrides))
    requires pool != [] ==> proxy == pool[|pool| - 1] && pool' == pool[..|pool| - 1]
    requires pool == [] ==> pool' == []
    ensures Walking(t', members', fields', pool', prefab, i + 1, registry, overrides, eid, members0, fields0, pool0)
  {
    StepTables(t, t', proxy, prefab, i, cls, registry);
    StepExtends(prefab, registry, overrides, eid, fields0, i);
    StepPool(t, t', pool, pool', proxy, pool0, i, KeyOf(prefab[i]), cls.store);
  }

  /** The tables after attaching step i hold the keys and stores of the first i + 1 steps. */
  lemma {:induction false} StepTables(t: Tables, t': Tables, proxy: ComponentProxy, prefab: Prefab, i: nat, cls: ProxyClass, registry: Registry)
    requires HoldsSteps(t, prefab, i, registry) && i < |prefab|
    requires AppliedFit(prefab, registry) && ResolveStep(prefab[i], registry) == Some(cls)
    requires t' == Attach(t, KeyOf(prefab[i]), cls.store, proxy)
    ensures HoldsSteps(t', prefab, i + 1, registry)
  {
    StepIsNew(prefab, registry, i);
    StepGrows(prefab, registry, i);
  }

  /**
   * Popping the attached proxy off the end of the pool (or taking a new one
   * from an empty pool) keeps the pool the initial one less one proxy per
   * step, without repeats and without any proxy the entity holds.
   */
  lemma {:induction false} StepPool(t: Tables, t': Tables, pool: seq<ComponentProxy>, pool': seq<ComponentProxy>, proxy: ComponentProxy,
                 pool0: seq<ComponentProxy>, i: nat, key: string, store: StoreId)
    requires PoolTaken(t, pool, pool0, i)
    requires t' == Attach(t, key, store, proxy)
    requires pool != [] ==> proxy == pool[|pool| - 1] && pool' == pool[..|pool| - 1]
    requires pool == [] ==> pool' == []
    ensures PoolTaken(t', pool', pool0, i + 1)
  {
    if pool != [] {
      assert pool' == pool0[..|pool'|];
      assert forall j | 0 <= j < |pool'| :: pool'[j] == pool[j];
    }
  }

  /** The proxy a pop would take from a prefix of a pool is one of that pool's proxies. */
  lemma TopWithin(pool: seq<ComponentProxy>, pool0: seq<ComponentProxy>)
    requires |pool| <= |pool0| && pool == pool0[..|pool|]
    ensures forall p :: p in Top(pool) ==> p in pool0
  {
    if pool != [] {
      assert pool[|pool| - 1] == pool0[|pool| - 1];
    }
  }

  /** Before the walk nothing is attached and nothing is written. */
  lemma {:induction false} WalkStart(prefab: Prefab, registry: Registry, overrides: Overrides, eid: Eid, fields: map<Cell, int>)
    ensures AllResolve(prefab[..0], registry)
    ensures KeysOf(prefab[..0]) == {} && StoresOf(prefab[..0], registry) == {}
    ensures MembersOf(prefab[..0], registry, eid) == {}
    ensures PrefabFields(fields, prefab[..0], registry, overrides, eid) == fields
  {
    assert prefab[..0] == [];
  }

  /** A resolving step's key and store are not among those of the steps before it. */
  lemma {:induction false} StepIsNew(prefab: Prefab, registry: Registry, i: nat)
    requires i < |prefab| && AllResolve(prefab[..i], registry) && ResolveStep(prefab[i], registry).Some?
    requires AppliedFit(prefab, registry)
    ensures AllResolve(prefab[..i + 1], registry)
    ensures KeyOf(prefab[i]) !in KeysOf(prefab[..i])
    ensures StoreOf(prefab[i], registry) !in StoresOf(prefab[..i], registry)
  {
    assert forall j | 0 <= j < i :: prefab[..i][j] == prefab[j];
    assert forall j | 0 <= j <= i :: prefab[..i + 1][j] == prefab[j];
    ResolvedPrefixCovers(prefab, registry, i + 1);
    var applied := prefab[..ResolvedPrefix(prefab, registry)];
    assert forall j | 0 <= j <= i :: applied[j] == prefab[j];
  }

  /** The keys and stores of the walk grow by exactly step i. */
  lemma {:induction false} StepGrows(prefab: Prefab, registry: Registry, i: nat)
    requires i < |prefab| && AllResolve(prefab[..i + 1], registry)
    ensures AllResolve(prefab[..i], registry)
    ensures KeysOf(prefab[..i + 1]) == KeysOf(prefab[..i]) + {KeyOf(prefab[i])}
    ensures StoresOf(prefab[..i + 1], registry) == StoresOf(prefab[..i], registry) + {StoreOf(prefab[i], registry)}
  {
    var a, b := prefab[..i + 1], prefab[..i];
    assert a[..i] == b && a[i] == prefab[i];
    AllResolveSlice(a, registry, i);
    assert forall j | 0 <= j < i :: a[j] == b[j];
  }

  /** The memberships and the field table of the walk grow by exactly step i. */
  lemma {:induction false} StepExtends(prefab: Prefab, registry: Registry, overrides: Overrides, eid: Eid, fields: map<Cell, int>, i: nat)
    requires i < |prefab| && AllResolve(prefab[..i + 1], registry)
    ensures AllResolve(prefab[..i], registry)
    ensures MembersOf(prefab[..i + 1], registry, eid) == MembersOf(prefab[..i], registry, eid) + {(StoreOf(prefab[i], registry), eid)}
    ensures PrefabFields(fields, prefab[..i + 1], registry, overrides, eid) ==
      WriteRecord(PrefabFields(fields, prefab[..i], registry, overrides, eid), StoreOf(prefab[i], registry), eid, StepData(prefab[i], overrides))
  {
    StepGrows(prefab, registry, i);
    var a, b := prefab[..i + 1], prefab[..i];
    assert a[..i] == b && a[i] == prefab[i];
  }
}
