/**
 * The component registry: proxy classes by key, and for every key a pool of
 * retired proxies of that key, used last-in first-out.
 */
module ComponentManagers {
  import opened Wrappers
  import opened BitEcs
  import opened ComponentProxies
  import opened Worlds

  type Pools = map<string, seq<ComponentProxy>>

  /** The pool for a key; a key never retired into has an empty one. */
  function PoolOf(pools: Pools, key: string): seq<ComponentProxy>
  {
    if key in pools then pools[key] else []
  }

  /** The pools after pushing `proxy` onto the pool for `key`, creating it if absent. */
  function Pushed(pools: Pools, key: string, proxy: ComponentProxy): (r: Pools)
    ensures PoolOf(r, key) == PoolOf(pools, key) + [proxy]
    ensures forall k :: k != key ==> PoolOf(r, k) == PoolOf(pools, k)
    ensures r.Keys == pools.Keys + {key}
  {
    if key in pools then pools[key := pools[key] + [proxy]] else pools[key := [proxy]]
  }

  /** The pools after popping the last proxy of the pool for `key`. */
  function Popped(pools: Pools, key: string): (r: Pools)
    requires PoolOf(pools, key) != []
    ensures PoolOf(r, key) == PoolOf(pools, key)[..|PoolOf(pools, key)| - 1]
    ensures |PoolOf(r, key)| == |PoolOf(pools, key)| - 1
    ensures forall k :: k != key ==> PoolOf(r, k) == PoolOf(pools, k)
    ensures r.Keys == pools.Keys
  {
    pools[key := pools[key][..|pools[key]| - 1]]
  }

  /** A push followed by a pop on the same key restores every pool and yields the pushed proxy. */
  lemma PushPop(pools: Pools, key: string, proxy: ComponentProxy, k: string)
    ensures PoolOf(Pushed(pools, key, proxy), key) != []
    ensures PoolOf(Pushed(pools, key, proxy), key)[|PoolOf(pools, key)|] == proxy
    ensures PoolOf(Popped(Pushed(pools, key, proxy), key), k) == PoolOf(pools, k)
  {
    var pushed := Pushed(pools, key, proxy);
    if k == key {
      assert PoolOf(pushed, key)[..|PoolOf(pushed, key)| - 1] == PoolOf(pools, key);
    }
  }

  class ComponentManager {
    const world: World
    var proxyPool: Pools
    var componentMap: map<string, ProxyClass>

    /** Every class is registered under its own key. */
    ghost predicate Valid()
      reads this
    {
      forall k :: k in componentMap ==> componentMap[k].key == k
    }

    constructor (world: World)
      ensures this.world == world && proxyPool == map[] && componentMap == map[] && Valid()
    {
      this.world := world;
      proxyPool := map[];
      componentMap := map[];
    }

    /** Stores the class under its key, replacing any class registered there before. */
    method RegisterComponent(component: ProxyClass)
      requires Valid()
      modifies this
      ensures Valid()
      ensures componentMap == old(componentMap)[component.key := component]
      ensures proxyPool == old(proxyPool)
    {
      componentMap := componentMap[component.key := component];
    }

    /** The class registered under `name`, or nothing. */
    function GetComponent(name: string): (r: Option<ProxyClass>)
      requires Valid()
      reads this
      ensures r.Some? <==> name in componentMap
      ensures r.Some? ==> r.value.key == name && r.value == componentMap[name]
    {
      if name in componentMap then Some(componentMap[name]) else None
    }

    /**
     * Takes the last proxy retired under `key` and rebinds it to `entity`; with
     * no such proxy builds one from the class registered under `key`, failing
     * when there is none.
     */
    method CreateComponentProxy(key: string, entity: Eid) returns (r: Result<ComponentProxy>)
      requires Valid()
      modifies this, world.store, Top(PoolOf(proxyPool, key))
      ensures Valid() && componentMap == old(componentMap)
      ensures world.store.live == old(world.store.live) && world.store.fields == old(world.store.fields)
      ensures old(PoolOf(proxyPool, key)) != [] ==>
        && r == Ok(old(PoolOf(proxyPool, key))[|old(PoolOf(proxyPool, key))| - 1])
        && r.value.entity == Some(entity)
        && proxyPool == Popped(old(proxyPool), key)
        && world.store.members == old(world.store.members)
      ensures old(PoolOf(proxyPool, key)) == [] && key !in componentMap ==>
        && r == Err(UnknownComponent)
        && proxyPool == old(proxyPool)
        && world.store.members == old(world.store.members)
      ensures old(PoolOf(proxyPool, key)) == [] && key in componentMap ==>
        && r.Ok? && fresh(r.value)
        && r.value.world == world.store && r.value.entity == Some(entity)
        && r.value.store == componentMap[key].store && r.value.name == componentMap[key].name
        && proxyPool == old(proxyPool)
        && world.store.members == old(world.store.members) + {(componentMap[key].store, entity)}
    {
      if key in proxyPool && |proxyPool[key]| > 0 {
        var pool := proxyPool[key];
        var proxy := pool[|pool| - 1];
        proxyPool := proxyPool[key := pool[..|pool| - 1]];
        proxy.Attach(entity);
        return Ok(proxy);
      }
      var component := GetComponent(key);
      if component.None? {
        return Err(UnknownComponent);
      }
      var proxy := new ComponentProxy(world.store, component.value.store, entity, component.value.name);
      return Ok(proxy);
    }

    /**
     * Destroys the proxy (clearing its membership) and pushes it onto the pool
     * for its name.
     */
    method RetireProxy(proxy: ComponentProxy)
      requires Valid()
      modifies this, proxy.world
      ensures Valid() && componentMap == old(componentMap)
      ensures proxyPool == Pushed(old(proxyPool), proxy.name, proxy)
      ensures proxy.world.members ==
        if proxy.entity.Some? then old(proxy.world.members) - {(proxy.store, proxy.entity.value)}
        else old(proxy.world.members)
      ensures proxy.world.live == old(proxy.world.live) && proxy.world.fields == old(proxy.world.fields)
    {
      var _ := proxy.Destroy();
      if proxy.name in proxyPool {
        proxyPool := proxyPool[proxy.name := proxyPool[proxy.name] + [proxy]];
      } else {
        proxyPool := proxyPool[proxy.name := [proxy]];
      }
    }
  }

  /**
   * Retiring a proxy and creating one for the proxy's name gives back that
   * proxy, bound to the new entity, and every pool ends as it started.
   */
  method RetireThenCreate(cm: ComponentManager, p: ComponentProxy, e: Eid)
    returns (r: Result<ComponentProxy>)
    requires cm.Valid()
    modifies cm, p.world, cm.world.store, p
    ensures r == Ok(p) && p.entity == Some(e)
    ensures forall k :: PoolOf(cm.proxyPool, k) == PoolOf(old(cm.proxyPool), k)
  {
    cm.RetireProxy(p);
    PushPop(old(cm.proxyPool), p.name, p, p.name);
    r := cm.CreateComponentProxy(p.name, e);
    forall k ensures PoolOf(cm.proxyPool, k) == PoolOf(old(cm.proxyPool), k) {
      PushPop(old(cm.proxyPool), p.name, p, k);
    }
  }
}
