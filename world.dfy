/**
 * The world: the bitecs world together with a single pool of retired
 * proxies, shared by every component type and used last-in first-out.
 */
module Worlds {
  import opened Wrappers
  import opened BitEcs
  import opened ComponentProxies

  class World {
    const store: BitWorld
    var proxyPool: seq<ComponentProxy>

    constructor ()
      ensures fresh(store) && proxyPool == []
      ensures store.live == {} && store.members == {} && store.fields == map[]
    {
      store := new BitWorld();
      proxyPool := [];
    }

    /**
     * Pops the last retired proxy and binds it to `entity`, leaving its store
     * as it was; with an empty pool builds a new proxy over `component`.
     */
    method CreateComponentProxy(component: StoreId, entity: Eid, name: string) returns (proxy: ComponentProxy)
      modifies this, store, Top(proxyPool)
      ensures proxy.entity == Some(entity)
      ensures old(proxyPool) != [] ==>
        && proxy == old(proxyPool[|proxyPool| - 1])
        && proxyPool == old(proxyPool[..|proxyPool| - 1])
        && store.members == old(store.members)
      ensures old(proxyPool) == [] ==>
        && fresh(proxy)
        && proxy.world == store && proxy.store == component && proxy.name == name
        && proxyPool == []
        && store.members == old(store.members) + {(component, entity)}
      ensures store.live == old(store.live) && store.fields == old(store.fields)
    {
      if |proxyPool| > 0 {
        proxy := proxyPool[|proxyPool| - 1];
        proxyPool := proxyPool[..|proxyPool| - 1];
        proxy.entity := Some(entity);
        return;
      }
      proxy := new ComponentProxy(store, component, entity, name);
    }

    /** Pushes the proxy onto the pool and does nothing else. */
    method RetireProxy(proxy: ComponentProxy)
      modifies this
      ensures proxyPool == old(proxyPool) + [proxy]
    {
      proxyPool := proxyPool + [proxy];
    }
  }

  /**
   * Retiring a proxy and then asking for one hands the same proxy back,
   * rebound, whatever component type either call concerns, and leaves the pool
   * as it was.
   */
  method RetireThenCreate(w: World, p: ComponentProxy, other: StoreId, e: Eid, name: string)
    returns (q: ComponentProxy)
    modifies w, w.store, w.proxyPool, p
    ensures q == p && p.entity == Some(e)
    ensures w.proxyPool == old(w.proxyPool)
    ensures w.store.members == old(w.store.members)
  {
    w.RetireProxy(p);
    q := w.CreateComponentProxy(other, e, name);
  }
}
