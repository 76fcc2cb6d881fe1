/**
 * A component proxy binds one component store to one entity. Building one
 * marks the (store, eid) membership in the bitecs world; `Attach` rebinds it;
 * `Destroy` clears the membership of the entity it is bound to.
 */
module ComponentProxies {
  import opened Wrappers
  import opened BitEcs

  /**
   * A registered proxy class (a subclass of ComponentProxy): its static `key`,
   * and the store and name that its constructor passes on to ComponentProxy.
   */
  datatype ProxyClass = ProxyClass(key: string, store: StoreId, name: string)

  class ComponentProxy {
    /** The bitecs world the proxy writes membership into (`this.world.store`). */
    const world: BitWorld
    const store: StoreId
    /** The eid of the entity the proxy is bound to; None when it has none. */
    var entity: Option<Eid>
    const name: string

    constructor (world: BitWorld, store: StoreId, entity: Eid, name: string)
      modifies world
      ensures this.world == world && this.store == store && this.name == name
      ensures this.entity == Some(entity)
      ensures world.members == old(world.members) + {(store, entity)}
      ensures world.live == old(world.live) && world.fields == old(world.fields)
    {
      this.world := world;
      this.store := store;
      this.entity := Some(entity);
      this.name := name;
      new;
      world.members := world.members + {(store, entity)};
    }

    /** Rebinds the proxy; store, name and membership stay as they are. */
    method Attach(entity: Eid)
      modifies this
      ensures this.entity == Some(entity)
    {
      this.entity := Some(entity);
    }

    /**
     * Clears the membership of the bound entity; a proxy with no entity
     * reports false and changes nothing. The binding itself is kept.
     */
    method Destroy() returns (destroyed: bool)
      modifies world
      ensures destroyed <==> entity.Some?
      ensures world.members ==
        if entity.Some? then old(world.members) - {(store, entity.value)} else old(world.members)
      ensures world.live == old(world.live) && world.fields == old(world.fields)
    {
      if entity.None? {
        return false;
      }
      world.members := world.members - {(store, entity.value)};
      return true;
    }
  }

  /** The proxy a pop would take from a pool, as a frame. */
  function Top(pool: seq<ComponentProxy>): set<ComponentProxy>
  {
    if pool == [] then {} else {pool[|pool| - 1]}
  }

  /** A pool in which no proxy is waiting twice. */
  predicate Distinct(pool: seq<ComponentProxy>)
  {
    forall i, j :: 0 <= i < j < |pool| ==> pool[i] != pool[j]
  }
}
