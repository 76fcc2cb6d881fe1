/**
 * The three maps an entity keeps, as a value: key -> (store, proxy),
 * store -> key and proxy -> key, with the operations of entity.ts on them
 * and the bijection they keep.
 */
module EntityTables {
  import opened Wrappers
  import opened BitEcs
  import opened ComponentProxies

  datatype Storage = Storage(store: StoreId, proxy: ComponentProxy)

  datatype Tables = Tables(
    components: map<string, Storage>,
    storeKeys: map<StoreId, string>,
    proxyKeys: map<ComponentProxy, string>)

  /** What `removeComponent` is handed: a raw store or one of the entity's proxies. */
  datatype ComponentRef = ByStore(store: StoreId) | ByProxy(proxy: ComponentProxy)

  const Empty := Tables(map[], map[], map[])

  /** Every key's store and proxy map back to that key, and every reverse entry names a key that does. */
  ghost predicate Consistent(t: Tables)
  {
    && (forall k :: k in t.components ==>
          && t.components[k].store in t.storeKeys && t.storeKeys[t.components[k].store] == k
          && t.components[k].proxy in t.proxyKeys && t.proxyKeys[t.components[k].proxy] == k)
    && (forall s :: s in t.storeKeys ==>
          t.storeKeys[s] in t.components && t.components[t.storeKeys[s]].store == s)
    && (forall p :: p in t.proxyKeys ==>
          t.proxyKeys[p] in t.components && t.components[t.proxyKeys[p]].proxy == p)
  }

  /** The three writes of `addComponent`. */
  function Attach(t: Tables, key: string, store: StoreId, proxy: ComponentProxy): Tables
  {
    Tables(t.components[key := Storage(store, proxy)], t.storeKeys[store := key], t.proxyKeys[proxy := key])
  }

  /** The key `removeComponent` resolves for a store or a proxy. */
  function Resolve(t: Tables, c: ComponentRef): Option<string>
  {
    match c
    case ByStore(s) => if s in t.storeKeys then Some(t.storeKeys[s]) else None
    case ByProxy(p) => if p in t.proxyKeys then Some(t.proxyKeys[p]) else None
  }

  /** The three deletes of `removeComponent` once the key is resolved. */
  function Detach(t: Tables, key: string): Tables
    requires key in t.components
  {
    Tables(t.components - {key}, t.storeKeys - {t.components[key].store}, t.proxyKeys - {t.components[key].proxy})
  }

  /** `getComponent`: the proxy recorded for the key, or ComponentNotFound. */
  function Lookup(t: Tables, key: string): (r: Result<ComponentProxy>)
    requires Consistent(t)
    ensures r.Ok? <==> key in t.components
    ensures r.Err? ==> r.error == ComponentNotFound
    ensures r.Ok? ==> Resolve(t, ByProxy(r.value)) == Some(key)
  {
    if key in t.components then Ok(t.components[key].proxy) else Err(ComponentNotFound)
  }

  lemma EmptyConsistent()
    ensures Consistent(Empty)
    ensures forall key :: Lookup(Empty, key) == Err(ComponentNotFound)
  {
  }

  /**
   * Adding a key, store and proxy that are all new keeps the bijection; the
   * key then looks up to the proxy and both the store and the proxy resolve to it.
   */
  lemma AttachConsistent(t: Tables, key: string, store: StoreId, proxy: ComponentProxy)
    requires Consistent(t)
    requires key !in t.components && store !in t.storeKeys && proxy !in t.proxyKeys
    ensures Consistent(Attach(t, key, store, proxy))
    ensures Lookup(Attach(t, key, store, proxy), key) == Ok(proxy)
    ensures Resolve(Attach(t, key, store, proxy), ByStore(store)) == Some(key)
    ensures Resolve(Attach(t, key, store, proxy), ByProxy(proxy)) == Some(key)
    ensures forall k :: k != key ==> Lookup(Attach(t, key, store, proxy), k) == Lookup(t, k)
  {
  }

  /** The store and the proxy of an attached key both resolve to that key. */
  lemma ResolveAgrees(t: Tables, key: string)
    requires Consistent(t) && key in t.components
    ensures Resolve(t, ByStore(t.components[key].store)) == Some(key)
    ensures Resolve(t, ByProxy(t.components[key].proxy)) == Some(key)
  {
  }

  /** A store or proxy resolves to a key exactly when some attached key holds it. */
  lemma ResolveHeld(t: Tables, c: ComponentRef)
    requires Consistent(t)
    ensures Resolve(t, c).Some? ==> Resolve(t, c).value in t.components
    ensures Resolve(t, c).Some? <==>
      exists k :: k in t.components && (if c.ByStore? then t.components[k].store == c.store else t.components[k].proxy == c.proxy)
  {
    if Resolve(t, c).Some? {
      var k := Resolve(t, c).value;
      assert k in t.components;
    }
  }

  /** Removing a held key keeps the bijection and the key no longer looks up. */
  lemma DetachConsistent(t: Tables, key: string)
    requires Consistent(t) && key in t.components
    ensures Consistent(Detach(t, key))
    ensures Lookup(Detach(t, key), key) == Err(ComponentNotFound)
    ensures forall k :: k != key ==> Lookup(Detach(t, key), k) == Lookup(t, k)
    ensures Resolve(Detach(t, key), ByStore(t.components[key].store)) == None
    ensures Resolve(Detach(t, key), ByProxy(t.components[key].proxy)) == None
  {
  }

  /** Removing by a held store drops exactly that store and its proxy from the reverse maps. */
  lemma DetachByStore(t: Tables, store: StoreId)
    requires Consistent(t) && store in t.storeKeys
    ensures Resolve(t, ByStore(store)) == Some(t.storeKeys[store])
    ensures t.storeKeys[store] in t.components && t.components[t.storeKeys[store]].store == store
    ensures var d := Detach(t, t.storeKeys[store]);
      && Consistent(d)
      && d.storeKeys.Keys == t.storeKeys.Keys - {store}
      && d.proxyKeys.Keys == t.proxyKeys.Keys - {t.components[t.storeKeys[store]].proxy}
      && t.components[t.storeKeys[store]].proxy in t.proxyKeys
  {
    DetachConsistent(t, t.storeKeys[store]);
  }

  /** The bijection makes the three maps the same size (what the entity tests count). */
  lemma {:induction false} ConsistentSizes(t: Tables)
    requires Consistent(t)
    ensures |t.components| == |t.storeKeys| == |t.proxyKeys|
    decreases |t.components|
  {
    if t.components == map[] {
      assert t.storeKeys == map[] && t.proxyKeys == map[];
    } else {
      var key :| key in t.components;
      var st := t.components[key];
      DetachConsistent(t, key);
      var d := Detach(t, key);
      assert d.components.Keys == t.components.Keys - {key};
      assert d.storeKeys.Keys == t.storeKeys.Keys - {st.store};
      assert d.proxyKeys.Keys == t.proxyKeys.Keys - {st.proxy};
      ConsistentSizes(d);
    }
  }

  /**
   * Adding a fresh component and removing it again, whether by its store or
   * by its proxy, gives back exactly the tables before.
   */
  lemma AttachDetachRoundTrip(t: Tables, key: string, store: StoreId, proxy: ComponentProxy, c: ComponentRef)
    requires Consistent(t)
    requires key !in t.components && store !in t.storeKeys && proxy !in t.proxyKeys
    requires c == ByStore(store) || c == ByProxy(proxy)
    ensures Resolve(Attach(t, key, store, proxy), c) == Some(key)
    ensures Detach(Attach(t, key, store, proxy), key) == t
  {
    var a := Attach(t, key, store, proxy);
    assert a.components - {key} == t.components;
    assert a.storeKeys - {store} == t.storeKeys;
    assert a.proxyKeys - {proxy} == t.proxyKeys;
  }

  /** From no components, one add and its remove leave all three maps empty. */
  lemma AddThenRemoveEmpties(key: string, store: StoreId, proxy: ComponentProxy)
    ensures Detach(Attach(Empty, key, store, proxy), key) == Empty
    ensures Lookup(Detach(Attach(Empty, key, store, proxy), key), key) == Err(ComponentNotFound)
  {
    AttachDetachRoundTrip(Empty, key, store, proxy, ByStore(store));
  }

  /** The properties every object inherits from `Object.prototype`. */
  const InheritedNames: set<string> := {
    "constructor", "hasOwnProperty", "isPrototypeOf", "propertyIsEnumerable",
    "toLocaleString", "toString", "valueOf", "__proto__",
    "__defineGetter__", "__defineSetter__", "__lookupGetter__", "__lookupSetter__"}

  /**
   * The names under which the {store, proxy} record holds an object: its own
   * two properties and the inherited ones. Any other name reads `undefined`.
   */
  predicate Indexable(k: string)
  {
    k == "store" || k == "proxy" || k in InheritedNames
  }

  /**
   * The `setComponent` body as written: the loop writes
   * `Component[key][eid]` where `Component` is the {store, proxy} record, so
   * every data key the record does not hold an object under reads
   * `undefined` and the write throws; the field table is never written.
   */
  function SetComponentAsWritten(t: Tables, key: string, data: Record): (r: Outcome)
    ensures key !in t.components ==> r == Fail(ComponentNotFound)
    ensures key in t.components ==> (r == Pass <==> forall i :: 0 <= i < |data| ==> Indexable(data[i].0))
  {
    if key !in t.components then Fail(ComponentNotFound) else StorageWrites(data)
  }

  function StorageWrites(data: Record): (r: Outcome)
    ensures r == Pass <==> forall i :: 0 <= i < |data| ==> Indexable(data[i].0)
    ensures r != Pass ==> r == Fail(TypeError)
  {
    if data == [] then Pass
    else if Indexable(data[0].0) then
      var rest := StorageWrites(data[1..]);
      assert forall i :: 1 <= i < |data| ==> data[i] == data[1..][i - 1];
      rest
    else Fail(TypeError)
  }

  /**
   * Setting `x` on an attached component, as written, throws instead of
   * writing the field; an inherited name such as `constructor` does not throw
   * (and writes no field either).
   */
  lemma SetComponentAsWrittenThrows(t: Tables, key: string)
    requires key in t.components
    ensures SetComponentAsWritten(t, key, [("x", 10)]) == Fail(TypeError)
    ensures SetComponentAsWritten(t, key, [("constructor", 1)]) == Pass
  {
  }
}
