/**
 * Prefabs as values: a template is a sequence of steps, each naming a
 * component (by registry key or by proxy class) with optional default data.
 * The functions here say what instantiating a template writes.
 */
module Prefabs {
  import opened Wrappers
  import opened BitEcs
  import opened ComponentProxies

  datatype ComponentSpec = ByKey(key: string) | ByClass(cls: ProxyClass)

  datatype PrefabComponent = PrefabComponent(component: ComponentSpec, data: Option<Record>)

  type Prefab = seq<PrefabComponent>

  /** Per component key, the data that overrides the template's defaults. */
  type Overrides = map<string, Record>

  /** The component registry's classes by key. */
  type Registry = map<string, ProxyClass>

  /** The key a step attaches its component under. */
  function KeyOf(step: PrefabComponent): string
  {
    match step.component
    case ByKey(k) => k
    case ByClass(cls) => cls.key
  }

  /** The class a step instantiates: a key is looked up in the registry, a class is taken as it is. */
  function ResolveStep(step: PrefabComponent, registry: Registry): (r: Option<ProxyClass>)
    ensures step.component.ByClass? ==> r == Some(step.component.cls)
    ensures step.component.ByKey? ==> (r.Some? <==> step.component.key in registry)
  {
    match step.component
    case ByKey(k) => if k in registry then Some(registry[k]) else None
    case ByClass(cls) => Some(cls)
  }

  predicate AllResolve(prefab: Prefab, registry: Registry)
  {
    forall i :: 0 <= i < |prefab| ==> ResolveStep(prefab[i], registry).Some?
  }

  /** The store of a step's resolved class. */
  function StoreOf(step: PrefabComponent, registry: Registry): StoreId
    requires ResolveStep(step, registry).Some?
  {
    ResolveStep(step, registry).value.store
  }

  /** The override for a key, or no data. */
  function OverrideFor(overrides: Overrides, key: string): Record
  {
    if key in overrides then overrides[key] else []
  }

  /** The step's default data (none when absent) merged with its override. */
  function StepData(step: PrefabComponent, overrides: Overrides): Record
  {
    Merge(if step.data.Some? then step.data.value else [], OverrideFor(overrides, KeyOf(step)))
  }

  /**
   * How many leading steps resolve: the walk attaches exactly these before it
   * stops at the first step that does not.
   */
  function ResolvedPrefix(prefab: Prefab, registry: Registry): (n: nat)
    ensures n <= |prefab| && AllResolve(prefab[..n], registry)
    ensures n < |prefab| ==> ResolveStep(prefab[n], registry).None?
  {
    if prefab == [] || ResolveStep(prefab[0], registry).None? then 0
    else
      var m := ResolvedPrefix(prefab[1..], registry);
      assert forall i | 0 <= i < m :: prefab[1..][..m][i] == prefab[..m + 1][i + 1];
      m + 1
  }

  /** The walk stops at the first step that does not resolve, and nowhere else. */
  lemma ResolvedPrefixAt(prefab: Prefab, registry: Registry, i: nat)
    requires i <= |prefab| && AllResolve(prefab[..i], registry)
    requires i < |prefab| ==> ResolveStep(prefab[i], registry).None?
    ensures ResolvedPrefix(prefab, registry) == i
  {
  }

  lemma AllResolveSlice(prefab: Prefab, registry: Registry, n: nat)
    requires AllResolve(prefab, registry) && n <= |prefab|
    ensures AllResolve(prefab[..n], registry)
  {
    assert forall i | 0 <= i < n :: prefab[..n][i] == prefab[i];
  }

  /** Distinct resolved steps attach under distinct keys and to distinct stores. */
  predicate Fits(prefab: Prefab, registry: Registry)
  {
    forall i, j :: 0 <= i < j < |prefab| && ResolveStep(prefab[i], registry).Some? && ResolveStep(prefab[j], registry).Some? ==>
      KeyOf(prefab[i]) != KeyOf(prefab[j]) && StoreOf(prefab[i], registry) != StoreOf(prefab[j], registry)
  }

  /** When the first `m` steps all resolve, the walk applies at least `m` steps. */
  lemma {:induction false} ResolvedPrefixCovers(prefab: Prefab, registry: Registry, m: nat)
    requires m <= |prefab| && AllResolve(prefab[..m], registry)
    ensures m <= ResolvedPrefix(prefab, registry)
    decreases m
  {
    if m > 0 {
      var head, rest := prefab[..m], prefab[1..][..m - 1];
      assert head[0] == prefab[0];
      assert forall k | 0 <= k < m - 1 :: rest[k] == head[k + 1];
      ResolvedPrefixCovers(prefab[1..], registry, m - 1);
    }
  }

  /**
   * The steps the walk applies (the resolving ones before the first that
   * does not) use distinct keys and distinct stores; steps after the walk
   * stops are unconstrained.
   */
  predicate AppliedFit(prefab: Prefab, registry: Registry)
  {
    Fits(prefab[..ResolvedPrefix(prefab, registry)], registry)
  }

  /**
   * A template that repeats a class after a step that does not resolve is
   * admitted: the walk stops before the repeat.
   */
  lemma RepeatAfterStopFits(cls: ProxyClass)
    ensures var prefab := [PrefabComponent(ByClass(cls), None), PrefabComponent(ByKey("missing"), None), PrefabComponent(ByClass(cls), None)];
      && ResolvedPrefix(prefab, map[]) == 1
      && AppliedFit(prefab, map[])
      && !Fits(prefab, map[])
  {
    var prefab := [PrefabComponent(ByClass(cls), None), PrefabComponent(ByKey("missing"), None), PrefabComponent(ByClass(cls), None)];
    assert prefab[..1] == [prefab[0]];
    ResolvedPrefixAt(prefab, map[], 1);
    assert StoreOf(prefab[0], map[]) == StoreOf(prefab[2], map[]);
  }

  /** Every record the walk reads names each field once, as an object literal does. */
  predicate WellFormedData(prefab: Prefab, overrides: Overrides)
  {
    && (forall i :: 0 <= i < |prefab| && prefab[i].data.Some? ==> DistinctKeys(prefab[i].data.value))
    && (forall k :: k in overrides ==> DistinctKeys(overrides[k]))
  }

  function KeysOf(prefab: Prefab): set<string>
  {
    set i | 0 <= i < |prefab| :: KeyOf(prefab[i])
  }

  function StoresOf(prefab: Prefab, registry: Registry): set<StoreId>
    requires AllResolve(prefab, registry)
  {
    set i | 0 <= i < |prefab| :: StoreOf(prefab[i], registry)
  }

  /** The membership pairs the steps' stores give the entity. */
  function MembersOf(prefab: Prefab, registry: Registry, eid: Eid): set<(StoreId, Eid)>
    requires AllResolve(prefab, registry)
  {
    set s | s in StoresOf(prefab, registry) :: (s, eid)
  }

  /** The field table after the walk writes each step's merged data, step by step in template order. */
  function PrefabFields(fields: map<Cell, int>, prefab: Prefab, registry: Registry, overrides: Overrides, eid: Eid): map<Cell, int>
    requires AllResolve(prefab, registry)
  {
    if prefab == [] then fields
    else
      var last := prefab[|prefab| - 1];
      AllResolveSlice(prefab, registry, |prefab| - 1);
      WriteRecord(PrefabFields(fields, prefab[..|prefab| - 1], registry, overrides, eid),
                  StoreOf(last, registry), eid, StepData(last, overrides))
  }

  lemma StepDataDistinct(step: PrefabComponent, overrides: Overrides, f: string)
    requires step.data.Some? ==> DistinctKeys(step.data.value)
    requires forall k :: k in overrides ==> DistinctKeys(overrides[k])
    ensures DistinctKeys(StepData(step, overrides))
    ensures Get(StepData(step, overrides), f) ==
      if f in Keys(OverrideFor(overrides, KeyOf(step))) then Get(OverrideFor(overrides, KeyOf(step)), f)
      else if step.data.Some? then Get(step.data.value, f) else None
  {
    MergeFields(if step.data.Some? then step.data.value else [], OverrideFor(overrides, KeyOf(step)), f);
  }

  /**
   * After the walk, the row of step i's store for the new entity holds, for
   * every field of the merged data, the merged value; fields outside the
   * merged data keep what they had.
   */
  lemma {:induction false} PrefabFieldsAt(fields: map<Cell, int>, prefab: Prefab, registry: Registry, overrides: Overrides, eid: Eid, i: nat, f: string)
    requires AllResolve(prefab, registry) && Fits(prefab, registry) && WellFormedData(prefab, overrides)
    requires i < |prefab|
    ensures var c := Cell(StoreOf(prefab[i], registry), f, eid);
      CellAt(PrefabFields(fields, prefab, registry, overrides, eid), c) ==
        if f in Keys(StepData(prefab[i], overrides)) then Get(StepData(prefab[i], overrides), f) else CellAt(fields, c)
    decreases |prefab|
  {
    var init := prefab[..|prefab| - 1];
    var last := prefab[|prefab| - 1];
    var c := Cell(StoreOf(prefab[i], registry), f, eid);
    AllResolveSlice(prefab, registry, |prefab| - 1);
    StepDataDistinct(last, overrides, f);
    WriteRecordCells(PrefabFields(fields, init, registry, overrides, eid), StoreOf(last, registry), eid, StepData(last, overrides), c);
    if i < |prefab| - 1 {
      assert init[i] == prefab[i];
      InitFits(prefab, registry, overrides);
      PrefabFieldsAt(fields, init, registry, overrides, eid, i, f);
    } else {
      assert c.store !in StoresOf(init, registry) by {
        forall j | 0 <= j < |init| ensures StoreOf(init[j], registry) != c.store {
          assert init[j] == prefab[j];
        }
      }
      PrefabFieldsElsewhere(fields, init, registry, overrides, eid, c);
    }
  }

  /** Dropping the last step keeps a template resolving, fitting and well formed. */
  lemma InitFits(prefab: Prefab, registry: Registry, overrides: Overrides)
    requires prefab != [] && AllResolve(prefab, registry) && Fits(prefab, registry) && WellFormedData(prefab, overrides)
    ensures Fits(prefab[..|prefab| - 1], registry) && WellFormedData(prefab[..|prefab| - 1], overrides)
  {
    var init := prefab[..|prefab| - 1];
    assert forall a | 0 <= a < |init| :: init[a] == prefab[a];
  }

  /** Cells outside the rows the walk writes keep their values. */
  lemma {:induction false} PrefabFieldsElsewhere(fields: map<Cell, int>, prefab: Prefab, registry: Registry, overrides: Overrides, eid: Eid, c: Cell)
    requires AllResolve(prefab, registry) && WellFormedData(prefab, overrides)
    requires c.eid != eid || c.store !in StoresOf(prefab, registry)
    ensures CellAt(PrefabFields(fields, prefab, registry, overrides, eid), c) == CellAt(fields, c)
    decreases |prefab|
  {
    if prefab != [] {
      var init := prefab[..|prefab| - 1];
      var last := prefab[|prefab| - 1];
      AllResolveSlice(prefab, registry, |prefab| - 1);
      StepDataDistinct(last, overrides, c.field);
      WriteRecordCells(PrefabFields(fields, init, registry, overrides, eid), StoreOf(last, registry), eid, StepData(last, overrides), c);
      assert WellFormedData(init, overrides) by {
        forall a | 0 <= a < |init| ensures init[a] == prefab[a] { }
      }
      assert c.eid != eid || c.store !in StoresOf(init, registry) by {
        if c.eid == eid {
          forall j | 0 <= j < |init| ensures StoreOf(init[j], registry) != c.store {
            assert init[j] == prefab[j];
          }
        }
      }
      PrefabFieldsElsewhere(fields, init, registry, overrides, eid, c);
    }
  }

  /**
   * Override precedence after the walk: a field the override for step i's key
   * names holds the override's value, otherwise a field of the default data
   * holds the default.
   */
  lemma OverridesWin(fields: map<Cell, int>, prefab: Prefab, registry: Registry, overrides: Overrides, eid: Eid, i: nat, f: string)
    requires AllResolve(prefab, registry) && Fits(prefab, registry) && WellFormedData(prefab, overrides)
    requires i < |prefab|
    ensures var c := Cell(StoreOf(prefab[i], registry), f, eid);
      var o := OverrideFor(overrides, KeyOf(prefab[i]));
      CellAt(PrefabFields(fields, prefab, registry, overrides, eid), c) ==
        if f in Keys(o) then Get(o, f)
        else if prefab[i].data.Some? && f in Keys(prefab[i].data.value) then Get(prefab[i].data.value, f)
        else CellAt(fields, c)
  {
    var step := prefab[i];
    StepDataDistinct(step, overrides, f);
    MergeFields(if step.data.Some? then step.data.value else [], OverrideFor(overrides, KeyOf(step)), f);
    PrefabFieldsAt(fields, prefab, registry, overrides, eid, i, f);
  }

  /**
   * The template of the entity-manager tests: one step naming the registered
   * key "position" with default data x = 100, y = 100 and no override writes
   * 100 into both fields of the new entity's row of the position store.
   */
  lemma TemplateDataWritten(fields: map<Cell, int>, cls: ProxyClass, eid: Eid)
    ensures var prefab := [PrefabComponent(ByKey("position"), Some([("x", 100), ("y", 100)]))];
      var registry := map["position" := cls];
      && CellAt(PrefabFields(fields, prefab, registry, map[], eid), Cell(cls.store, "x", eid)) == Some(100)
      && CellAt(PrefabFields(fields, prefab, registry, map[], eid), Cell(cls.store, "y", eid)) == Some(100)
  {
    var prefab := [PrefabComponent(ByKey("position"), Some([("x", 100), ("y", 100)]))];
    var registry := map["position" := cls];
    OverridesWin(fields, prefab, registry, map[], eid, 0, "x");
    OverridesWin(fields, prefab, registry, map[], eid, 0, "y");
  }
}
