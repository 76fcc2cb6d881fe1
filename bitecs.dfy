/**
 * The bitecs world, seen only through the effects the bookkeeping layer has on it:
 * the set of live entity ids, the set of (store, eid) membership pairs that
 * `addComponent`/`removeComponent` toggle, and the field table
 * `store[field][eid]` that component data is written to.
 * JavaScript records (`Record<string, number>`) are modelled as their
 * `Object.entries`, and object spread / field writes as functions on them.
 */
module BitEcs {
  import opened Wrappers

  /** An entity id handed out by bitecs `addEntity`. */
  type Eid = nat

  /** The identity of a bitecs component store (the object `defineComponent` returns). */
  type StoreId = nat

  /** One cell of the structure-of-arrays: `store[field][eid]`. */
  datatype Cell = Cell(store: StoreId, field: string, eid: Eid)

  class BitWorld {
    var live: set<Eid>
    var members: set<(StoreId, Eid)>
    var fields: map<Cell, int>

    /** `createWorld()`: nothing live, nothing attached, nothing written. */
    constructor ()
      ensures live == {} && members == {} && fields == map[]
    {
      live, members, fields := {}, {}, map[];
    }

    /** `store[field][eid] = value` for every entry of the record, in entry order (see WriteRecordCells). */
    method WriteRow(store: StoreId, eid: Eid, data: Record)
      modifies this
      ensures fields == WriteRecord(old(fields), store, eid, data)
      ensures live == old(live) && members == old(members)
    {
      var i := 0;
      while i < |data|
        invariant 0 <= i <= |data|
        invariant fields == WriteRecord(old(fields), store, eid, data[..i])
        invariant live == old(live) && members == old(members)
      {
        var (field, value) := data[i];
        assert data[..i + 1][..i] == data[..i];
        fields := fields[Cell(store, field, eid) := value];
        i := i + 1;
      }
      assert data[..|data|] == data;
    }
  }

  /** The value of a cell, if it was ever written. */
  function CellAt(fields: map<Cell, int>, c: Cell): Option<int>
  {
    if c in fields then Some(fields[c]) else None
  }

  /** A record as its entries: (field name, value) pairs in property order. */
  type Record = seq<(string, int)>

  function Keys(r: Record): set<string>
  {
    if r == [] then {} else {r[0].0} + Keys(r[1..])
  }

  /** A record built from an object literal names each property once. */
  predicate DistinctKeys(r: Record)
  {
    r == [] || (r[0].0 !in Keys(r[1..]) && DistinctKeys(r[1..]))
  }

  /** Property lookup `r[k]`. */
  function Get(r: Record, k: string): (v: Option<int>)
    ensures v.Some? <==> k in Keys(r)
  {
    if r == [] then None else if r[0].0 == k then Some(r[0].1) else Get(r[1..], k)
  }

  /**
   * The property write `r[k] = v`: an existing property keeps its place and
   * takes the new value, a new one is appended. This is JavaScript's order for
   * string keys; integer-like keys such as "0" would be enumerated first, in
   * ascending order, which no field table this model computes depends on.
   */
  function Put(r: Record, k: string, v: int): (r': Record)
    ensures Keys(r') == Keys(r) + {k}
    ensures Get(r', k) == Some(v)
    ensures forall k' :: k' != k ==> Get(r', k') == Get(r, k')
    ensures DistinctKeys(r) ==> DistinctKeys(r')
  {
    if r == [] then [(k, v)]
    else if r[0].0 == k then [(k, v)] + r[1..]
    else [r[0]] + Put(r[1..], k, v)
  }

  /** `Object.assign(acc, src)`: write every property of `src`, in order, onto `acc`. */
  function Spread(acc: Record, src: Record): Record
    decreases |src|
  {
    if src == [] then acc else Spread(Put(acc, src[0].0, src[0].1), src[1..])
  }

  /** `{...base, ...override}`. */
  function Merge(base: Record, override: Record): Record
  {
    Spread(Spread([], base), override)
  }

  lemma {:induction false} SpreadKeys(acc: Record, src: Record)
    ensures Keys(Spread(acc, src)) == Keys(acc) + Keys(src)
    ensures DistinctKeys(acc) ==> DistinctKeys(Spread(acc, src))
    decreases |src|
  {
    if src != [] {
      SpreadKeys(Put(acc, src[0].0, src[0].1), src[1..]);
    }
  }

  /** The last write of a property wins; a record from an object literal has one write per property. */
  lemma {:induction false} SpreadGet(acc: Record, src: Record, k: string)
    requires DistinctKeys(src)
    ensures Get(Spread(acc, src), k) == if k in Keys(src) then Get(src, k) else Get(acc, k)
    decreases |src|
  {
    if src != [] {
      SpreadGet(Put(acc, src[0].0, src[0].1), src[1..], k);
    }
  }

  /**
   * Merging default data with overrides keeps every field of both, and where
   * both define a field the override's value is the one merged.
   */
  lemma MergeFields(base: Record, override: Record, k: string)
    requires DistinctKeys(base) && DistinctKeys(override)
    ensures Keys(Merge(base, override)) == Keys(base) + Keys(override)
    ensures DistinctKeys(Merge(base, override))
    ensures Get(Merge(base, override), k) ==
      if k in Keys(override) then Get(override, k) else Get(base, k)
  {
    SpreadKeys([], base);
    SpreadKeys(Spread([], base), override);
    SpreadGet([], base, k);
    SpreadGet(Spread([], base), override, k);
  }

  /** Spreading a record into an empty object copies it, property order included. */
  lemma {:induction false} SpreadCopies(acc: Record, src: Record)
    requires DistinctKeys(acc + src)
    ensures Spread(acc, src) == acc + src
    decreases |src|
  {
    if src != [] {
      DistinctAppend(acc, src);
      PutFresh(acc, src[0].0, src[0].1);
      assert acc + src == (acc + [src[0]]) + src[1..];
      SpreadCopies(acc + [src[0]], src[1..]);
    }
  }

  lemma {:induction false} KeysAppend(a: Record, b: Record)
    ensures Keys(a + b) == Keys(a) + Keys(b)
  {
    if a == [] {
      assert a + b == b;
    } else {
      assert (a + b)[1..] == a[1..] + b;
      KeysAppend(a[1..], b);
    }
  }

  lemma {:induction false} DistinctAppend(a: Record, b: Record)
    requires DistinctKeys(a + b)
    ensures DistinctKeys(a) && DistinctKeys(b) && Keys(a) !! Keys(b)
  {
    if a == [] {
      assert a + b == b;
    } else {
      assert (a + b)[1..] == a[1..] + b;
      KeysAppend(a[1..], b);
      DistinctAppend(a[1..], b);
    }
  }

  lemma {:induction false} PutFresh(r: Record, k: string, v: int)
    requires k !in Keys(r)
    ensures Put(r, k, v) == r + [(k, v)]
  {
    if r != [] {
      PutFresh(r[1..], k, v);
    }
  }

  /**
   * The field table after `store[k][eid] = v` for every entry of `rec` in
   * order (the write loops of entity.ts and entityManager.ts).
   */
  function WriteRecord(fields: map<Cell, int>, store: StoreId, eid: Eid, rec: Record): map<Cell, int>
  {
    if rec == [] then fields
    else WriteRecord(fields, store, eid, rec[..|rec| - 1])[Cell(store, rec[|rec| - 1].0, eid) := rec[|rec| - 1].1]
  }

  lemma {:induction false} KeysSnoc(r: Record)
    requires r != []
    ensures Keys(r) == Keys(r[..|r| - 1]) + {r[|r| - 1].0}
  {
    KeysAppend(r[..|r| - 1], [r[|r| - 1]]);
    assert r == r[..|r| - 1] + [r[|r| - 1]];
  }

  lemma {:induction false} GetSnoc(r: Record, k: string)
    requires r != [] && DistinctKeys(r)
    ensures Get(r, k) == if k == r[|r| - 1].0 then Some(r[|r| - 1].1) else Get(r[..|r| - 1], k)
  {
    if |r| > 1 {
      assert r[1..][..|r[1..]| - 1] == r[..|r| - 1][1..];
      GetSnoc(r[1..], k);
      KeysSnoc(r[1..]);
    }
  }

  lemma {:induction false} DistinctSnoc(r: Record)
    requires r != [] && DistinctKeys(r)
    ensures DistinctKeys(r[..|r| - 1]) && r[|r| - 1].0 !in Keys(r[..|r| - 1])
  {
    assert r == r[..|r| - 1] + [r[|r| - 1]];
    DistinctAppend(r[..|r| - 1], [r[|r| - 1]]);
  }

  /**
   * Writing a record into one row of one store sets exactly the cells of that
   * row named by the record, each to the record's value, and leaves every other
   * cell as it was.
   */
  lemma {:induction false} WriteRecordCells(fields: map<Cell, int>, store: StoreId, eid: Eid, rec: Record, c: Cell)
    requires DistinctKeys(rec)
    ensures CellAt(WriteRecord(fields, store, eid, rec), c) ==
      if c.store == store && c.eid == eid && c.field in Keys(rec) then Get(rec, c.field) else CellAt(fields, c)
    decreases |rec|
  {
    if rec != [] {
      var init := rec[..|rec| - 1];
      DistinctSnoc(rec);
      KeysSnoc(rec);
      GetSnoc(rec, c.field);
      WriteRecordCells(fields, store, eid, init, c);
    }
  }
}
