/**
 A value survives its storing and loading: whatever the loader makes of the stored form of a live value is the
 same tree, with a reference to the same object wherever the live one holds an entity or a handle.
 */
module RoundTrip {
  import opened Wire
  import opened Values
  import opened GraphLoad

  /** The target keeps its readers out: an object in memory says so itself, a record by its class. */
  ghost predicate KeepsOut(db: Db, reg: Registry, o: Oid) {
    if o in reg then reg[o].guarded
    else o in db.records && db.records[o].cid in db.classes && db.classes[db.records[o].cid].guarded
  }

  /** A reference to this object: the registry's own instance, unless the field's references are lazy or the
      target is guarded; then a handle with its OID, which holds at most the registry's unguarded instance. */
  ghost predicate RefersTo(db: Db, h: Hydrated, o: Oid, isLazy: bool, reg: Registry) {
    if isLazy then
      h.LazyRef? && h.oid == o && (h.loaded == None || (o in reg && h.loaded == Some(reg[o]) && !reg[o].guarded))
    else if KeepsOut(db, reg, o) then h == LazyRef(o, None)
    else h.Obj? && o in reg && h.target == reg[o] && h.target.oid == o
  }

  /** The same leaves, keys, lengths and order; a handle stands for its target, or for its OID when unloaded. */
  ghost predicate SameTree(db: Db, v: Live, h: Hydrated, stamps: Stamps, isLazy: bool, reg: Registry)
    decreases v
  {
    match v
    case Leaf(text) => h == Val(text)
    case Ent(e) => e in stamps && RefersTo(db, h, stamps[e], isLazy, reg)
    case Handle(Some(e), _) => e in stamps && RefersTo(db, h, stamps[e], isLazy, reg)
    case Handle(None, Some(o)) => RefersTo(db, h, o, isLazy, reg)
    case Handle(None, None) => false
    case Items(items) =>
      h.ListOf? && |h.items| == |items|
      && forall i :: 0 <= i < |items| ==> SameTree(db, items[i], h.items[i], stamps, isLazy, reg)
    case Mapping(keys, vals) =>
      h.DictOf? && h.keys == keys && |h.vals| == |vals|
      && forall i :: 0 <= i < |vals| ==> SameTree(db, vals[i], h.vals[i], stamps, isLazy, reg)
    case Unpersistable => false
  }

  /** The registry holds every object under its own OID. */
  ghost predicate Named(reg: Registry) {
    forall o :: o in reg ==> reg[o].oid == o
  }

  /** Encoded and loaded again, every encodable value is the same tree. */
  lemma {:induction false} ValueRoundTrip(db: Db, v: Live, stamps: Stamps, h: Hydrated, isLazy: bool, reg: Registry)
    requires Swizzle(v, stamps).Some? && Resolved(db, h, Swizzle(v, stamps).value, isLazy, reg) && Named(reg)
    ensures SameTree(db, v, h, stamps, isLazy, reg)
    decreases v
  {
    match v
    case Items(items) => ValuesRoundTrip(db, items, stamps, h.items, isLazy, reg);
    case Mapping(_, vals) => ValuesRoundTrip(db, vals, stamps, h.vals, isLazy, reg);
    case _ =>
  }

  lemma {:induction false} ValuesRoundTrip(db: Db, vs: seq<Live>, stamps: Stamps, hs: seq<Hydrated>, isLazy: bool, reg: Registry)
    requires SwizzleAll(vs, stamps).Some? && ResolvedAll(db, hs, SwizzleAll(vs, stamps).value, isLazy, reg) && Named(reg)
    ensures |hs| == |vs| && forall i :: 0 <= i < |vs| ==> SameTree(db, vs[i], hs[i], stamps, isLazy, reg)
    decreases vs
  {
    hide SameTree, Swizzle, Resolved, Named;
    if vs != [] {
      var front, last := vs[..|vs| - 1], vs[|vs| - 1];
      var ts := SwizzleAll(vs, stamps).value;
      assert ts[..|ts| - 1] == SwizzleAll(front, stamps).value && ts[|ts| - 1] == Swizzle(last, stamps).value;
      ValuesRoundTrip(db, front, stamps, hs[..|hs| - 1], isLazy, reg);
      ValueRoundTrip(db, last, stamps, hs[|hs| - 1], isLazy, reg);
      assert forall i :: 0 <= i < |front| ==> front[i] == vs[i] && hs[..|hs| - 1][i] == hs[i];
    }
  }

  /** Every field that was stored comes back as it was, at whatever place the class has it now. */
  lemma RecordRoundTrip(db: Db, o: Oid, fields: seq<Live>, stamps: Stamps, values: seq<Hydrated>, reg: Registry, i: nat, j: nat)
    requires SwizzleAll(fields, stamps).Some? && Complete(db, values, o, reg) && Named(reg)
    requires db.records[o].values == SwizzleAll(fields, stamps).value
    requires i < |ClassOf(db, o).plan| && ClassOf(db, o).plan[i].index == Some(j) && j < |fields|
    ensures SameTree(db, fields[j], values[i], stamps, ClassOf(db, o).plan[i].lazyRefs, reg)
  {
    hide Resolved, SameTree;
    assert FieldFrom(db, values, o, reg, i);
    StoredAt(fields, stamps, j);
    ValueRoundTrip(db, fields[j], stamps, values[i], ClassOf(db, o).plan[i].lazyRefs, reg);
  }

  lemma {:induction false} StoredAt(fields: seq<Live>, stamps: Stamps, j: nat)
    requires SwizzleAll(fields, stamps).Some? && j < |fields|
    ensures |SwizzleAll(fields, stamps).value| == |fields|
    ensures Swizzle(fields[j], stamps) == Some(SwizzleAll(fields, stamps).value[j])
  {
    var front := fields[..|fields| - 1];
    StoredLength(fields, stamps);
    StoredLength(front, stamps);
    if j < |front| {
      StoredAt(front, stamps, j);
    }
    hide Swizzle;
  }

  lemma {:induction false} StoredLength(fields: seq<Live>, stamps: Stamps)
    requires SwizzleAll(fields, stamps).Some?
    ensures |SwizzleAll(fields, stamps).value| == |fields|
  {
    if fields != [] {
      StoredLength(fields[..|fields| - 1], stamps);
    }
    hide Swizzle;
  }
}
