/**
 The index of one entity class, maintained in place. Its contracts do not mention the memory of
 last-indexed values: an index whose memory is still to be rebuilt after a cache load behaves like
 one that was never cached.
 */
module Indexes {
  import opened Wire
  import opened Keys
  import opened IndexSpec
  import opened IndexMemory

  /** What the cache keeps of an index: markers, extent, postings, unique maps. Runs and memory are rebuilt. */
  datatype Blob = Blob(schema: Schema, extent: set<Oid>, eq: map<Field, Column>, unique: map<Field, map<Key, Oid>>)

  // Field by field: what is done to the fields of `row` outside `todo`.

  ghost function DroppedFrom(s: Schema, col: Column, row: Row, todo: set<Field>, f: Field, oid: Oid): Column {
    if f in row && f !in todo then DropFrom(col, KeysOf(f in s.listFields, row[f]), oid) else col
  }

  ghost function ReleasedFrom(u: map<Key, Oid>, row: Row, todo: set<Field>, f: Field, oid: Oid): map<Key, Oid> {
    if f in row && f !in todo then UniqueDrop(u, UniqueKey(row[f]), oid) else u
  }

  ghost function AddedTo(s: Schema, col: Column, row: Row, todo: set<Field>, f: Field, oid: Oid): Column {
    if f in row && f !in todo then AddTo(col, KeysOf(f in s.listFields, row[f]), oid) else col
  }

  ghost function ClaimedIn(u: map<Key, Oid>, row: Row, todo: set<Field>, f: Field, oid: Oid): map<Key, Oid> {
    if f in row && f !in todo then UniqueAdd(u, UniqueKey(row[f]), oid) else u
  }

  ghost function EnteredIn(run: seq<Key>, col: Column, row: Row, todo: set<Field>, f: Field, building: bool): seq<Key> {
    if f in row && f !in todo then RunAdd(run, col, UniqueKey(row[f]), building) else run
  }

  lemma NothingDropped(col: Column, u: map<Key, Oid>, oid: Oid)
    ensures DropFrom(col, {}, oid) == col && UniqueDrop(u, Null, oid) == u
  {
  }

  lemma UnindexedByField(s: Schema, v: View, eq: map<Field, Column>, unique: map<Field, map<Key, Oid>>, oid: Oid, last: Row)
    requires ShapeOk(s, v) && eq.Keys == v.eq.Keys && unique.Keys == v.unique.Keys
    requires forall f :: f in eq ==> eq[f] == DroppedFrom(s, v.eq[f], last, {}, f, oid)
    requires forall f :: f in unique ==> unique[f] == ReleasedFrom(v.unique[f], last, {}, f, oid)
    ensures View(v.extent, eq, unique, v.runs) == Unindexed(s, v, map[oid := last], oid)
  {
    hide DropFrom, UniqueDrop, KeysOf, UniqueKey;
    forall f | f in v.eq
      ensures DropFrom(v.eq[f], {}, oid) == v.eq[f]
    {
      NothingDropped(v.eq[f], map[], oid);
    }
    forall f | f in v.unique
      ensures UniqueDrop(v.unique[f], Null, oid) == v.unique[f]
    {
      NothingDropped(map[], v.unique[f], oid);
    }
  }

  /** `w` is `v` with every field of `row` outside `todo` filed. */
  ghost predicate FiledButFor(s: Schema, v: View, w: View, row: Row, todo: set<Field>, oid: Oid, building: bool) {
    && w.extent == v.extent && w.eq.Keys == v.eq.Keys && w.unique.Keys == v.unique.Keys && w.runs.Keys == v.runs.Keys
    && v.runs.Keys <= v.eq.Keys
    && (forall f :: f in v.eq ==> w.eq[f] == AddedTo(s, v.eq[f], row, todo, f, oid))
    && (forall f :: f in v.unique ==> w.unique[f] == ClaimedIn(v.unique[f], row, todo, f, oid))
    && (forall f :: f in v.runs ==> w.runs[f] == EnteredIn(v.runs[f], v.eq[f], row, todo, f, building))
  }

  lemma NothingFiled(s: Schema, v: View, row: Row, oid: Oid, building: bool)
    requires v.runs.Keys <= v.eq.Keys
    ensures FiledButFor(s, v, v, row, row.Keys, oid, building)
  {
  }

  lemma FiledOneMore(s: Schema, v: View, w: View, x: View, row: Row, todo: set<Field>, f: Field, oid: Oid, building: bool)
    requires FiledButFor(s, v, w, row, todo, oid, building) && f in todo && f in row && x.extent == w.extent
    requires x.eq == if f in w.eq then w.eq[f := AddTo(w.eq[f], KeysOf(f in s.listFields, row[f]), oid)] else w.eq
    requires x.unique == if f in w.unique then w.unique[f := UniqueAdd(w.unique[f], UniqueKey(row[f]), oid)] else w.unique
    requires x.runs == if f in w.runs then w.runs[f := RunAdd(w.runs[f], w.eq[f], UniqueKey(row[f]), building)] else w.runs
    ensures FiledButFor(s, v, x, row, todo - {f}, oid, building)
  {
    hide AddTo, UniqueAdd, RunAdd, KeysOf, UniqueKey;
  }

  lemma IndexedByField(s: Schema, v: View, w: View, oid: Oid, row: Row, building: bool)
    requires ShapeOk(s, v) && s.Ok() && s.Maintained() <= row.Keys && FiledButFor(s, v, w, row, {}, oid, building)
    ensures w.(extent := w.extent + {oid}) == Indexed(s, v, oid, row, building)
  {
    hide AddTo, UniqueAdd, RunAdd, KeysOf, UniqueKey;
  }

  lemma TypedKeys(s: Schema, row: Row)
    requires WellTyped(s, row)
    ensures s.Maintained() == row.Keys
  {
  }

  /** Un-index, join the extent, file: the three steps of an insert. */
  lemma InsertedInSteps(s: Schema, v: View, rows: Rows, oid: Oid, row: Row, building: bool)
    requires s.Ok() && ShapeOk(s, v) && s.Maintained() <= row.Keys
    ensures ShapeOk(s, Unindexed(s, v, rows, oid))
    ensures var u := Unindexed(s, v, rows, oid);
      Indexed(s, u.(extent := u.extent + {oid}), oid, row, building) == Inserted(s, v, rows, oid, row, building)
  {
    hide DropFrom, UniqueDrop, AddTo, UniqueAdd, RunAdd, KeysOf, UniqueKey, OldKeys, OldUnique;
  }

  class ClassIndexes {
    const s: Schema
    var extent: set<Oid>
    var eq: map<Field, Column>
    var unique: map<Field, map<Key, Oid>>
    var runs: map<Field, seq<Key>>
    var building: bool
    var memory: Rows
    var deferred: bool
    /** The rows this index has been told about. */
    ghost var rows: Rows

    ghost function View(): View
      reads this
    {
      IndexSpec.View(extent, eq, unique, runs)
    }

    ghost predicate Valid()
      reads this
    {
      && s.Ok() && RowsOk(s, rows) && PostingsExact(s, View(), rows)
      && (!building ==> RunsExact(s, View()))
      && (if deferred then UniquesExact(s, View(), rows) else Remembers(s, memory, rows))
    }

    constructor (schema: Schema)
      requires schema.Ok()
      ensures s == schema && rows == map[] && !building && !deferred
      ensures View() == EmptyView(schema) && Valid()
    {
      s := schema;
      extent, building, memory, deferred, rows := {}, false, map[], false, map[];
      eq := map f | f in schema.eqFields :: map[];
      unique := map f | f in schema.uniqueFields :: map[];
      runs := map f | f in schema.sortedFields :: [];
    }

    /** Removes `oid` from the postings of `keys`; a key without a posting is skipped. */
    method Discard(col: Column, keys: set<Key>, oid: Oid) returns (r: Column)
      ensures r == DropFrom(col, keys, oid)
    {
      r := col;
      var todo := keys;
      assert DropFrom(col, {}, oid) == col;
      while todo != {}
        invariant todo <= keys && r == DropFrom(col, keys - todo, oid)
        decreases todo
      {
        var k :| k in todo;
        todo := todo - {k};
        if k in r {
          r := r[k := r[k] - {oid}];
        }
      }
      assert keys - {} == keys;
    }

    /** Adds `oid` to the postings of `keys`, creating the missing ones. */
    method File(col: Column, keys: set<Key>, oid: Oid) returns (r: Column)
      ensures r == AddTo(col, keys, oid)
    {
      r := col;
      var todo := keys;
      assert AddTo(col, {}, oid) == col;
      while todo != {}
        invariant todo <= keys && r == AddTo(col, keys - todo, oid)
        decreases todo
      {
        var k :| k in todo;
        todo := todo - {k};
        r := r[k := Posting(r, k) + {oid}];
      }
      assert keys - {} == keys;
    }

    method UnindexField(oid: Oid, f: Field, value: Value)
      modifies this`eq, this`unique
      ensures eq == if f in old(eq) then old(eq)[f := DropFrom(old(eq)[f], KeysOf(f in s.listFields, value), oid)] else old(eq)
      ensures unique == if f in old(unique) then old(unique)[f := UniqueDrop(old(unique)[f], UniqueKey(value), oid)] else old(unique)
    {
      hide DropFrom, UniqueDrop, KeysOf, UniqueKey;
      if f in eq {
        var col := Discard(eq[f], KeysOf(f in s.listFields, value), oid);
        eq := eq[f := col];
      }
      if f in unique {
        unique := unique[f := UniqueDrop(unique[f], UniqueKey(value), oid)];
      }
    }

    /** Un-indexes `oid` field by field from its last-indexed values. */
    method Unindex(oid: Oid, last: Row)
      requires ShapeOk(s, View()) && s.Ok()
      modifies this`eq, this`unique
      ensures View() == Unindexed(s, old(View()), map[oid := last], oid)
    {
      hide DropFrom, UniqueDrop, KeysOf, UniqueKey, Unindexed;
      ghost var eq0, unique0, v := eq, unique, View();
      var todo := last.Keys;
      while todo != {}
        invariant todo <= last.Keys && eq.Keys == eq0.Keys && unique.Keys == unique0.Keys
        invariant forall f :: f in eq0 ==> eq[f] == DroppedFrom(s, eq0[f], last, todo, f, oid)
        invariant forall f :: f in unique0 ==> unique[f] == ReleasedFrom(unique0[f], last, todo, f, oid)
        decreases todo
      {
        var f :| f in todo;
        todo := todo - {f};
        UnindexField(oid, f, last[f]);
      }
      UnindexedByField(s, v, eq, unique, oid, last);
    }

    method FileField(oid: Oid, f: Field, value: Value)
      requires runs.Keys <= eq.Keys
      modifies this`eq, this`unique, this`runs
      ensures eq == if f in old(eq) then old(eq)[f := AddTo(old(eq)[f], KeysOf(f in s.listFields, value), oid)] else old(eq)
      ensures unique == if f in old(unique) then old(unique)[f := UniqueAdd(old(unique)[f], UniqueKey(value), oid)] else old(unique)
      ensures runs == if f in old(runs) then old(runs)[f := RunAdd(old(runs)[f], old(eq)[f], UniqueKey(value), building)] else old(runs)
    {
      hide AddTo, UniqueAdd, RunAdd, KeysOf, UniqueKey;
      if f in eq {
        if f in runs {
          runs := runs[f := RunAdd(runs[f], eq[f], UniqueKey(value), building)];
        }
        var col := File(eq[f], KeysOf(f in s.listFields, value), oid);
        eq := eq[f := col];
      }
      if f in unique {
        unique := unique[f := UniqueAdd(unique[f], UniqueKey(value), oid)];
      }
    }

    /** Files `oid` under its new values, field by field. */
    method FileRow(oid: Oid, row: Row)
      requires ShapeOk(s, View()) && s.Ok() && s.Maintained() == row.Keys
      modifies this`eq, this`unique, this`runs
      ensures View().(extent := extent + {oid}) == Indexed(s, old(View()), oid, row, building)
    {
      hide AddTo, UniqueAdd, RunAdd, KeysOf, UniqueKey, Indexed, FiledButFor;
      NothingFiled(s, View(), row, oid, building);
      ghost var v := View();
      var todo := row.Keys;
      while todo != {}
        invariant todo <= row.Keys && runs.Keys <= eq.Keys && FiledButFor(s, v, View(), row, todo, oid, building)
        decreases todo
      {
        var f :| f in todo;
        ghost var w := View();
        FileField(oid, f, row[f]);
        FiledOneMore(s, v, w, View(), row, todo, f, oid, building);
        todo := todo - {f};
      }
      IndexedByField(s, v, View(), oid, row, building);
    }

    /** Folds one committed row in. */
    method Insert(oid: Oid, row: Row)
      requires Valid() && WellTyped(s, row)
      modifies this
      ensures Valid() && !deferred && building == old(building)
      ensures rows == old(rows)[oid := row]
      ensures View() == Inserted(s, old(View()), old(rows), oid, row, building)
    {
      hide Inserted, Unindexed, Indexed, Remembers, ColumnExact, RunsExact, UniquesExact, WellTyped;
      if deferred {
        RebuildMemory();
      }
      TypedKeys(s, row);
      InsertRemembers(s, memory, rows, oid, row);
      InsertedInSteps(s, View(), rows, oid, row, building);
      Forget(oid);
      extent := extent + {oid};
      FileRow(oid, row);
      memory := memory[oid := row];
      InsertKeepsPostings(s, old(View()), rows, oid, row, building);
      if !building {
        InsertKeepsRuns(s, old(View()), rows, oid, row);
      }
      rows := rows[oid := row];
    }

    /** Folds one committed delete in, from the index's own memory. */
    method Remove(oid: Oid)
      requires Valid()
      modifies this
      ensures Valid() && !deferred && building == old(building)
      ensures rows == old(rows) - {oid}
      ensures View() == Removed(s, old(View()), old(rows), oid)
    {
      hide Unindexed, Remembers, ColumnExact, RunsExact, UniquesExact;
      if deferred {
        RebuildMemory();
      }
      RemoveRemembers(s, memory, rows, oid);
      Forget(oid);
      extent := extent - {oid};
      RemoveKeepsPostings(s, old(View()), rows, oid);
      if !building {
        RemoveKeepsRuns(s, old(View()), rows, oid);
      }
      rows := rows - {oid};
    }

    /** Pops the last-indexed values and un-indexes them. */
    method Forget(oid: Oid)
      requires s.Ok() && ShapeOk(s, View()) && Remembers(s, memory, rows)
      modifies this`eq, this`unique, this`memory
      ensures View() == Unindexed(s, old(View()), rows, oid)
      ensures memory == old(memory) - {oid}
    {
      hide Unindexed, Remembers;
      RememberedUnindexed(s, View(), memory, rows, oid);
      if oid in memory {
        OneRowUnindexed(s, View(), memory, oid);
        var last := memory[oid];
        memory := memory - {oid};
        Unindex(oid, last);
      } else {
        NothingUnindexed(s, View(), memory, oid);
      }
    }

    /** Reconstructs the memory from the postings and the unique maps alone. */
    method RebuildMemory()
      requires Valid() && deferred
      modifies this`memory, this`deferred
      ensures !deferred && Remembers(s, memory, rows)
    {
      memory := Rebuild(s, eq, unique, rows);
      deferred := false;
    }

    // ----------------------------------------------------------- bulk builds

    method BeginBulk()
      requires Valid()
      modifies this`building
      ensures building && Valid()
    {
      building := true;
    }

    /** A class without maintained fields only has its extent. */
    method Extend(oid: Oid)
      requires Valid() && !deferred && s.Maintained() == {}
      modifies this`extent, this`rows
      ensures Valid() && ShapeOk(s, View()) && rows == old(rows)[oid := map[]] && extent == old(extent) + {oid}
    {
      extent := extent + {oid};
      rows := rows[oid := map[]];
    }

    /** Derives every sorted run from its column in one sort. */
    method FinalizeBuild()
      requires Valid()
      modifies this`runs, this`building
      ensures Valid() && !building && RunsExact(s, View())
    {
      hide SortKeys, ColumnExact;
      var todo := s.sortedFields;
      while todo != {}
        invariant todo <= s.sortedFields && runs.Keys == old(runs).Keys
        invariant forall f :: f in s.sortedFields - todo ==> RunExact(runs[f], eq[f])
        decreases todo
      {
        var f :| f in todo;
        todo := todo - {f};
        runs := runs[f := SortKeys(eq[f].Keys - {Null})];
      }
      building := false;
    }

    // ---------------------------------------------------------------- cache

    method Dump() returns (b: Blob)
      ensures b == Blob(s, extent, eq, unique)
    {
      b := Blob(s, extent, eq, unique);
    }

    /** Restores a dumped index. The runs come from the postings; the memory waits for the first write. */
    constructor Load(b: Blob, ghost committed: Rows)
      requires b.schema.Ok() && RowsOk(b.schema, committed)
      requires BlobExact(b, committed)
      ensures s == b.schema && rows == committed && deferred && !building && Valid()
      ensures extent == b.extent && eq == b.eq && unique == b.unique
    {
      hide SortKeys, ColumnExact, UniqueExact, RowsOk;
      s := b.schema;
      extent, eq, unique := b.extent, b.eq, b.unique;
      runs := map f | f in b.schema.sortedFields && f in b.eq :: SortKeys(b.eq[f].Keys - {Null});
      building, memory, deferred, rows := false, map[], true, committed;
    }
  }

  /** The blob was dumped from an index that was exact over these rows. */
  ghost predicate BlobExact(b: Blob, rows: Rows) {
    var runs := map f | f in b.schema.sortedFields :: [];
    && PostingsExact(b.schema, View(b.extent, b.eq, b.unique, runs), rows)
    && UniquesExact(b.schema, View(b.extent, b.eq, b.unique, runs), rows)
  }
}
