/**
 The cache is invisible: an index dumped, loaded back and folded forward never differs from the one
 that was never cached, although its memory is rebuilt only at the first write.
 */
module IndexCache {
  import opened Wire
  import opened Keys
  import opened IndexSpec
  import opened Indexes

  datatype Change = Put(oid: Oid, row: Row) | Drop(oid: Oid)

  lemma SameRuns(s: Schema, v: View, w: View)
    requires RunsExact(s, v) && RunsExact(s, w) && v.eq == w.eq
    ensures v.runs == w.runs
  {
    forall f | f in s.sortedFields
      ensures v.runs[f] == w.runs[f]
    {
      assert RunExact(v.runs[f], v.eq[f]) && RunExact(w.runs[f], w.eq[f]);
      SortedRunIsUnique(v.runs[f], w.runs[f]);
    }
  }

  lemma DumpIsExact(ci: ClassIndexes, b: Blob)
    requires ci.Valid() && !ci.building && UniquesExact(ci.s, ci.View(), ci.rows) && b == Blob(ci.s, ci.extent, ci.eq, ci.unique)
    ensures b.schema.Ok() && RowsOk(b.schema, ci.rows) && BlobExact(b, ci.rows)
  {
  }

  lemma LoadedView(ci: ClassIndexes, twin: ClassIndexes)
    requires ci.Valid() && !ci.building && twin.Valid() && !twin.building && twin.s == ci.s
    requires twin.extent == ci.extent && twin.eq == ci.eq && twin.unique == ci.unique
    ensures twin.View() == ci.View()
  {
    SameRuns(ci.s, ci.View(), twin.View());
  }

  /** Loads a dump of `ci` and folds the same changes into both. */
  method CachedTwin(ci: ClassIndexes, changes: seq<Change>) returns (twin: ClassIndexes)
    requires ci.Valid() && !ci.building && UniquesExact(ci.s, ci.View(), ci.rows)
    requires forall i :: 0 <= i < |changes| && changes[i].Put? ==> WellTyped(ci.s, changes[i].row)
    modifies ci
    ensures fresh(twin) && twin.s == ci.s && twin.Valid() && ci.Valid()
    ensures twin.View() == ci.View() && twin.rows == ci.rows
  {
    hide ClassIndexes.Valid, WellTyped, Inserted, Removed, UniquesExact;
    var b := ci.Dump();
    DumpIsExact(ci, b);
    twin := new ClassIndexes.Load(b, ci.rows);
    LoadedView(ci, twin);
    for i := 0 to |changes|
      invariant fresh(twin) && twin != ci && twin.s == ci.s && !twin.building && !ci.building
      invariant twin.Valid() && ci.Valid() && twin.View() == ci.View() && twin.rows == ci.rows
    {
      match changes[i]
      case Put(oid, row) =>
        ci.Insert(oid, row);
        twin.Insert(oid, row);
      case Drop(oid) =>
        ci.Remove(oid);
        twin.Remove(oid);
    }
  }
}
