/**
 What a class index is, and what each maintenance step makes of it. `Exact` is the simple
 specification: every structure recomputed from the committed rows.
 */
module IndexSpec {
  import opened Wire
  import opened Keys

  type Field = string
  /** A field value: one key, or the elements of a list field. */
  datatype Value = Scalar(k: Key) | ListOf(elems: seq<Key>)
  type Row = map<Field, Value>
  type Rows = map<Oid, Row>
  type Column = map<Key, set<Oid>>

  /** The index markers of a class: which fields carry postings, a unique map, element postings, a run. */
  datatype Schema = Schema(eqFields: set<Field>, uniqueFields: set<Field>, listFields: set<Field>, sortedFields: set<Field>)
  {
    ghost predicate Ok() {
      && listFields <= eqFields && sortedFields <= eqFields
      && sortedFields !! listFields && uniqueFields !! listFields
    }

    function Maintained(): set<Field> {
      eqFields + uniqueFields
    }
  }

  datatype View = View(extent: set<Oid>, eq: map<Field, Column>, unique: map<Field, map<Key, Oid>>, runs: map<Field, seq<Key>>)

  function EmptyView(s: Schema): View {
    View({}, map f | f in s.eqFields :: map[], map f | f in s.uniqueFields :: map[], map f | f in s.sortedFields :: [])
  }

  /** The keys a value is filed under. */
  function KeysOf(isList: bool, v: Value): set<Key> {
    match v
    case Scalar(k) => if isList then {} else {k}
    case ListOf(elems) => if isList then ToSet(elems) else {}
  }

  /** The unique key a value claims; None claims nothing. */
  function UniqueKey(v: Value): Key {
    if v.Scalar? then v.k else Null
  }

  /** Every maintained field is present with a value of its kind; list elements are never None. */
  ghost predicate WellTyped(s: Schema, row: Row) {
    && s.Maintained() == row.Keys
    && (forall f :: f in row ==> if f in s.listFields
          then row[f] == Scalar(Null) || (row[f].ListOf? && Null !in row[f].elems)
          else row[f].Scalar?)
  }

  function Posting(col: Column, k: Key): set<Oid> {
    if k in col then col[k] else {}
  }

  // ------------------------------------------------------------ specification

  /** The row of `o` is filed under `k`. */
  ghost predicate Filed(rows: Rows, f: Field, isList: bool, k: Key, o: Oid) {
    o in rows && f in rows[o] && k in KeysOf(isList, rows[o][f])
  }

  /** A missing posting counts as empty. */
  ghost predicate ColumnExact(col: Column, rows: Rows, f: Field, isList: bool) {
    forall k, o {:trigger o in Posting(col, k)} {:trigger Filed(rows, f, isList, k, o)} ::
      o in Posting(col, k) <==> Filed(rows, f, isList, k, o)
  }

  ghost predicate UniqueExact(u: map<Key, Oid>, rows: Rows, f: Field) {
    && (forall o :: o in rows ==> f in rows[o])
    && (forall k :: k in u ==> u[k] in rows && UniqueKey(rows[u[k]][f]) == k && k != Null)
    && (forall o :: o in rows && UniqueKey(rows[o][f]) != Null ==>
          UniqueKey(rows[o][f]) in u && u[UniqueKey(rows[o][f])] == o)
  }

  ghost predicate RunExact(run: seq<Key>, col: Column) {
    StrictlySorted(run) && forall k :: k in run <==> k in col && k != Null
  }

  ghost predicate ShapeOk(s: Schema, v: View) {
    v.eq.Keys == s.eqFields && v.unique.Keys == s.uniqueFields && v.runs.Keys == s.sortedFields
  }

  ghost predicate RowsOk(s: Schema, rows: Rows) {
    forall o :: o in rows ==> WellTyped(s, rows[o])
  }

  /** The extent and every posting agree with the rows, and every run lists its column's keys. */
  ghost predicate PostingsExact(s: Schema, v: View, rows: Rows) {
    && ShapeOk(s, v)
    && v.extent == rows.Keys
    && (forall f :: f in s.eqFields ==> ColumnExact(v.eq[f], rows, f, f in s.listFields))
  }

  ghost predicate RunsExact(s: Schema, v: View) {
    ShapeOk(s, v) && s.sortedFields <= s.eqFields && forall f :: f in s.sortedFields ==> RunExact(v.runs[f], v.eq[f])
  }

  ghost predicate UniquesExact(s: Schema, v: View, rows: Rows) {
    ShapeOk(s, v) && forall f :: f in s.uniqueFields ==> UniqueExact(v.unique[f], rows, f)
  }

  /** The index is what a rebuild from these rows would give. */
  ghost predicate Exact(s: Schema, v: View, rows: Rows) {
    s.Ok() && RowsOk(s, rows) && PostingsExact(s, v, rows) && RunsExact(s, v) && UniquesExact(s, v, rows)
  }

  /** Two exact indexes over the same rows agree: extent, every posting with a missing one read as
      empty, the unique maps; and the runs list the same keys in the same order wherever the columns
      know the same keys. */
  lemma ExactIsDetermined(s: Schema, v: View, w: View, rows: Rows)
    requires Exact(s, v, rows) && Exact(s, w, rows)
    ensures v.extent == w.extent && v.unique == w.unique
    ensures forall f, k :: f in s.eqFields ==> Posting(v.eq[f], k) == Posting(w.eq[f], k)
    ensures forall f :: f in s.sortedFields && v.eq[f].Keys == w.eq[f].Keys ==> v.runs[f] == w.runs[f]
  {
    forall f, k | f in s.eqFields
      ensures Posting(v.eq[f], k) == Posting(w.eq[f], k)
    {
      assert ColumnExact(v.eq[f], rows, f, f in s.listFields) && ColumnExact(w.eq[f], rows, f, f in s.listFields);
      assert forall o :: o in Posting(v.eq[f], k) ==> Filed(rows, f, f in s.listFields, k, o);
      assert forall o :: o in Posting(w.eq[f], k) ==> Filed(rows, f, f in s.listFields, k, o);
    }
    forall f | f in s.uniqueFields
      ensures v.unique[f] == w.unique[f]
    {
      UniqueIsDetermined(v.unique[f], w.unique[f], rows, f);
    }
    forall f | f in s.sortedFields && v.eq[f].Keys == w.eq[f].Keys
      ensures v.runs[f] == w.runs[f]
    {
      SortedRunIsUnique(v.runs[f], w.runs[f]);
    }
  }

  lemma UniqueIsDetermined(u: map<Key, Oid>, t: map<Key, Oid>, rows: Rows, f: Field)
    requires UniqueExact(u, rows, f) && UniqueExact(t, rows, f)
    ensures u == t
  {
    forall k
      ensures k in u <==> k in t
      ensures k in u ==> u[k] == t[k]
    {
      if k in u {
        assert UniqueKey(rows[u[k]][f]) == k;
      }
      if k in t {
        assert UniqueKey(rows[t[k]][f]) == k;
      }
    }
  }

  // ----------------------------------------------------------------- one step

  function DropFrom(col: Column, keys: set<Key>, oid: Oid): Column {
    map k | k in col :: if k in keys then col[k] - {oid} else col[k]
  }

  function AddTo(col: Column, keys: set<Key>, oid: Oid): Column {
    map k | k in col.Keys + keys :: if k in keys then Posting(col, k) + {oid} else col[k]
  }

  function UniqueDrop(u: map<Key, Oid>, k: Key, oid: Oid): map<Key, Oid> {
    if k != Null && k in u && u[k] == oid then u - {k} else u
  }

  function UniqueAdd(u: map<Key, Oid>, k: Key, oid: Oid): map<Key, Oid> {
    if k != Null then u[k := oid] else u
  }

  /** A new key enters the sorted run; None never does, and a bulk build defers it. */
  function RunAdd(run: seq<Key>, col: Column, k: Key, building: bool): seq<Key> {
    if building || k == Null || k in col then run else Insort(run, k)
  }

  function OldKeys(s: Schema, rows: Rows, oid: Oid, f: Field): set<Key> {
    if oid in rows && f in rows[oid] then KeysOf(f in s.listFields, rows[oid][f]) else {}
  }

  function OldUnique(rows: Rows, oid: Oid, f: Field): Key {
    if oid in rows && f in rows[oid] then UniqueKey(rows[oid][f]) else Null
  }

  /** The index after un-indexing what these rows say about `oid`. */
  function Unindexed(s: Schema, v: View, rows: Rows, oid: Oid): View {
    v.(eq := map f | f in v.eq :: DropFrom(v.eq[f], OldKeys(s, rows, oid, f), oid),
       unique := map f | f in v.unique :: UniqueDrop(v.unique[f], OldUnique(rows, oid, f), oid))
  }

  function Indexed(s: Schema, v: View, oid: Oid, row: Row, building: bool): View
    requires v.eq.Keys + v.unique.Keys <= row.Keys && v.runs.Keys <= v.eq.Keys
  {
    View(v.extent + {oid},
         map f | f in v.eq :: AddTo(v.eq[f], KeysOf(f in s.listFields, row[f]), oid),
         map f | f in v.unique :: UniqueAdd(v.unique[f], UniqueKey(row[f]), oid),
         map f | f in v.runs :: RunAdd(v.runs[f], v.eq[f], UniqueKey(row[f]), building))
  }

  function Inserted(s: Schema, v: View, rows: Rows, oid: Oid, row: Row, building: bool): View
    requires v.eq.Keys + v.unique.Keys <= row.Keys && v.runs.Keys <= v.eq.Keys
  {
    Indexed(s, Unindexed(s, v, rows, oid), oid, row, building)
  }

  function Removed(s: Schema, v: View, rows: Rows, oid: Oid): View {
    var u := Unindexed(s, v, rows, oid);
    u.(extent := u.extent - {oid})
  }

  lemma PostingAfter(col: Column, drop: set<Key>, add: set<Key>, oid: Oid, k: Key)
    ensures Posting(DropFrom(col, drop, oid), k) == if k in drop then Posting(col, k) - {oid} else Posting(col, k)
    ensures Posting(AddTo(col, add, oid), k) == if k in add then Posting(col, k) + {oid} else Posting(col, k)
  {
  }

  lemma InsertKeepsColumn(col: Column, rows: Rows, oid: Oid, row: Row, s: Schema, f: Field)
    requires ColumnExact(col, rows, f, f in s.listFields) && f in row
    ensures ColumnExact(AddTo(DropFrom(col, OldKeys(s, rows, oid, f), oid), KeysOf(f in s.listFields, row[f]), oid),
                        rows[oid := row], f, f in s.listFields)
  {
    var isList, prior, next := f in s.listFields, OldKeys(s, rows, oid, f), KeysOf(f in s.listFields, row[f]);
    var mid := DropFrom(col, prior, oid);
    forall k, o
      ensures o in Posting(AddTo(mid, next, oid), k) <==> Filed(rows[oid := row], f, isList, k, o)
    {
      PostingAfter(col, prior, {}, oid, k);
      PostingAfter(mid, {}, next, oid, k);
      assert o in Posting(col, k) <==> Filed(rows, f, isList, k, o);
    }
  }

  /** What an insert does to the postings of one field. */
  lemma InsertedColumn(s: Schema, v: View, rows: Rows, oid: Oid, row: Row, building: bool, f: Field)
    requires s.Ok() && ShapeOk(s, v) && s.Maintained() <= row.Keys && f in s.eqFields
    ensures Inserted(s, v, rows, oid, row, building).eq[f]
         == AddTo(DropFrom(v.eq[f], OldKeys(s, rows, oid, f), oid), KeysOf(f in s.listFields, row[f]), oid)
  {
    hide KeysOf, OldKeys, AddTo, DropFrom, UniqueDrop, UniqueAdd, RunAdd;
  }

  lemma InsertedColumnKeys(s: Schema, v: View, rows: Rows, oid: Oid, row: Row, building: bool, f: Field)
    requires s.Ok() && ShapeOk(s, v) && s.Maintained() <= row.Keys && f in s.eqFields
    ensures Inserted(s, v, rows, oid, row, building).eq[f].Keys == v.eq[f].Keys + KeysOf(f in s.listFields, row[f])
  {
    InsertedColumn(s, v, rows, oid, row, building, f);
    hide KeysOf, OldKeys, Inserted;
  }

  /** What an insert does to the unique map of one field. */
  lemma InsertedUnique(s: Schema, v: View, rows: Rows, oid: Oid, row: Row, building: bool, f: Field)
    requires s.Ok() && ShapeOk(s, v) && s.Maintained() <= row.Keys && f in s.uniqueFields
    ensures Inserted(s, v, rows, oid, row, building).unique[f]
         == UniqueAdd(UniqueDrop(v.unique[f], OldUnique(rows, oid, f), oid), UniqueKey(row[f]), oid)
  {
    hide AddTo, DropFrom, UniqueDrop, UniqueAdd, RunAdd, OldUnique, UniqueKey;
  }

  /** What an insert does to the sorted run of one field. */
  lemma InsertedRun(s: Schema, v: View, rows: Rows, oid: Oid, row: Row, building: bool, f: Field)
    requires s.Ok() && ShapeOk(s, v) && s.Maintained() <= row.Keys && f in s.sortedFields
    ensures Inserted(s, v, rows, oid, row, building).runs[f] == RunAdd(v.runs[f], v.eq[f], UniqueKey(row[f]), building)
  {
    hide AddTo, UniqueDrop, UniqueAdd, OldKeys, UniqueKey;
    assert DropFrom(v.eq[f], OldKeys(s, rows, oid, f), oid).Keys == v.eq[f].Keys;
  }

  lemma InsertedShape(s: Schema, v: View, rows: Rows, oid: Oid, row: Row, building: bool)
    requires s.Ok() && ShapeOk(s, v) && s.Maintained() <= row.Keys
    ensures ShapeOk(s, Inserted(s, v, rows, oid, row, building))
    ensures Inserted(s, v, rows, oid, row, building).extent == v.extent + {oid}
  {
    hide AddTo, DropFrom, UniqueDrop, UniqueAdd, RunAdd, OldKeys, OldUnique;
  }

  lemma InsertKeepsPostings(s: Schema, v: View, rows: Rows, oid: Oid, row: Row, building: bool)
    requires s.Ok() && PostingsExact(s, v, rows) && WellTyped(s, row)
    ensures PostingsExact(s, Inserted(s, v, rows, oid, row, building), rows[oid := row])
  {
    hide ColumnExact, AddTo, DropFrom, KeysOf, OldKeys;
    var w := Inserted(s, v, rows, oid, row, building);
    forall f | f in s.eqFields
      ensures ColumnExact(w.eq[f], rows[oid := row], f, f in s.listFields)
    {
      InsertedColumn(s, v, rows, oid, row, building, f);
      InsertKeepsColumn(v.eq[f], rows, oid, row, s, f);
    }
    InsertedShape(s, v, rows, oid, row, building);
  }

  /** A sorted field holds one key. */
  lemma SingleKey(s: Schema, row: Row, f: Field)
    requires s.Ok() && WellTyped(s, row) && f in s.sortedFields
    ensures f in row && KeysOf(f in s.listFields, row[f]) == {UniqueKey(row[f])}
  {
  }

  lemma InsertKeepsRuns(s: Schema, v: View, rows: Rows, oid: Oid, row: Row)
    requires s.Ok() && RunsExact(s, v) && WellTyped(s, row)
    ensures RunsExact(s, Inserted(s, v, rows, oid, row, false))
  {
    hide AddTo, DropFrom, KeysOf, OldKeys;
    var w := Inserted(s, v, rows, oid, row, false);
    forall f | f in s.sortedFields
      ensures RunExact(w.runs[f], w.eq[f])
    {
      InsertedRun(s, v, rows, oid, row, false, f);
      InsertedColumnKeys(s, v, rows, oid, row, false, f);
      SingleKey(s, row, f);
      RunTakesKey(v.runs[f], v.eq[f], UniqueKey(row[f]), w.eq[f]);
    }
    InsertedShape(s, v, rows, oid, row, false);
  }

  lemma RunTakesKey(run: seq<Key>, col: Column, k: Key, col': Column)
    requires RunExact(run, col) && col'.Keys == col.Keys + {k}
    ensures RunExact(RunAdd(run, col, k, false), col')
  {
    if k != Null && k !in col {
      InsortKeepsOrder(run, k);
    }
  }

  lemma RemoveKeepsColumn(col: Column, rows: Rows, oid: Oid, s: Schema, f: Field)
    requires ColumnExact(col, rows, f, f in s.listFields)
    ensures ColumnExact(DropFrom(col, OldKeys(s, rows, oid, f), oid), rows - {oid}, f, f in s.listFields)
  {
    var isList, prior := f in s.listFields, OldKeys(s, rows, oid, f);
    forall k, o
      ensures o in Posting(DropFrom(col, prior, oid), k) <==> Filed(rows - {oid}, f, isList, k, o)
    {
      PostingAfter(col, prior, {}, oid, k);
      assert o in Posting(col, k) <==> Filed(rows, f, isList, k, o);
    }
  }

  lemma RemoveKeepsPostings(s: Schema, v: View, rows: Rows, oid: Oid)
    requires s.Ok() && PostingsExact(s, v, rows)
    ensures PostingsExact(s, Removed(s, v, rows, oid), rows - {oid})
  {
    forall f | f in s.eqFields
      ensures ColumnExact(Removed(s, v, rows, oid).eq[f], rows - {oid}, f, f in s.listFields)
    {
      RemoveKeepsColumn(v.eq[f], rows, oid, s, f);
    }
  }

  lemma RemoveKeepsRuns(s: Schema, v: View, rows: Rows, oid: Oid)
    requires s.Ok() && RunsExact(s, v)
    ensures RunsExact(s, Removed(s, v, rows, oid))
  {
    var w := Removed(s, v, rows, oid);
    forall f | f in s.sortedFields
      ensures RunExact(w.runs[f], w.eq[f])
    {
      assert RunExact(v.runs[f], v.eq[f]);
      assert w.eq[f].Keys == v.eq[f].Keys;
    }
  }
}
