/**
 Building a class's indexes from one scan of its whole lineage: every record of every persisted shape,
 the fields an old shape lacked filled with the class defaults, sorted runs sorted once at the end.
 */
module IndexBuild {
  import opened Wire
  import opened Keys
  import opened IndexSpec
  import opened IndexMemory
  import opened IndexCommits
  import opened Indexes

  /** One persisted shape: its field names, and the records scanned under it. */
  datatype Generation = Generation(fields: set<Field>, records: seq<(Oid, Row)>)

  datatype BuildOutcome = Built(ci: ClassIndexes) | NoDefault(f: Field) | SharedDefault(f: Field)

  /** A record's maintained values; `fills` gives what a shape lacks. */
  function Entry(s: Schema, fills: Row, g: Generation, row: Row): Row {
    map f | f in s.Maintained() && (if f in g.fields then f in row else f in fills) :: if f in g.fields then row[f] else fills[f]
  }

  ghost predicate LacksDefault(s: Schema, fills: Row, g: Generation) {
    exists f :: f in s.Maintained() && f !in g.fields && f !in fills
  }

  /** A Unique field the shape lacks is filled with a value every old record would share. */
  ghost predicate SharesDefault(s: Schema, fills: Row, g: Generation) {
    exists f :: f in s.uniqueFields && f !in g.fields && f in fills && UniqueKey(fills[f]) != Null
  }

  ghost predicate At(gens: seq<Generation>, a: nat, b: nat) {
    a < |gens| && b < |gens[a].records|
  }

  ghost predicate Scanned(gens: seq<Generation>, a: nat, b: nat, i: nat, j: nat) {
    At(gens, a, b) && (a < i || (a == i && b < j))
  }

  ghost function OidAt(gens: seq<Generation>, a: nat, b: nat): Oid
    requires At(gens, a, b)
  {
    gens[a].records[b].0
  }

  ghost function RowAt(s: Schema, fills: Row, gens: seq<Generation>, a: nat, b: nat): Row
    requires At(gens, a, b)
  {
    Entry(s, fills, gens[a], gens[a].records[b].1)
  }

  /** `rows` is what the records before position (i, j) say. */
  ghost predicate RowsUpTo(s: Schema, fills: Row, gens: seq<Generation>, i: nat, j: nat, rows: Rows) {
    && (forall a: nat, b: nat :: Scanned(gens, a, b, i, j) ==> OidAt(gens, a, b) in rows && rows[OidAt(gens, a, b)] == RowAt(s, fills, gens, a, b))
    && (forall o :: o in rows ==> exists a: nat, b: nat :: Scanned(gens, a, b, i, j) && OidAt(gens, a, b) == o)
  }

  /** The committed rows of a lineage. */
  ghost predicate LineageRows(s: Schema, fills: Row, gens: seq<Generation>, rows: Rows) {
    RowsUpTo(s, fills, gens, |gens|, 0, rows)
  }

  ghost predicate EachOidOnce(gens: seq<Generation>) {
    forall a: nat, b: nat, c: nat, d: nat :: At(gens, a, b) && At(gens, c, d) && OidAt(gens, a, b) == OidAt(gens, c, d) ==> a == c && b == d
  }

  ghost predicate Typed(s: Schema, fills: Row, gens: seq<Generation>) {
    forall a: nat, b: nat :: At(gens, a, b) && !LacksDefault(s, fills, gens[a]) ==> WellTyped(s, RowAt(s, fills, gens, a, b))
  }

  /** The shape can be indexed: nothing lacks a default, and no record would share a unique one. */
  ghost predicate Able(s: Schema, fills: Row, g: Generation) {
    !LacksDefault(s, fills, g) && (g.records == [] || !SharesDefault(s, fills, g))
  }

  ghost predicate Buildable(s: Schema, fills: Row, gens: seq<Generation>) {
    forall i :: 0 <= i < |gens| ==> Able(s, fills, gens[i])
  }

  /** What a record is indexed as: its own values in the maintained fields its shape had, the class defaults in
      those it lacked, and nothing else. */
  lemma LineageMeans(s: Schema, fills: Row, gens: seq<Generation>, rows: Rows, a: nat, b: nat, f: Field)
    requires LineageRows(s, fills, gens, rows) && At(gens, a, b)
    requires f in s.Maintained() ==> if f in gens[a].fields then f in gens[a].records[b].1 else f in fills
    ensures var (o, row) := gens[a].records[b];
      && o in rows && (f in rows[o] <==> f in s.Maintained())
      && (f in s.Maintained() ==> rows[o][f] == if f in gens[a].fields then row[f] else fills[f])
  {
    assert Scanned(gens, a, b, |gens|, 0) && OidAt(gens, a, b) in rows;
  }

  // ------------------------------------------------------------- unique maps

  /** Every key is held by a row that has it; which one is open until keys are known to differ. */
  ghost predicate Holders(u: map<Key, Oid>, rows: Rows, f: Field) {
    && (forall k :: k in u ==> k != Null && u[k] in rows && KeyAt(rows, u[k], f) == k)
    && (forall o :: o in rows && KeyAt(rows, o, f) != Null ==> KeyAt(rows, o, f) in u)
  }

  ghost predicate AllHolders(s: Schema, v: View, rows: Rows) {
    ShapeOk(s, v) && forall f :: f in s.uniqueFields ==> Holders(v.unique[f], rows, f)
  }

  lemma FreshHolder(u: map<Key, Oid>, rows: Rows, f: Field, oid: Oid, row: Row)
    requires Holders(u, rows, f) && oid !in rows && f in row
    ensures Holders(UniqueAdd(UniqueDrop(u, OldUnique(rows, oid, f), oid), UniqueKey(row[f]), oid), rows[oid := row], f)
  {
    var w, rows' := UniqueAdd(u, UniqueKey(row[f]), oid), rows[oid := row];
    forall k | k in w
      ensures k != Null && w[k] in rows' && KeyAt(rows', w[k], f) == k
    {
      if k != UniqueKey(row[f]) {
        assert KeyAt(rows, u[k], f) == k;
      }
    }
    forall o | o in rows' && KeyAt(rows', o, f) != Null
      ensures KeyAt(rows', o, f) in w
    {
      if o != oid {
        assert KeyAt(rows', o, f) == KeyAt(rows, o, f);
      }
    }
  }

  lemma InsertKeepsHolders(s: Schema, v: View, rows: Rows, oid: Oid, row: Row, building: bool)
    requires s.Ok() && AllHolders(s, v, rows) && oid !in rows && WellTyped(s, row)
    ensures AllHolders(s, Inserted(s, v, rows, oid, row, building), rows[oid := row])
  {
    hide Holders, UniqueAdd, UniqueDrop, OldUnique;
    InsertedShape(s, v, rows, oid, row, building);
    forall f | f in s.uniqueFields
      ensures Holders(Inserted(s, v, rows, oid, row, building).unique[f], rows[oid := row], f)
    {
      InsertedUnique(s, v, rows, oid, row, building, f);
      FreshHolder(v.unique[f], rows, f, oid, row);
    }
  }

  lemma DistinctHolders(s: Schema, v: View, rows: Rows)
    requires AllHolders(s, v, rows) && s.Ok() && RowsOk(s, rows)
    requires forall f :: f in s.uniqueFields ==> NoSharedKey(rows, f)
    ensures UniquesExact(s, v, rows)
  {
    forall f | f in s.uniqueFields
      ensures UniqueExact(v.unique[f], rows, f)
    {
      assert Holders(v.unique[f], rows, f);
      forall o | o in rows && UniqueKey(rows[o][f]) != Null
        ensures UniqueKey(rows[o][f]) in v.unique[f] && v.unique[f][UniqueKey(rows[o][f])] == o
      {
        var k := KeyAt(rows, o, f);
        assert k in v.unique[f] && KeyAt(rows, v.unique[f][k], f) == k;
      }
    }
  }

  // ------------------------------------------------------------------ filling

  /** The fields a shape lacks, filled; or the first reason it cannot be. */
  method FillFor(s: Schema, fills: Row, g: Generation) returns (lacking: Option<Field>, colliding: Option<Field>)
    ensures lacking.Some? <==> LacksDefault(s, fills, g)
    ensures lacking.None? ==> (colliding.Some? <==> SharesDefault(s, fills, g))
  {
    lacking, colliding := None, None;
    var todo := s.Maintained();
    while todo != {}
      invariant todo <= s.Maintained()
      invariant forall f :: f in s.Maintained() - todo ==> f in g.fields || f in fills
      invariant colliding.Some? <==>
        exists f :: f in s.uniqueFields && f !in todo && f !in g.fields && f in fills && UniqueKey(fills[f]) != Null
      decreases todo
    {
      var f :| f in todo;
      todo := todo - {f};
      if f in g.fields {
        continue;
      }
      if f !in fills {
        return Some(f), None;
      }
      if f in s.uniqueFields && UniqueKey(fills[f]) != Null {
        colliding := Some(f);
      }
    }
  }

  lemma NewOid(s: Schema, fills: Row, gens: seq<Generation>, i: nat, j: nat, rows: Rows)
    requires EachOidOnce(gens) && At(gens, i, j) && RowsUpTo(s, fills, gens, i, j, rows)
    ensures OidAt(gens, i, j) !in rows
  {
  }

  lemma OneMoreRow(s: Schema, fills: Row, gens: seq<Generation>, i: nat, j: nat, rows: Rows)
    requires EachOidOnce(gens) && At(gens, i, j) && RowsUpTo(s, fills, gens, i, j, rows)
    ensures RowsUpTo(s, fills, gens, i, j + 1, rows[OidAt(gens, i, j) := RowAt(s, fills, gens, i, j)])
  {
    hide Entry, RowAt;
    NewOid(s, fills, gens, i, j, rows);
    var oid, after := OidAt(gens, i, j), rows[OidAt(gens, i, j) := RowAt(s, fills, gens, i, j)];
    forall a: nat, b: nat | Scanned(gens, a, b, i, j + 1)
      ensures OidAt(gens, a, b) in after && after[OidAt(gens, a, b)] == RowAt(s, fills, gens, a, b)
    {
      if !(a == i && b == j) {
        assert Scanned(gens, a, b, i, j);
      }
    }
    forall o | o in after
      ensures exists a: nat, b: nat :: Scanned(gens, a, b, i, j + 1) && OidAt(gens, a, b) == o
    {
      if o == oid {
        assert Scanned(gens, i, j, i, j + 1);
      } else {
        var a: nat, b: nat :| Scanned(gens, a, b, i, j) && OidAt(gens, a, b) == o;
        assert Scanned(gens, a, b, i, j + 1);
      }
    }
  }

  lemma NextGeneration(s: Schema, fills: Row, gens: seq<Generation>, i: nat, rows: Rows)
    requires i < |gens| && RowsUpTo(s, fills, gens, i, |gens[i].records|, rows)
    ensures RowsUpTo(s, fills, gens, i + 1, 0, rows)
  {
    hide Entry, RowAt;
    forall a: nat, b: nat | Scanned(gens, a, b, i + 1, 0)
      ensures OidAt(gens, a, b) in rows && rows[OidAt(gens, a, b)] == RowAt(s, fills, gens, a, b)
    {
      assert Scanned(gens, a, b, i, |gens[i].records|);
    }
    forall o | o in rows
      ensures exists a: nat, b: nat :: Scanned(gens, a, b, i + 1, 0) && OidAt(gens, a, b) == o
    {
      var a: nat, b: nat :| Scanned(gens, a, b, i, |gens[i].records|) && OidAt(gens, a, b) == o;
      assert Scanned(gens, a, b, i + 1, 0);
    }
  }

  /** Scans one shape's records into the index. */
  method ScanGeneration(ci: ClassIndexes, fills: Row, gens: seq<Generation>, i: nat)
    requires ci.s.Ok() && ci.Valid() && !ci.deferred && ci.building && i < |gens|
    requires EachOidOnce(gens) && Typed(ci.s, fills, gens) && !LacksDefault(ci.s, fills, gens[i])
    requires RowsUpTo(ci.s, fills, gens, i, 0, ci.rows) && AllHolders(ci.s, ci.View(), ci.rows)
    modifies ci
    ensures ci.Valid() && !ci.deferred && ci.building
    ensures RowsUpTo(ci.s, fills, gens, i + 1, 0, ci.rows) && AllHolders(ci.s, ci.View(), ci.rows)
  {
    hide RowsUpTo, AllHolders, EachOidOnce, Typed, LacksDefault, Inserted, ClassIndexes.Valid, Entry;
    var records := gens[i].records;
    for j := 0 to |records|
      invariant ci.Valid() && !ci.deferred && ci.building
      invariant RowsUpTo(ci.s, fills, gens, i, j, ci.rows) && AllHolders(ci.s, ci.View(), ci.rows)
    {
      var entry := Entry(ci.s, fills, gens[i], records[j].1);
      assert At(gens, i, j) && OidAt(gens, i, j) == records[j].0 && RowAt(ci.s, fills, gens, i, j) == entry;
      EntryTyped(ci.s, fills, gens, i, j);
      NewOid(ci.s, fills, gens, i, j, ci.rows);
      OneMoreRow(ci.s, fills, gens, i, j, ci.rows);
      if ci.s.Maintained() == {} {
        NoHolders(ci.s, ci.View(), fills, gens[i], records[j].1);
        ci.Extend(records[j].0);
        NoHolders(ci.s, ci.View(), fills, gens[i], records[j].1);
      } else {
        InsertKeepsHolders(ci.s, ci.View(), ci.rows, records[j].0, entry, true);
        ci.Insert(records[j].0, entry);
      }
    }
    NextGeneration(ci.s, fills, gens, i, ci.rows);
  }

  lemma NoHolders(s: Schema, v: View, fills: Row, g: Generation, row: Row)
    requires s.Maintained() == {}
    ensures Entry(s, fills, g, row) == map[] && forall rows :: ShapeOk(s, v) ==> AllHolders(s, v, rows)
  {
  }

  lemma EntryTyped(s: Schema, fills: Row, gens: seq<Generation>, i: nat, j: nat)
    requires Typed(s, fills, gens) && At(gens, i, j) && !LacksDefault(s, fills, gens[i])
    ensures WellTyped(s, RowAt(s, fills, gens, i, j))
  {
  }

  /** Scans one shape, or says why it cannot be indexed. */
  method TryGeneration(ci: ClassIndexes, fills: Row, gens: seq<Generation>, i: nat) returns (refused: Option<BuildOutcome>)
    requires ci.s.Ok() && ci.Valid() && !ci.deferred && ci.building && i < |gens|
    requires EachOidOnce(gens) && Typed(ci.s, fills, gens)
    requires RowsUpTo(ci.s, fills, gens, i, 0, ci.rows) && AllHolders(ci.s, ci.View(), ci.rows)
    modifies ci
    ensures refused.Some? <==> !Able(ci.s, fills, gens[i])
    ensures refused.Some? ==> !refused.value.Built?
    ensures refused.None? ==> ci.Valid() && !ci.deferred && ci.building
    ensures refused.None? ==> RowsUpTo(ci.s, fills, gens, i + 1, 0, ci.rows) && AllHolders(ci.s, ci.View(), ci.rows)
  {
    hide RowsUpTo, EachOidOnce, Typed, LacksDefault, SharesDefault, AllHolders, ClassIndexes.Valid;
    var lacking, colliding := FillFor(ci.s, fills, gens[i]);
    if lacking.Some? {
      return Some(NoDefault(lacking.value));
    }
    if gens[i].records != [] && colliding.Some? {
      return Some(SharedDefault(colliding.value));
    }
    ScanGeneration(ci, fills, gens, i);
    refused := None;
  }

  /** The build succeeds exactly when no shape lacks a default and no record would share a unique one;
      it then gives the rows of the lineage, exactly indexed if they share no unique key. */
  method Build(s: Schema, fills: Row, gens: seq<Generation>) returns (r: BuildOutcome)
    requires s.Ok() && EachOidOnce(gens) && Typed(s, fills, gens)
    ensures r.Built? <==> Buildable(s, fills, gens)
    ensures r.Built? ==>
      && fresh(r.ci) && r.ci.s == s && r.ci.Valid() && !r.ci.deferred && !r.ci.building
      && LineageRows(s, fills, gens, r.ci.rows)
      && ((forall f :: f in s.uniqueFields ==> NoSharedKey(r.ci.rows, f)) ==> Exact(s, r.ci.View(), r.ci.rows))
  {
    hide RowsUpTo, EachOidOnce, Typed, Able, NoSharedKey, PostingsExact, ShapeOk, ClassIndexes.Valid, AllHolders, Exact;
    var ci := new ClassIndexes(s);
    ci.BeginBulk();
    NothingScanned(s, fills, gens);
    for i := 0 to |gens|
      invariant ci.Valid() && !ci.deferred && ci.building && fresh(ci) && ci.s == s
      invariant RowsUpTo(s, fills, gens, i, 0, ci.rows) && AllHolders(s, ci.View(), ci.rows)
      invariant Buildable(s, fills, gens[..i])
    {
      assert gens[..i + 1] == gens[..i] + [gens[i]];
      var refused := TryGeneration(ci, fills, gens, i);
      if refused.Some? {
        return refused.value;
      }
    }
    assert gens[..|gens|] == gens;
    ghost var before := ci.View();
    ci.FinalizeBuild();
    if forall f :: f in s.uniqueFields ==> NoSharedKey(ci.rows, f) {
      FinishedExact(ci, before);
    }
    r := Built(ci);
  }

  lemma FinishedExact(ci: ClassIndexes, v: View)
    requires ci.Valid() && !ci.building && AllHolders(ci.s, v, ci.rows) && v.unique == ci.unique
    requires forall f :: f in ci.s.uniqueFields ==> NoSharedKey(ci.rows, f)
    ensures Exact(ci.s, ci.View(), ci.rows)
  {
    DistinctHolders(ci.s, v, ci.rows);
  }

  lemma NothingScanned(s: Schema, fills: Row, gens: seq<Generation>)
    ensures RowsUpTo(s, fills, gens, 0, 0, map[]) && AllHolders(s, EmptyView(s), map[])
  {
  }
}
