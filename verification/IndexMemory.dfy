/**
 The memory of last-indexed values. A commit un-indexes a record from it, never from the store; after
 a cache load it is rebuilt from the postings and the unique maps alone, at the first write.
 */
module IndexMemory {
  import opened Wire
  import opened Keys
  import opened IndexSpec

  /** The memory files every row as the rows themselves would. */
  ghost predicate Remembers(s: Schema, memory: Rows, rows: Rows) {
    && memory.Keys <= rows.Keys
    && (forall o, f :: f in s.eqFields ==> OldKeys(s, memory, o, f) == OldKeys(s, rows, o, f))
    && (forall o, f :: f in s.uniqueFields ==> OldUnique(memory, o, f) == OldUnique(rows, o, f))
  }

  lemma RememberedUnindexed(s: Schema, v: View, memory: Rows, rows: Rows, oid: Oid)
    requires ShapeOk(s, v) && Remembers(s, memory, rows)
    ensures Unindexed(s, v, memory, oid) == Unindexed(s, v, rows, oid)
  {
    hide DropFrom, UniqueDrop, OldKeys, OldUnique;
  }

  lemma OneRowUnindexed(s: Schema, v: View, memory: Rows, oid: Oid)
    requires oid in memory
    ensures Unindexed(s, v, map[oid := memory[oid]], oid) == Unindexed(s, v, memory, oid)
  {
    hide DropFrom, UniqueDrop, KeysOf, UniqueKey;
    var one := map[oid := memory[oid]];
    assert forall f :: OldKeys(s, one, oid, f) == OldKeys(s, memory, oid, f) && OldUnique(one, oid, f) == OldUnique(memory, oid, f);
  }

  lemma NothingUnindexed(s: Schema, v: View, memory: Rows, oid: Oid)
    requires ShapeOk(s, v) && oid !in memory
    ensures Unindexed(s, v, memory, oid) == v
  {
    assert forall f :: f in v.eq ==> DropFrom(v.eq[f], {}, oid) == v.eq[f];
  }

  /** Inserting keeps the memory, list values being copied. */
  lemma InsertRemembers(s: Schema, memory: Rows, rows: Rows, oid: Oid, row: Row)
    requires Remembers(s, memory, rows)
    ensures Remembers(s, (memory - {oid})[oid := row], rows[oid := row])
  {
    hide KeysOf, UniqueKey;
    var m, r := (memory - {oid})[oid := row], rows[oid := row];
    forall o, f | f in s.eqFields
      ensures OldKeys(s, m, o, f) == OldKeys(s, r, o, f)
    {
      if o != oid {
        assert OldKeys(s, memory, o, f) == OldKeys(s, rows, o, f);
      }
    }
    forall o, f | f in s.uniqueFields
      ensures OldUnique(m, o, f) == OldUnique(r, o, f)
    {
      if o != oid {
        assert OldUnique(memory, o, f) == OldUnique(rows, o, f);
      }
    }
  }

  lemma RemoveRemembers(s: Schema, memory: Rows, rows: Rows, oid: Oid)
    requires Remembers(s, memory, rows)
    ensures Remembers(s, memory - {oid}, rows - {oid})
  {
    hide KeysOf, UniqueKey;
    var m, r := memory - {oid}, rows - {oid};
    forall o, f | f in s.eqFields
      ensures OldKeys(s, m, o, f) == OldKeys(s, r, o, f)
    {
      assert OldKeys(s, memory, o, f) == OldKeys(s, rows, o, f);
    }
    forall o, f | f in s.uniqueFields
      ensures OldUnique(m, o, f) == OldUnique(r, o, f)
    {
      assert OldUnique(memory, o, f) == OldUnique(rows, o, f);
    }
  }

  // ------------------------------------------------------------------ rebuild

  function Note(m: Rows, o: Oid, f: Field, v: Value): Rows {
    m[o := (if o in m then m[o] else map[])[f := v]]
  }

  ghost function KeysNoted(s: Schema, m: Rows, o: Oid, f: Field, v: Value, p: Oid, g: Field): set<Key> {
    if p == o && g == f then KeysOf(f in s.listFields, v) else OldKeys(s, m, p, g)
  }

  ghost function UniqueNoted(m: Rows, o: Oid, f: Field, v: Value, p: Oid, g: Field): Key {
    if p == o && g == f then UniqueKey(v) else OldUnique(m, p, g)
  }

  lemma Noted(s: Schema, m: Rows, o: Oid, f: Field, v: Value)
    ensures Note(m, o, f, v).Keys == m.Keys + {o}
    ensures forall p, g :: KeysNoted(s, m, o, f, v, p, g) == OldKeys(s, Note(m, o, f, v), p, g)
    ensures forall p, g :: UniqueNoted(m, o, f, v, p, g) == OldUnique(Note(m, o, f, v), p, g)
  {
    hide KeysOf, UniqueKey;
  }

  ghost predicate Has(m: Rows, o: Oid, f: Field) {
    o in m && f in m[o]
  }

  /** Nothing but `f` differs. */
  ghost predicate OnlyField(s: Schema, a: Rows, b: Rows, f: Field) {
    && (forall o, g :: g != f ==> Has(a, o, g) == Has(b, o, g))
    && (forall o, g :: g != f ==> OldKeys(s, a, o, g) == OldKeys(s, b, o, g))
    && (forall o, g :: g != f ==> OldUnique(a, o, g) == OldUnique(b, o, g))
  }

  lemma NoteOnlyField(s: Schema, m: Rows, o: Oid, f: Field, v: Value, b: Rows)
    requires OnlyField(s, m, b, f)
    ensures OnlyField(s, Note(m, o, f, v), b, f)
  {
    Noted(s, m, o, f, v);
    hide OldKeys, OldUnique;
  }

  /** The keys among `keys` whose posting holds `o`. */
  ghost function FiledUnder(col: Column, keys: set<Key>, o: Oid): set<Key> {
    set k | k in keys && o in Posting(col, k)
  }

  /** A scalar row is filed under one key. */
  ghost predicate SingleKeyed(col: Column) {
    forall k, j, o {:trigger o in Posting(col, k), o in Posting(col, j)} :: o in Posting(col, k) && o in Posting(col, j) ==> k == j
  }

  method RememberScalars(s: Schema, last: Rows, f: Field, col: Column, ghost known: set<Oid>) returns (r: Rows)
    requires f !in s.listFields && SingleKeyed(col) && last.Keys <= known && forall k, o :: o in Posting(col, k) ==> o in known
    requires forall o :: OldKeys(s, last, o, f) == {} && OldUnique(last, o, f) == Null
    ensures r.Keys <= known && OnlyField(s, r, last, f)
    ensures forall o :: OldKeys(s, r, o, f) == FiledUnder(col, col.Keys, o)
    ensures forall o, k :: o in Posting(col, k) ==> OldUnique(r, o, f) == k
    ensures forall o :: (forall k :: o !in Posting(col, k)) ==> OldUnique(r, o, f) == Null
  {
    hide OldKeys, OldUnique, Note;
    r := last;
    var todo := col.Keys;
    while todo != {}
      invariant todo <= col.Keys && r.Keys <= known && OnlyField(s, r, last, f)
      invariant forall o :: OldKeys(s, r, o, f) == FiledUnder(col, col.Keys - todo, o)
      invariant forall o, k :: k !in todo && o in Posting(col, k) ==> OldUnique(r, o, f) == k
      invariant forall o :: (forall k :: o !in Posting(col, k)) ==> OldUnique(r, o, f) == Null
      decreases todo
    {
      var k :| k in todo;
      r := RememberScalar(s, r, f, k, col[k]);
      assert col[k] == Posting(col, k);
      assert col.Keys - (todo - {k}) == (col.Keys - todo) + {k};
      todo := todo - {k};
    }
  }

  method RememberScalar(s: Schema, last: Rows, f: Field, k: Key, oids: set<Oid>) returns (r: Rows)
    requires f !in s.listFields
    ensures r.Keys == last.Keys + oids && OnlyField(s, r, last, f)
    ensures forall o :: OldKeys(s, r, o, f) == if o in oids then {k} else OldKeys(s, last, o, f)
    ensures forall o :: OldUnique(r, o, f) == if o in oids then k else OldUnique(last, o, f)
  {
    hide OldKeys, OldUnique, Note;
    r := last;
    var todo := oids;
    while todo != {}
      invariant todo <= oids && r.Keys == last.Keys + (oids - todo) && OnlyField(s, r, last, f)
      invariant forall o :: OldKeys(s, r, o, f) == if o in oids - todo then {k} else OldKeys(s, last, o, f)
      invariant forall o :: OldUnique(r, o, f) == if o in oids - todo then k else OldUnique(last, o, f)
      decreases todo
    {
      var o :| o in todo;
      todo := todo - {o};
      Noted(s, r, o, f, Scalar(k));
      NoteOnlyField(s, r, o, f, Scalar(k), last);
      r := Note(r, o, f, Scalar(k));
    }
  }

  /** The remembered elements of `o` for a list field; None of them before the first. */
  ghost predicate HoldsLists(m: Rows, f: Field) {
    forall o :: o in m && f in m[o] ==> m[o][f].ListOf?
  }

  /** Appends the key to the elements remembered for each holder; a None key is skipped. */
  method RememberElement(s: Schema, last: Rows, f: Field, k: Key, oids: set<Oid>) returns (r: Rows)
    requires f in s.listFields && HoldsLists(last, f)
    ensures r.Keys <= last.Keys + oids && OnlyField(s, r, last, f) && HoldsLists(r, f)
    ensures forall o :: OldKeys(s, r, o, f) == OldKeys(s, last, o, f) + if o in oids && k != Null then {k} else {}
  {
    hide OldKeys, OldUnique, Note;
    r := last;
    if k == Null {
      return;
    }
    var todo := oids;
    while todo != {}
      invariant todo <= oids && r.Keys <= last.Keys + oids && OnlyField(s, r, last, f) && HoldsLists(r, f)
      invariant forall o :: OldKeys(s, r, o, f) == OldKeys(s, last, o, f) + if o in oids - todo then {k} else {}
      decreases todo
    {
      var o :| o in todo;
      todo := todo - {o};
      var elems := if o in r && f in r[o] then r[o][f].elems + [k] else [k];
      Noted(s, r, o, f, ListOf(elems));
      NoteOnlyField(s, r, o, f, ListOf(elems), last);
      ElementNoted(s, r, o, f, k, elems);
      r := Note(r, o, f, ListOf(elems));
    }
  }

  lemma ElementNoted(s: Schema, m: Rows, o: Oid, f: Field, k: Key, elems: seq<Key>)
    requires f in s.listFields && HoldsLists(m, f)
    requires elems == if o in m && f in m[o] then m[o][f].elems + [k] else [k]
    ensures HoldsLists(Note(m, o, f, ListOf(elems)), f)
    ensures KeysOf(true, ListOf(elems)) == OldKeys(s, m, o, f) + {k}
  {
  }

  method RememberLists(s: Schema, last: Rows, f: Field, col: Column, ghost known: set<Oid>) returns (r: Rows)
    requires f in s.listFields && last.Keys <= known && HoldsLists(last, f)
    requires forall k, o {:trigger o in Posting(col, k)} :: o in Posting(col, k) ==> o in known && k != Null
    requires forall o :: OldKeys(s, last, o, f) == {}
    ensures r.Keys <= known && OnlyField(s, r, last, f)
    ensures forall o :: OldKeys(s, r, o, f) == FiledUnder(col, col.Keys, o)
  {
    hide OldKeys, OldUnique, Note, HoldsLists;
    r := last;
    var todo := col.Keys;
    while todo != {}
      invariant todo <= col.Keys && r.Keys <= known && OnlyField(s, r, last, f) && HoldsLists(r, f)
      invariant forall o :: OldKeys(s, r, o, f) == FiledUnder(col, col.Keys - todo, o)
      decreases todo
    {
      var k :| k in todo;
      assert col[k] == Posting(col, k);
      ghost var before := r;
      r := RememberElement(s, r, f, k, col[k]);
      forall o
        ensures OldKeys(s, r, o, f) == FiledUnder(col, col.Keys - (todo - {k}), o)
      {
        assert o in Posting(col, k) ==> k != Null;
        assert OldKeys(s, before, o, f) == FiledUnder(col, col.Keys - todo, o);
      }
      assert col.Keys - (todo - {k}) == (col.Keys - todo) + {k};
      todo := todo - {k};
    }
  }

  /** A pure-Unique field's memory is its value-to-holder map, inverted. */
  method RememberHolders(s: Schema, last: Rows, f: Field, holder: map<Key, Oid>, ghost rows: Rows) returns (r: Rows)
    requires f !in s.eqFields && UniqueExact(holder, rows, f) && last.Keys <= rows.Keys
    requires forall o :: OldUnique(last, o, f) == Null
    ensures r.Keys <= rows.Keys && OnlyField(s, r, last, f)
    ensures forall o :: OldUnique(r, o, f) == OldUnique(rows, o, f)
  {
    hide OldKeys, OldUnique, Note, UniqueExact;
    HoldersKnown(holder, rows, f);
    r := last;
    var todo := holder.Keys;
    while todo != {}
      invariant todo <= holder.Keys && r.Keys <= rows.Keys && OnlyField(s, r, last, f)
      invariant forall o :: OldUnique(r, o, f) == if OldUnique(rows, o, f) in holder.Keys - todo then OldUnique(rows, o, f) else Null
      decreases todo
    {
      var k :| k in todo;
      todo := todo - {k};
      Noted(s, r, holder[k], f, Scalar(k));
      NoteOnlyField(s, r, holder[k], f, Scalar(k), last);
      r := Note(r, holder[k], f, Scalar(k));
    }
  }

  lemma HoldersKnown(holder: map<Key, Oid>, rows: Rows, f: Field)
    requires UniqueExact(holder, rows, f)
    ensures forall k :: k in holder ==> holder[k] in rows && k != Null && OldUnique(rows, holder[k], f) == k
    ensures forall o :: OldUnique(rows, o, f) != Null ==> OldUnique(rows, o, f) in holder && holder[OldUnique(rows, o, f)] == o
  {
  }

  // ------------------------------------------------------------- whole columns

  lemma ColumnFacts(s: Schema, col: Column, rows: Rows, f: Field)
    requires s.Ok() && RowsOk(s, rows) && ColumnExact(col, rows, f, f in s.listFields)
    ensures forall k, o :: o in Posting(col, k) ==> o in rows && f in rows[o]
    ensures f in s.listFields ==> forall k, o {:trigger o in Posting(col, k)} :: o in Posting(col, k) ==> k != Null
    ensures f !in s.listFields ==> SingleKeyed(col)
  {
    forall k, o | o in Posting(col, k)
      ensures o in rows && f in rows[o] && (f in s.listFields ==> k != Null)
    {
      assert Filed(rows, f, f in s.listFields, k, o);
      assert WellTyped(s, rows[o]);
    }
    forall k, j, o | f !in s.listFields && o in Posting(col, k) && o in Posting(col, j)
      ensures k == j
    {
      assert Filed(rows, f, false, k, o) && Filed(rows, f, false, j, o);
    }
  }

  lemma ColumnTellsKeys(s: Schema, col: Column, rows: Rows, f: Field, o: Oid)
    requires ColumnExact(col, rows, f, f in s.listFields)
    ensures FiledUnder(col, col.Keys, o) == OldKeys(s, rows, o, f)
  {
    forall k
      ensures k in FiledUnder(col, col.Keys, o) <==> k in OldKeys(s, rows, o, f)
    {
      assert o in Posting(col, k) <==> Filed(rows, f, f in s.listFields, k, o);
    }
  }

  lemma ColumnTellsUnique(s: Schema, col: Column, rows: Rows, f: Field, o: Oid)
    requires f in s.eqFields && f !in s.listFields && RowsOk(s, rows) && ColumnExact(col, rows, f, false)
    ensures o in rows ==> o in Posting(col, OldUnique(rows, o, f))
    ensures o !in rows ==> forall k :: o !in Posting(col, k)
  {
    if o in rows {
      assert WellTyped(s, rows[o]);
      assert Filed(rows, f, false, OldUnique(rows, o, f), o);
    } else {
      forall k
        ensures o !in Posting(col, k)
      {
        assert !Filed(rows, f, false, k, o);
      }
    }
  }

  /** One column's part of the memory. */
  method RememberColumn(s: Schema, last: Rows, f: Field, col: Column, ghost rows: Rows) returns (r: Rows)
    requires s.Ok() && f in s.eqFields && RowsOk(s, rows) && ColumnExact(col, rows, f, f in s.listFields)
    requires last.Keys <= rows.Keys && Unnoted(last, f)
    ensures r.Keys <= rows.Keys && OnlyField(s, r, last, f)
    ensures forall o :: OldKeys(s, r, o, f) == OldKeys(s, rows, o, f)
    ensures f in s.uniqueFields ==> forall o :: OldUnique(r, o, f) == OldUnique(rows, o, f)
  {
    UnnotedFacts(s, last, f);
    hide OldKeys, OldUnique, RowsOk, ColumnExact, HoldsLists, Unnoted;
    ColumnFacts(s, col, rows, f);
    forall o
      ensures FiledUnder(col, col.Keys, o) == OldKeys(s, rows, o, f)
    {
      ColumnTellsKeys(s, col, rows, f, o);
    }
    if f in s.listFields {
      r := RememberLists(s, last, f, col, rows.Keys);
    } else {
      r := RememberScalars(s, last, f, col, rows.Keys);
      forall o
        ensures OldUnique(r, o, f) == OldUnique(rows, o, f)
      {
        ColumnTellsUnique(s, col, rows, f, o);
        NoRowNoKey(rows, o, f);
      }
    }
  }

  lemma NoRowNoKey(rows: Rows, o: Oid, f: Field)
    ensures o !in rows ==> OldUnique(rows, o, f) == Null
  {
  }

  /** The memory an index would have kept, from its structures alone. */
  method Rebuild(s: Schema, eq: map<Field, Column>, unique: map<Field, map<Key, Oid>>, ghost rows: Rows) returns (last: Rows)
    requires s.Ok() && RowsOk(s, rows) && eq.Keys == s.eqFields && unique.Keys == s.uniqueFields
    requires forall f :: f in s.eqFields ==> ColumnExact(eq[f], rows, f, f in s.listFields)
    requires forall f :: f in s.uniqueFields ==> UniqueExact(unique[f], rows, f)
    ensures Remembers(s, last, rows)
  {
    hide OldKeys, OldUnique, RowsOk, ColumnExact, UniqueExact, OnlyField;
    last := map[];
    var todo := eq.Keys;
    while todo != {}
      invariant todo <= eq.Keys && last.Keys <= rows.Keys
      invariant forall g :: g in todo || g !in eq ==> Unnoted(last, g)
      invariant forall g :: g in eq && g !in todo ==> SameKeys(s, last, rows, g)
      invariant forall g :: g in eq && g !in todo && g in s.uniqueFields ==> SameUnique(last, rows, g)
      decreases todo
    {
      var f :| f in todo;
      todo := todo - {f};
      ghost var before := last;
      last := RememberColumn(s, last, f, eq[f], rows);
      forall g | g != f
        ensures Unnoted(before, g) ==> Unnoted(last, g)
        ensures SameKeys(s, before, rows, g) ==> SameKeys(s, last, rows, g)
        ensures SameUnique(before, rows, g) ==> SameUnique(last, rows, g)
      {
        OtherField(s, last, before, rows, f, g);
      }
    }
    var pure := unique.Keys - eq.Keys;
    while pure != {}
      invariant pure <= unique.Keys - eq.Keys && last.Keys <= rows.Keys
      invariant forall g :: g in pure ==> Unnoted(last, g)
      invariant forall g :: g in eq ==> SameKeys(s, last, rows, g)
      invariant forall g :: g in s.uniqueFields && g !in pure ==> SameUnique(last, rows, g)
      decreases pure
    {
      var f :| f in pure;
      pure := pure - {f};
      ghost var before := last;
      UnnotedFacts(s, last, f);
      last := RememberHolders(s, last, f, unique[f], rows);
      forall g | g != f
        ensures Unnoted(before, g) ==> Unnoted(last, g)
        ensures SameKeys(s, before, rows, g) ==> SameKeys(s, last, rows, g)
        ensures SameUnique(before, rows, g) ==> SameUnique(last, rows, g)
      {
        OtherField(s, last, before, rows, f, g);
      }
    }
    assert forall o, g :: g in s.eqFields ==> SameKeys(s, last, rows, g) && OldKeys(s, last, o, g) == OldKeys(s, rows, o, g);
    assert forall o, g :: g in s.uniqueFields ==> SameUnique(last, rows, g) && OldUnique(last, o, g) == OldUnique(rows, o, g);
  }

  /** Nothing is remembered for `f`. */
  ghost predicate Unnoted(m: Rows, f: Field) {
    forall o :: !Has(m, o, f)
  }

  ghost predicate SameKeys(s: Schema, m: Rows, rows: Rows, f: Field) {
    forall o :: OldKeys(s, m, o, f) == OldKeys(s, rows, o, f)
  }

  ghost predicate SameUnique(m: Rows, rows: Rows, f: Field) {
    forall o :: OldUnique(m, o, f) == OldUnique(rows, o, f)
  }

  lemma UnnotedFacts(s: Schema, m: Rows, f: Field)
    requires Unnoted(m, f)
    ensures HoldsLists(m, f) && forall o :: OldKeys(s, m, o, f) == {} && OldUnique(m, o, f) == Null
  {
    forall o
      ensures !(o in m && f in m[o]) && OldKeys(s, m, o, f) == {} && OldUnique(m, o, f) == Null
    {
      assert !Has(m, o, f);
    }
  }

  lemma OtherField(s: Schema, m: Rows, before: Rows, rows: Rows, f: Field, g: Field)
    requires OnlyField(s, m, before, f) && g != f
    ensures Unnoted(before, g) ==> Unnoted(m, g)
    ensures SameKeys(s, before, rows, g) ==> SameKeys(s, m, rows, g)
    ensures SameUnique(before, rows, g) ==> SameUnique(m, rows, g)
  {
    hide OldKeys, OldUnique, Has;
  }
}
