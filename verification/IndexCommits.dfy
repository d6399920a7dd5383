/**
 Folding whole commits into an index: first the upserted entries, then the deletes. A unique key
 may pass through a moment where two rows claim it, because a commit can delete a key's holder and
 claim the key again; the check made in P1 is what makes the end exact.
 */
module IndexCommits {
  import opened Wire
  import opened Keys
  import opened IndexSpec

  /** What a commit tells the index: the new rows, in capture order, and the deleted records. */
  datatype IndexCommit = IndexCommit(entries: seq<(Oid, Row)>, deletes: seq<Oid>)

  ghost predicate CommitOk(s: Schema, c: IndexCommit) {
    && (forall i :: 0 <= i < |c.entries| ==> WellTyped(s, c.entries[i].1))
    && (forall i, j :: 0 <= i < j < |c.entries| ==> c.entries[i].0 != c.entries[j].0)
    && (forall i :: 0 <= i < |c.entries| ==> c.entries[i].0 !in c.deletes)
  }

  /** P1's unique check: a key may be claimed when nobody holds it, its holder is the claimant or is
      deleted in the same commit, and no other entry of the commit claims it. */
  ghost predicate UniqueOk(s: Schema, v: View, c: IndexCommit)
    requires ShapeOk(s, v) && CommitOk(s, c)
  {
    forall f, i :: f in s.uniqueFields && 0 <= i < |c.entries| ==> ClaimOk(s, v, c, f, i)
  }

  ghost function Claim(c: IndexCommit, f: Field, i: nat): Key
    requires i < |c.entries|
  {
    if f in c.entries[i].1 then UniqueKey(c.entries[i].1[f]) else Null
  }

  ghost predicate ClaimOk(s: Schema, v: View, c: IndexCommit, f: Field, i: nat)
    requires ShapeOk(s, v) && i < |c.entries| && f in s.uniqueFields
  {
    var k := Claim(c, f, i);
    k != Null ==>
      && (k in v.unique[f] && v.unique[f][k] !in c.deletes ==> v.unique[f][k] == c.entries[i].0)
      && (forall j :: 0 <= j < i ==> Claim(c, f, j) != k)
  }

  /** A well-formed commit that the check lets through. */
  ghost predicate Passes(s: Schema, v: View, c: IndexCommit) {
    ShapeOk(s, v) && CommitOk(s, c) && UniqueOk(s, v, c)
  }

  function RowsAfterEntries(rows: Rows, entries: seq<(Oid, Row)>): Rows {
    if entries == [] then rows
    else RowsAfterEntries(rows, entries[..|entries| - 1])[entries[|entries| - 1].0 := entries[|entries| - 1].1]
  }

  function RowsAfter(rows: Rows, c: IndexCommit): Rows {
    RowsAfterEntries(rows, c.entries) - ToSet(c.deletes)
  }

  /** The index after the entries, each judged by the rows folded so far. */
  function AfterEntries(s: Schema, v: View, rows: Rows, entries: seq<(Oid, Row)>): (w: View)
    requires ShapeOk(s, v) && s.Ok() && forall i :: 0 <= i < |entries| ==> s.Maintained() == entries[i].1.Keys
    ensures ShapeOk(s, w)
  {
    if entries == [] then v
    else
      var front, e := entries[..|entries| - 1], entries[|entries| - 1];
      assert forall i :: 0 <= i < |front| ==> front[i] == entries[i];
      assert entries[|entries| - 1].1.Keys == s.Maintained();
      Inserted(s, AfterEntries(s, v, rows, front), RowsAfterEntries(rows, front), e.0, e.1, false)
  }

  function AfterDeletes(s: Schema, v: View, rows: Rows, deletes: seq<Oid>): (w: View)
    requires ShapeOk(s, v)
    ensures ShapeOk(s, w)
  {
    if deletes == [] then v
    else
      var front, o := deletes[..|deletes| - 1], deletes[|deletes| - 1];
      Removed(s, AfterDeletes(s, v, rows, front), rows - ToSet(front), o)
  }

  function AfterCommit(s: Schema, v: View, rows: Rows, c: IndexCommit): View
    requires ShapeOk(s, v) && s.Ok() && forall i :: 0 <= i < |c.entries| ==> s.Maintained() == c.entries[i].1.Keys
  {
    AfterDeletes(s, AfterEntries(s, v, rows, c.entries), RowsAfterEntries(rows, c.entries), c.deletes)
  }

  // ------------------------------------------------- unique keys, mid-commit

  ghost function KeyAt(rows: Rows, o: Oid, f: Field): Key {
    if o in rows && f in rows[o] then UniqueKey(rows[o][f]) else Null
  }

  /** Half-way through a commit, with `done` already folded: the map never lies about a holder, every
      claimed key is held by its claimant or by someone already folded, and folded claims are final. */
  ghost predicate UniqueMid(u: map<Key, Oid>, rows: Rows, f: Field, done: set<Oid>) {
    && (forall k :: k in u ==> k != Null && u[k] in rows && KeyAt(rows, u[k], f) == k)
    && (forall o :: o in rows && KeyAt(rows, o, f) != Null ==>
          KeyAt(rows, o, f) in u && (u[KeyAt(rows, o, f)] == o || u[KeyAt(rows, o, f)] in done))
    && (forall o :: o in rows && o in done && KeyAt(rows, o, f) != Null ==> u[KeyAt(rows, o, f)] == o)
  }

  lemma UniqueMidPut(u: map<Key, Oid>, rows: Rows, f: Field, done: set<Oid>, oid: Oid, row: Row)
    requires UniqueMid(u, rows, f, done) && oid !in done && f in row
    requires UniqueKey(row[f]) != Null ==> forall d :: d in done && d in rows ==> KeyAt(rows, d, f) != UniqueKey(row[f])
    ensures UniqueMid(UniqueAdd(UniqueDrop(u, OldUnique(rows, oid, f), oid), UniqueKey(row[f]), oid),
                      rows[oid := row], f, done + {oid})
  {
    var dropped := UniqueDrop(u, OldUnique(rows, oid, f), oid);
    var k := UniqueKey(row[f]);
    var w, rows' := UniqueAdd(dropped, k, oid), rows[oid := row];
    forall x | x in w
      ensures x != Null && w[x] in rows' && KeyAt(rows', w[x], f) == x
    {
      if x != k {
        assert KeyAt(rows, u[x], f) == x;
      }
    }
    forall o | o in rows' && KeyAt(rows', o, f) != Null
      ensures KeyAt(rows', o, f) in w && (w[KeyAt(rows', o, f)] == o || w[KeyAt(rows', o, f)] in done + {oid})
      ensures o in done + {oid} ==> w[KeyAt(rows', o, f)] == o
    {
      if o != oid {
        assert KeyAt(rows', o, f) == KeyAt(rows, o, f);
      }
    }
  }

  lemma UniqueMidDelete(u: map<Key, Oid>, rows: Rows, f: Field, done: set<Oid>, oid: Oid)
    requires UniqueMid(u, rows, f, done) && oid !in done
    ensures UniqueMid(UniqueDrop(u, OldUnique(rows, oid, f), oid), rows - {oid}, f, done)
  {
    var w, rows' := UniqueDrop(u, OldUnique(rows, oid, f), oid), rows - {oid};
    forall x | x in w
      ensures x != Null && w[x] in rows' && KeyAt(rows', w[x], f) == x
    {
      assert KeyAt(rows, u[x], f) == x;
    }
    forall o | o in rows' && KeyAt(rows', o, f) != Null
      ensures KeyAt(rows', o, f) in w && (w[KeyAt(rows', o, f)] == o || w[KeyAt(rows', o, f)] in done)
      ensures o in done ==> w[KeyAt(rows', o, f)] == o
    {
      assert KeyAt(rows', o, f) == KeyAt(rows, o, f);
    }
  }

  ghost predicate NoSharedKey(rows: Rows, f: Field) {
    forall a, b :: a in rows && b in rows && a != b && KeyAt(rows, a, f) != Null ==> KeyAt(rows, a, f) != KeyAt(rows, b, f)
  }

  lemma UniqueMidEnds(u: map<Key, Oid>, rows: Rows, f: Field, done: set<Oid>)
    requires UniqueMid(u, rows, f, done) && NoSharedKey(rows, f) && forall o :: o in rows ==> f in rows[o]
    ensures UniqueExact(u, rows, f)
  {
    forall o | o in rows && UniqueKey(rows[o][f]) != Null
      ensures UniqueKey(rows[o][f]) in u && u[UniqueKey(rows[o][f])] == o
    {
      var k := KeyAt(rows, o, f);
      assert k in u && KeyAt(rows, u[k], f) == k;
    }
    forall k | k in u
      ensures u[k] in rows && UniqueKey(rows[u[k]][f]) == k
    {
      assert KeyAt(rows, u[k], f) == k;
    }
  }

  ghost function OidsOfEntries(entries: seq<(Oid, Row)>): set<Oid> {
    set i | 0 <= i < |entries| :: entries[i].0
  }

  lemma {:induction false} RowsAfterEntriesLookup(rows: Rows, entries: seq<(Oid, Row)>)
    requires forall i, j :: 0 <= i < j < |entries| ==> entries[i].0 != entries[j].0
    ensures RowsAfterEntries(rows, entries).Keys == rows.Keys + OidsOfEntries(entries)
    ensures forall i :: 0 <= i < |entries| ==> RowsAfterEntries(rows, entries)[entries[i].0] == entries[i].1
    ensures forall o :: o in rows && o !in OidsOfEntries(entries) ==> RowsAfterEntries(rows, entries)[o] == rows[o]
  {
    if entries != [] {
      var front, e := entries[..|entries| - 1], entries[|entries| - 1];
      assert forall i :: 0 <= i < |front| ==> front[i] == entries[i];
      RowsAfterEntriesLookup(rows, front);
      assert OidsOfEntries(entries) == OidsOfEntries(front) + {e.0} by {
        assert forall i :: 0 <= i < |entries| ==> i < |front| || entries[i] == e;
        assert entries[|front|] == e;
      }
      forall i | 0 <= i < |entries|
        ensures RowsAfterEntries(rows, entries)[entries[i].0] == entries[i].1
      {
        if i < |front| {
          assert front[i] == entries[i];
        }
      }
    }
  }

  /** Folding the entries, one field's unique map. */
  lemma {:induction false} EntriesKeepMid(s: Schema, v: View, rows: Rows, c: IndexCommit, n: nat, f: Field)
    requires s.Ok() && ShapeOk(s, v) && CommitOk(s, c) && UniqueOk(s, v, c)
    requires f in s.uniqueFields && n <= |c.entries| && UniqueExact(v.unique[f], rows, f)
    ensures UniqueMid(AfterEntries(s, v, rows, c.entries[..n]).unique[f], RowsAfterEntries(rows, c.entries[..n]), f,
                      OidsOfEntries(c.entries[..n]))
  {
    hide Inserted, UniqueDrop, UniqueAdd, UniqueMid, UniqueOk, UniqueExact, OidsOfEntries;
    var taken := c.entries[..n];
    if n == 0 {
      NothingFolded(v.unique[f], rows, f);
    } else {
      var front, e := c.entries[..n - 1], c.entries[n - 1];
      assert taken[..n - 1] == front && taken[n - 1] == e;
      EntriesKeepMid(s, v, rows, c, n - 1, f);
      InsertedUnique(s, AfterEntries(s, v, rows, front), RowsAfterEntries(rows, front), e.0, e.1, false, f);
      OneMoreOid(c, n);
      FoldedClaimsDiffer(s, v, rows, c, n, f);
      UniqueMidPut(AfterEntries(s, v, rows, front).unique[f], RowsAfterEntries(rows, front), f, OidsOfEntries(front), e.0, e.1);
    }
  }

  lemma NothingFolded(u: map<Key, Oid>, rows: Rows, f: Field)
    requires UniqueExact(u, rows, f)
    ensures UniqueMid(u, rows, f, OidsOfEntries([]))
  {
  }

  lemma OneMoreOid(c: IndexCommit, n: nat)
    requires 0 < n <= |c.entries| && forall i, j :: 0 <= i < j < |c.entries| ==> c.entries[i].0 != c.entries[j].0
    ensures OidsOfEntries(c.entries[..n]) == OidsOfEntries(c.entries[..n - 1]) + {c.entries[n - 1].0}
    ensures c.entries[n - 1].0 !in OidsOfEntries(c.entries[..n - 1])
  {
    var front, taken := c.entries[..n - 1], c.entries[..n];
    assert forall i :: 0 <= i < n ==> taken[i] == c.entries[i];
    assert forall i :: 0 <= i < n - 1 ==> front[i] == c.entries[i] == taken[i];
    assert taken[n - 1].0 in OidsOfEntries(taken);
  }

  lemma FoldedClaimsDiffer(s: Schema, v: View, rows: Rows, c: IndexCommit, n: nat, f: Field)
    requires ShapeOk(s, v) && CommitOk(s, c) && UniqueOk(s, v, c) && f in s.uniqueFields && 0 < n <= |c.entries|
    ensures f in c.entries[n - 1].1
    ensures var k := UniqueKey(c.entries[n - 1].1[f]);
      k != Null ==> forall d {:trigger d in OidsOfEntries(c.entries[..n - 1])} :: d in OidsOfEntries(c.entries[..n - 1]) ==>
        KeyAt(RowsAfterEntries(rows, c.entries[..n - 1]), d, f) != k
  {
    var front := c.entries[..n - 1];
    assert forall i :: 0 <= i < |front| ==> front[i] == c.entries[i];
    RowsAfterEntriesLookup(rows, front);
    assert WellTyped(s, c.entries[n - 1].1);
    assert ClaimOk(s, v, c, f, n - 1);
    forall d | d in OidsOfEntries(front) && Claim(c, f, n - 1) != Null
      ensures KeyAt(RowsAfterEntries(rows, front), d, f) != Claim(c, f, n - 1)
    {
      var i :| 0 <= i < |front| && front[i].0 == d;
      assert Claim(c, f, i) != Claim(c, f, n - 1);
    }
  }

  lemma {:induction false} DeletesKeepMid(s: Schema, v: View, rows: Rows, deletes: seq<Oid>, f: Field, done: set<Oid>)
    requires ShapeOk(s, v) && f in s.uniqueFields && UniqueMid(v.unique[f], rows, f, done)
    requires forall o :: o in deletes ==> o !in done
    ensures UniqueMid(AfterDeletes(s, v, rows, deletes).unique[f], rows - ToSet(deletes), f, done)
  {
    if deletes == [] {
      assert rows - ToSet(deletes) == rows;
    } else {
      var front, o := deletes[..|deletes| - 1], deletes[|deletes| - 1];
      assert deletes == front + [o];
      DeletesKeepMid(s, v, rows, front, f, done);
      UniqueMidDelete(AfterDeletes(s, v, rows, front).unique[f], rows - ToSet(front), f, done, o);
      assert rows - ToSet(deletes) == (rows - ToSet(front)) - {o};
    }
  }

  /** The key a surviving row holds after the commit: its entry's claim, or what it held before. */
  lemma KeyAfter(s: Schema, rows: Rows, c: IndexCommit, f: Field, o: Oid)
    requires CommitOk(s, c)
    ensures o in OidsOfEntries(c.entries) ==>
      exists i :: 0 <= i < |c.entries| && c.entries[i].0 == o && Claim(c, f, i) == KeyAt(RowsAfter(rows, c), o, f)
    ensures o in RowsAfter(rows, c) && o !in OidsOfEntries(c.entries) ==>
      o in rows && o !in c.deletes && KeyAt(RowsAfter(rows, c), o, f) == KeyAt(rows, o, f)
    ensures o in rows && o !in c.deletes ==> o in RowsAfter(rows, c)
  {
    RowsAfterEntriesLookup(rows, c.entries);
    if o in OidsOfEntries(c.entries) {
      var i :| 0 <= i < |c.entries| && c.entries[i].0 == o;
      assert Claim(c, f, i) == KeyAt(RowsAfter(rows, c), o, f);
    }
  }

  lemma HolderOf(u: map<Key, Oid>, rows: Rows, f: Field)
    requires UniqueExact(u, rows, f)
    ensures forall o :: o in rows && KeyAt(rows, o, f) != Null ==> KeyAt(rows, o, f) in u && u[KeyAt(rows, o, f)] == o
    ensures forall k :: k in u ==> u[k] in rows && KeyAt(rows, u[k], f) == k
  {
  }

  ghost predicate ClaimsOk(s: Schema, v: View, c: IndexCommit, f: Field)
    requires ShapeOk(s, v) && f in s.uniqueFields
  {
    forall i :: 0 <= i < |c.entries| ==> ClaimOk(s, v, c, f, i)
  }

  /** P1's check rules out every collision in the rows the commit leaves behind. */
  lemma CheckedRowsDiffer(s: Schema, v: View, rows: Rows, c: IndexCommit, f: Field)
    requires ShapeOk(s, v) && CommitOk(s, c) && f in s.uniqueFields && ClaimsOk(s, v, c, f) && UniqueExact(v.unique[f], rows, f)
    ensures NoSharedKey(RowsAfter(rows, c), f)
  {
    hide RowsAfterEntries, CommitOk, UniqueExact;
    var after := RowsAfter(rows, c);
    HolderOf(v.unique[f], rows, f);
    forall a, b | a in after && b in after && a != b && KeyAt(after, a, f) != Null
      ensures KeyAt(after, a, f) != KeyAt(after, b, f)
    {
      KeyAfter(s, rows, c, f, a);
      KeyAfter(s, rows, c, f, b);
      if a in OidsOfEntries(c.entries) {
        var i :| 0 <= i < |c.entries| && c.entries[i].0 == a && Claim(c, f, i) == KeyAt(after, a, f);
        assert ClaimOk(s, v, c, f, i);
        if b in OidsOfEntries(c.entries) {
          var j :| 0 <= j < |c.entries| && c.entries[j].0 == b && Claim(c, f, j) == KeyAt(after, b, f);
          assert ClaimOk(s, v, c, f, j);
        }
      } else if b in OidsOfEntries(c.entries) {
        var j :| 0 <= j < |c.entries| && c.entries[j].0 == b && Claim(c, f, j) == KeyAt(after, b, f);
        assert ClaimOk(s, v, c, f, j);
      }
    }
  }

  /** Exactly when the check passes: the rows the commit leaves behind share no unique key, and no entry
      claims a key whose holder is itself only being re-keyed by the same commit. */
  lemma UniqueCheckIff(s: Schema, v: View, rows: Rows, c: IndexCommit)
    requires Exact(s, v, rows) && CommitOk(s, c)
    ensures UniqueOk(s, v, c) <==>
      forall f :: f in s.uniqueFields ==> NoSharedKey(RowsAfter(rows, c), f) && !ClaimsRekeyed(rows, c, f)
  {
    forall f | f in s.uniqueFields
      ensures ClaimsOk(s, v, c, f) <==> NoSharedKey(RowsAfter(rows, c), f) && !ClaimsRekeyed(rows, c, f)
    {
      assert UniqueExact(v.unique[f], rows, f);
      FieldCheckIff(s, v, rows, c, f);
    }
    assert UniqueOk(s, v, c) <==> forall f :: f in s.uniqueFields ==> ClaimsOk(s, v, c, f);
  }

  /** A class with one unique field, two records holding the keys 1 and 2, and the commit that swaps them. */
  function SwapSchema(f: Field): Schema {
    Schema({}, {f}, {}, {})
  }

  function SwapRows(f: Field, a: Oid, b: Oid): Rows {
    map[a := map[f := Scalar(Num(1))], b := map[f := Scalar(Num(2))]]
  }

  function SwapView(f: Field, a: Oid, b: Oid): View {
    View({a, b}, map[], map[f := map[Num(1) := a, Num(2) := b]], map[])
  }

  function SwapCommit(f: Field, a: Oid, b: Oid): IndexCommit {
    IndexCommit([(a, map[f := Scalar(Num(2))]), (b, map[f := Scalar(Num(1))])], [])
  }

  lemma SwapExact(f: Field, a: Oid, b: Oid)
    requires a != b
    ensures Exact(SwapSchema(f), SwapView(f, a, b), SwapRows(f, a, b))
  {
    assert UniqueExact(SwapView(f, a, b).unique[f], SwapRows(f, a, b), f);
  }

  lemma SwapAfter(f: Field, a: Oid, b: Oid)
    requires a != b
    ensures RowsAfter(SwapRows(f, a, b), SwapCommit(f, a, b)) == SwapRows(f, b, a)
  {
    var rows, entries := SwapRows(f, a, b), SwapCommit(f, a, b).entries;
    var first: seq<(Oid, Row)> := entries[..1];
    assert first[..0] == [];
    assert RowsAfterEntries(rows, first) == rows[a := entries[0].1];
    assert RowsAfterEntries(rows, entries) == RowsAfterEntries(rows, first)[b := entries[1].1];
  }

  /** Nothing is shared before or after the swap, and the check refuses it. */
  lemma KeySwapRefused(f: Field, a: Oid, b: Oid)
    requires a != b
    ensures var s, v, rows, c := SwapSchema(f), SwapView(f, a, b), SwapRows(f, a, b), SwapCommit(f, a, b);
      && Exact(s, v, rows) && CommitOk(s, c)
      && RowsAfter(rows, c) == SwapRows(f, b, a) && NoSharedKey(RowsAfter(rows, c), f)
      && !UniqueOk(s, v, c)
  {
    SwapExact(f, a, b);
    SwapAfter(f, a, b);
    hide Exact, RowsAfter, RowsAfterEntries;
    assert CommitOk(SwapSchema(f), SwapCommit(f, a, b));
    assert !ClaimOk(SwapSchema(f), SwapView(f, a, b), SwapCommit(f, a, b), f, 0);
  }

  /** Entry `i` claims a key that belongs to the entity of entry `j`, which is moving to another key. */
  ghost predicate ClaimsRekeyed(rows: Rows, c: IndexCommit, f: Field) {
    exists i, j :: 0 <= i < |c.entries| && 0 <= j < |c.entries| && i != j
      && Claim(c, f, i) != Null && Claim(c, f, i) == KeyAt(rows, c.entries[j].0, f)
  }

  lemma FieldCheckIff(s: Schema, v: View, rows: Rows, c: IndexCommit, f: Field)
    requires ShapeOk(s, v) && CommitOk(s, c) && f in s.uniqueFields && UniqueExact(v.unique[f], rows, f)
    ensures ClaimsOk(s, v, c, f) <==> NoSharedKey(RowsAfter(rows, c), f) && !ClaimsRekeyed(rows, c, f)
  {
    hide NoSharedKey;
    HolderOf(v.unique[f], rows, f);
    if ClaimsOk(s, v, c, f) {
      CheckedRowsDiffer(s, v, rows, c, f);
      forall i, j | 0 <= i < |c.entries| && 0 <= j < |c.entries| && i != j && Claim(c, f, i) != Null
        ensures Claim(c, f, i) != KeyAt(rows, c.entries[j].0, f)
      {
        assert ClaimOk(s, v, c, f, i);
      }
    } else {
      var i :| 0 <= i < |c.entries| && !ClaimOk(s, v, c, f, i);
      RefusedClaim(s, v, rows, c, f, i);
    }
  }

  lemma RefusedClaim(s: Schema, v: View, rows: Rows, c: IndexCommit, f: Field, i: nat)
    requires ShapeOk(s, v) && CommitOk(s, c) && f in s.uniqueFields && UniqueExact(v.unique[f], rows, f)
    requires i < |c.entries| && !ClaimOk(s, v, c, f, i)
    ensures !NoSharedKey(RowsAfter(rows, c), f) || ClaimsRekeyed(rows, c, f)
  {
    hide RowsAfterEntries, UniqueExact;
    var after, k, o := RowsAfter(rows, c), Claim(c, f, i), c.entries[i].0;
    HolderOf(v.unique[f], rows, f);
    EntrySurvives(s, rows, c, f, i);
    if j :| 0 <= j < i && Claim(c, f, j) == k {
      EntrySurvives(s, rows, c, f, j);
    } else {
      var h := v.unique[f][k];
      KeyAfter(s, rows, c, f, h);
      if h in OidsOfEntries(c.entries) {
        var j :| 0 <= j < |c.entries| && c.entries[j].0 == h;
        assert i != j;
      }
    }
  }

  lemma EntrySurvives(s: Schema, rows: Rows, c: IndexCommit, f: Field, i: nat)
    requires CommitOk(s, c) && i < |c.entries|
    ensures c.entries[i].0 in RowsAfter(rows, c) && KeyAt(RowsAfter(rows, c), c.entries[i].0, f) == Claim(c, f, i)
  {
    RowsAfterEntriesLookup(rows, c.entries);
    assert c.entries[i].0 in OidsOfEntries(c.entries);
  }

  // ------------------------------------------------------------ whole commits

  lemma {:induction false} EntriesKeepRest(s: Schema, v: View, rows: Rows, entries: seq<(Oid, Row)>)
    requires s.Ok() && RowsOk(s, rows) && PostingsExact(s, v, rows) && RunsExact(s, v)
    requires forall i :: 0 <= i < |entries| ==> s.Maintained() == entries[i].1.Keys && WellTyped(s, entries[i].1)
    ensures var w, after := AfterEntries(s, v, rows, entries), RowsAfterEntries(rows, entries);
      RowsOk(s, after) && PostingsExact(s, w, after) && RunsExact(s, w)
  {
    hide Inserted, ColumnExact, RunExact;
    if entries != [] {
      var front, e := entries[..|entries| - 1], entries[|entries| - 1];
      assert forall i :: 0 <= i < |front| ==> front[i] == entries[i];
      EntriesKeepRest(s, v, rows, front);
      InsertKeepsPostings(s, AfterEntries(s, v, rows, front), RowsAfterEntries(rows, front), e.0, e.1, false);
      InsertKeepsRuns(s, AfterEntries(s, v, rows, front), RowsAfterEntries(rows, front), e.0, e.1);
    }
  }

  lemma {:induction false} DeletesKeepRest(s: Schema, v: View, rows: Rows, deletes: seq<Oid>)
    requires s.Ok() && PostingsExact(s, v, rows) && RunsExact(s, v)
    ensures var w := AfterDeletes(s, v, rows, deletes); PostingsExact(s, w, rows - ToSet(deletes)) && RunsExact(s, w)
  {
    hide Removed, ColumnExact, RunExact;
    if deletes == [] {
      assert rows - ToSet(deletes) == rows;
    } else {
      var front, o := deletes[..|deletes| - 1], deletes[|deletes| - 1];
      assert deletes == front + [o];
      DeletesKeepRest(s, v, rows, front);
      RemoveKeepsPostings(s, AfterDeletes(s, v, rows, front), rows - ToSet(front), o);
      RemoveKeepsRuns(s, AfterDeletes(s, v, rows, front), rows - ToSet(front), o);
      assert rows - ToSet(deletes) == (rows - ToSet(front)) - {o};
    }
  }

  /** A checked commit leaves the index exact, also when it deletes a key's holder and claims the key anew. */
  lemma CommitKeepsExact(s: Schema, v: View, rows: Rows, c: IndexCommit)
    requires Exact(s, v, rows) && CommitOk(s, c) && UniqueOk(s, v, c)
    ensures Exact(s, AfterCommit(s, v, rows, c), RowsAfter(rows, c))
  {
    hide UniqueMid, UniqueExact, PostingsExact, RunsExact, NoSharedKey, AfterEntries, AfterDeletes, RowsAfterEntries;
    var mid, midRows := AfterEntries(s, v, rows, c.entries), RowsAfterEntries(rows, c.entries);
    EntriesKeepRest(s, v, rows, c.entries);
    DeletesKeepRest(s, mid, midRows, c.deletes);
    var w := AfterCommit(s, v, rows, c);
    assert c.entries[..|c.entries|] == c.entries;
    forall f | f in s.uniqueFields
      ensures UniqueExact(w.unique[f], RowsAfter(rows, c), f)
    {
      UniqueAfterCommit(s, v, rows, c, f);
    }
  }

  lemma UniqueAfterCommit(s: Schema, v: View, rows: Rows, c: IndexCommit, f: Field)
    requires Exact(s, v, rows) && CommitOk(s, c) && UniqueOk(s, v, c) && f in s.uniqueFields
    ensures UniqueExact(AfterCommit(s, v, rows, c).unique[f], RowsAfter(rows, c), f)
  {
    hide UniqueMid, AfterEntries, AfterDeletes, RowsAfterEntries, PostingsExact, RunsExact;
    assert UniqueExact(v.unique[f], rows, f);
    var mid, midRows := AfterEntries(s, v, rows, c.entries), RowsAfterEntries(rows, c.entries);
    var done := OidsOfEntries(c.entries);
    assert c.entries[..|c.entries|] == c.entries;
    EntriesKeepMid(s, v, rows, c, |c.entries|, f);
    assert forall o :: o in c.deletes ==> o !in done;
    DeletesKeepMid(s, mid, midRows, c.deletes, f, done);
    assert ClaimsOk(s, v, c, f);
    CheckedRowsDiffer(s, v, rows, c, f);
    EntriesKeepRest(s, v, rows, c.entries);
    UniqueMidEnds(AfterCommit(s, v, rows, c).unique[f], RowsAfter(rows, c), f, done);
  }

  // ---------------------------------------------------------------- every run

  /** What the indexes of a class hear of a commit: a class without a maintained field emits no entries. */
  function Told(s: Schema, c: IndexCommit): IndexCommit {
    if s.Maintained() == {} then c.(entries := []) else c
  }

  /** One commit through P1 and P3: a refused check changes nothing; the built extent of an index-less
      class only ever learns of deletes. */
  ghost function Fold(s: Schema, state: (View, Rows), c: IndexCommit): (View, Rows) {
    var (v, rows) := state;
    if !(s.Ok() && ShapeOk(s, v) && CommitOk(s, c)) || !UniqueOk(s, v, c) then state
    else
      (AfterCommit(s, v, rows, Told(s, c)), RowsAfter(rows, c))
  }

  ghost function FoldAll(s: Schema, state: (View, Rows), cs: seq<IndexCommit>): (View, Rows) {
    if cs == [] then state else Fold(s, FoldAll(s, state, cs[..|cs| - 1]), cs[|cs| - 1])
  }

  /** Incremental equals rebuild: for a class with a maintained field, any sequence of commits, refused
      ones among them, leaves an exact index exact over the rows committed so far. */
  lemma {:induction false} IncrementalEqualsRebuild(s: Schema, v: View, rows: Rows, cs: seq<IndexCommit>)
    requires Exact(s, v, rows) && s.Maintained() != {}
    ensures var (w, after) := FoldAll(s, (v, rows), cs); Exact(s, w, after)
  {
    if cs != [] {
      var (w, after) := FoldAll(s, (v, rows), cs[..|cs| - 1]);
      IncrementalEqualsRebuild(s, v, rows, cs[..|cs| - 1]);
      var c := cs[|cs| - 1];
      if CommitOk(s, c) && UniqueOk(s, w, c) {
        CommitKeepsExact(s, w, after, c);
      }
    }
  }

  /** For an index-less class a commit leaves a built extent exact exactly when every record it upserts
      was already there: a new record is missed. */
  lemma IndexlessExtentIff(s: Schema, v: View, rows: Rows, c: IndexCommit)
    requires Exact(s, v, rows) && s.Maintained() == {} && CommitOk(s, c)
    ensures Fold(s, (v, rows), c).0.extent == RowsAfter(rows, c).Keys
            <==> forall i :: 0 <= i < |c.entries| ==> c.entries[i].0 in rows
  {
    RowsAfterEntriesLookup(rows, c.entries);
    DeletesKeepExtent(s, v, rows, c.deletes);
    assert UniqueOk(s, v, c);
    assert Fold(s, (v, rows), c).0.extent == v.extent - ToSet(c.deletes);
    if (forall i :: 0 <= i < |c.entries| ==> c.entries[i].0 in rows) {
      assert OidsOfEntries(c.entries) <= rows.Keys;
    } else {
      var i :| 0 <= i < |c.entries| && c.entries[i].0 !in rows;
      assert c.entries[i].0 in OidsOfEntries(c.entries);
      assert c.entries[i].0 in RowsAfter(rows, c).Keys;
    }
  }

  /** The first record of an index-less class whose extent is built already: the extent stays empty. */
  lemma IndexlessMissesNew(o: Oid)
    ensures var s := Schema({}, {}, {}, {});
      var c := IndexCommit([(o, map[])], []);
      && Exact(s, EmptyView(s), map[]) && CommitOk(s, c)
      && RowsAfter(map[], c).Keys == {o} && Fold(s, (EmptyView(s), map[]), c).0.extent == {}
  {
    var s := Schema({}, {}, {}, {});
    var c := IndexCommit([(o, map[])], []);
    assert c.entries[..0] == [];
    assert Exact(s, EmptyView(s), map[]);
    IndexlessExtentIff(s, EmptyView(s), map[], c);
    DeletesKeepExtent(s, EmptyView(s), map[], []);
  }

  lemma {:induction false} DeletesKeepExtent(s: Schema, v: View, rows: Rows, deletes: seq<Oid>)
    requires ShapeOk(s, v)
    ensures AfterDeletes(s, v, rows, deletes).extent == v.extent - ToSet(deletes)
  {
    if deletes != [] {
      DeletesKeepExtent(s, v, rows, deletes[..|deletes| - 1]);
      assert deletes == deletes[..|deletes| - 1] + [deletes[|deletes| - 1]];
    }
  }
}
