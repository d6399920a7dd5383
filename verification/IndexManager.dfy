/**
 The indexes of a store: built lazily, from a cached blob or from the records, and folded forward by
 every commit. Holding a blob past a commit that touches its class would make a later build stale, so
 such a commit drops it. A class without a maintained field emits no entries, so its index and its blob
 miss every record stored after them; what they miss is tracked exactly.
 */
module IndexManagers {
  import opened Wire
  import opened Keys
  import opened IndexSpec
  import opened IndexMemory
  import opened IndexCommits
  import opened Indexes
  import opened IndexBuild

  type Cls = string

  /** What a build may rely on about the rows of one class. */
  ghost predicate CommittedOk(s: Schema, rows: Rows) {
    RowsOk(s, rows) && forall f :: f in s.uniqueFields ==> NoSharedKey(rows, f)
  }

  lemma ExactRowsDiffer(s: Schema, v: View, rows: Rows)
    requires Exact(s, v, rows)
    ensures CommittedOk(s, rows)
  {
    forall f | f in s.uniqueFields
      ensures NoSharedKey(rows, f)
    {
      HolderOf(v.unique[f], rows, f);
    }
  }

  lemma LineageIsUnique(s: Schema, fills: Row, gens: seq<Generation>, a: Rows, b: Rows)
    requires LineageRows(s, fills, gens, a) && LineageRows(s, fills, gens, b)
    ensures a == b
  {
    hide RowAt;
    forall o
      ensures o in a <==> o in b
      ensures o in a ==> a[o] == b[o]
    {
      if o in a {
        var i: nat, j: nat :| Scanned(gens, i, j, |gens|, 0) && OidAt(gens, i, j) == o;
      }
      if o in b {
        var i: nat, j: nat :| Scanned(gens, i, j, |gens|, 0) && OidAt(gens, i, j) == o;
      }
    }
  }

  /** The backend's records of a class are its committed rows. */
  ghost predicate Holds(s: Schema, fills: Row, gens: seq<Generation>, rows: Rows) {
    EachOidOnce(gens) && Typed(s, fills, gens) && LineageRows(s, fills, gens, rows)
  }

  /** After the commit no two records share a key, and nothing in it claims a key that another of its records
      had before. */
  ghost predicate Unclashing(s: Schema, rows: Rows, commit: IndexCommit) {
    forall f :: f in s.uniqueFields ==> NoSharedKey(RowsAfter(rows, commit), f) && !ClaimsRekeyed(rows, commit, f)
  }

  /** An index that is exact over all committed rows checks exactly that. */
  lemma ChecksCommitted(s: Schema, v: View, known: Rows, committed: Rows, blob: Option<Blob>, built: bool, commit: IndexCommit)
    requires ClassOk(s, committed, known, blob, built) && s.uniqueFields != {} && Exact(s, v, known) && CommitOk(s, commit)
    ensures Passes(s, v, commit) <==> Unclashing(s, committed, commit)
  {
    hide CommitOk, UniqueOk, ClassOk, Exact, ShapeOk, NoSharedKey, ClaimsRekeyed;
    UniqueIsKnown(s, known, committed, blob, built);
    ExactHasShape(s, v, known);
    UniqueCheckIff(s, v, known, commit);
  }

  lemma UniqueIsKnown(s: Schema, known: Rows, committed: Rows, blob: Option<Blob>, built: bool)
    requires ClassOk(s, committed, known, blob, built) && s.uniqueFields != {}
    ensures known == committed
  {
    var f :| f in s.uniqueFields;
    assert f in s.Maintained();
    hide CommittedOk, BlobExact;
  }

  lemma ExactHasShape(s: Schema, v: View, rows: Rows)
    requires Exact(s, v, rows)
    ensures ShapeOk(s, v)
  {
  }

  /** What may be said of one class. The index layer knows all of a class with a maintained field, and of one
      that has neither an index nor a blob; a blob that may still be loaded tells the truth about what it knows. */
  ghost predicate ClassOk(s: Schema, committed: Rows, known: Rows, blob: Option<Blob>, built: bool) {
    && s.Ok() && CommittedOk(s, committed) && CommittedOk(s, known)
    && (s.Maintained() != {} || (blob.None? && !built) ==> known == committed)
    && known.Keys <= committed.Keys
    && (blob.Some? && !built && blob.value.schema == s ==> BlobExact(blob.value, known))
  }

  function BlobOf(blobs: map<Cls, Blob>, c: Cls): Option<Blob> {
    if c in blobs then Some(blobs[c]) else None
  }

  ghost predicate LayerOk(schemas: map<Cls, Schema>, committed: map<Cls, Rows>, known: map<Cls, Rows>, blobs: map<Cls, Blob>, built: set<Cls>)
    requires committed.Keys == known.Keys == schemas.Keys
  {
    && blobs.Keys <= schemas.Keys
    && forall c :: c in schemas ==> ClassOk(schemas[c], committed[c], known[c], BlobOf(blobs, c), c in built)
  }

  /** One class moves, and what it moves to is in order. */
  lemma LayerMoves(schemas: map<Cls, Schema>, committed: map<Cls, Rows>, known: map<Cls, Rows>, blobs: map<Cls, Blob>, built: set<Cls>,
                   c: Cls, rows: Rows, heard: Rows, blobs': map<Cls, Blob>, built': set<Cls>)
    requires committed.Keys == known.Keys == schemas.Keys && c in schemas && LayerOk(schemas, committed, known, blobs, built)
    requires blobs' == blobs || blobs' == blobs - {c}
    requires built' == built || built' == built + {c}
    requires ClassOk(schemas[c], rows, heard, BlobOf(blobs', c), c in built')
    ensures LayerOk(schemas, committed[c := rows], known[c := heard], blobs', built')
  {
    hide ClassOk;
  }

  lemma KnowsOnceBuilt(s: Schema, committed: Rows, known: Rows, rows: Rows, blob: Option<Blob>)
    requires ClassOk(s, committed, known, blob, false) && (rows == known || rows == committed)
    ensures ClassOk(s, committed, rows, blob, true)
  {
    hide CommittedOk, BlobExact;
  }

  /** A commit folded into a built index, which hears what it is told. */
  lemma KnowsOnceFolded(s: Schema, committed: Rows, known: Rows, commit: IndexCommit, blob: Option<Blob>)
    requires ClassOk(s, committed, known, blob, true) && CommitOk(s, commit) && CommittedOk(s, RowsAfter(known, Told(s, commit)))
    ensures ClassOk(s, RowsAfter(committed, commit), RowsAfter(known, Told(s, commit)), blob, true)
  {
    ToldOk(s, commit);
    UntoldRows(s, known, committed, commit);
    CommittedAfter(s, committed, RowsAfter(known, Told(s, commit)), commit);
    hide CommittedOk, RowsAfter, Told, CommitOk;
  }

  /** A commit of a class without an index, whose blob stays only if nothing was told. */
  lemma KnowsWhenUnbuilt(s: Schema, committed: Rows, known: Rows, commit: IndexCommit, blob: Option<Blob>)
    requires ClassOk(s, committed, known, blob, false) && CommitOk(s, commit) && (s.uniqueFields == {} || commit.entries == [])
    ensures ClassOk(s, RowsAfter(committed, commit), RowsAfter(committed, commit), None, false)
    ensures Told(s, commit).entries == [] && commit.deletes == [] && blob.Some? ==>
      ClassOk(s, RowsAfter(committed, commit), known, blob, false)
  {
    ToldOk(s, commit);
    UncheckedRows(s, committed, commit);
    UntoldRows(s, known, committed, commit);
    UncheckedRows(s, known, Told(s, commit));
    hide CommittedOk, RowsAfter, Told, CommitOk, BlobExact;
  }

  /** What is missed after a commit. */
  lemma MissedAfter(s: Schema, known: Rows, committed: Rows, commit: IndexCommit)
    requires (s.Maintained() != {} ==> known == committed) && known.Keys <= committed.Keys && CommitOk(s, commit)
    ensures s.Maintained() != {} ==> RowsAfter(known, Told(s, commit)) == RowsAfter(committed, commit)
    ensures s.Maintained() == {} ==>
      RowsAfter(committed, commit).Keys - RowsAfter(known, Told(s, commit)).Keys
        == (committed.Keys - known.Keys) + (OidsOfEntries(commit.entries) - committed.Keys) - ToSet(commit.deletes)
  {
    ToldOk(s, commit);
    UntoldRows(s, known, committed, commit);
    hide CommittedOk, RowsAfter, Told, CommitOk, OidsOfEntries;
  }

  lemma NothingTold(s: Schema, committed: Rows, known: Rows, told: IndexCommit)
    ensures told.entries == [] && told.deletes == [] ==> RowsAfter(known, told) == known
  {
  }

  /** What the next session knows: what the dumped indexes knew, and of the other classes everything. */
  ghost function KnownFrom(committed: map<Cls, Rows>, known: map<Cls, Rows>, dumped: set<Cls>): map<Cls, Rows>
    requires committed.Keys == known.Keys
  {
    map c | c in committed :: if c in dumped then known[c] else committed[c]
  }

  lemma Reopens(schemas: map<Cls, Schema>, committed: map<Cls, Rows>, known: map<Cls, Rows>, blobs: map<Cls, Blob>, built: set<Cls>,
                out: map<Cls, Blob>)
    requires committed.Keys == known.Keys == schemas.Keys && built <= schemas.Keys && out.Keys == built
    requires LayerOk(schemas, committed, known, blobs, built) && forall c :: c in out ==> BlobExact(out[c], known[c])
    ensures LayerOk(schemas, committed, KnownFrom(committed, known, out.Keys), out, {})
  {
    hide CommittedOk, BlobExact;
    forall c | c in schemas
      ensures ClassOk(schemas[c], committed[c], KnownFrom(committed, known, out.Keys)[c], BlobOf(out, c), false)
    {
      assert ClassOk(schemas[c], committed[c], known[c], BlobOf(blobs, c), c in built);
    }
  }

  /** No two classes share an index. */
  ghost predicate Apart(byCls: map<Cls, ClassIndexes>) {
    forall c, d :: c in byCls && d in byCls && byCls[c] == byCls[d] ==> c == d
  }

  lemma OneMoreApart(byCls: map<Cls, ClassIndexes>, c: Cls, ci: ClassIndexes)
    requires Apart(byCls) && forall d :: d in byCls ==> byCls[d] != ci
    ensures Apart(byCls[c := ci])
  {
  }

  class IndexManager {
    const schemas: map<Cls, Schema>
    const fills: map<Cls, Row>
    var byCls: map<Cls, ClassIndexes>
    var blobs: map<Cls, Blob>
    /** What each class's committed records say. */
    ghost var committed: map<Cls, Rows>
    /** What of it the class's index or blob has been told. */
    ghost var known: map<Cls, Rows>

    ghost function Footprint(): set<ClassIndexes>
      reads this
    {
      set c | c in byCls :: byCls[c]
    }

    /** The committed records that the index or the blob of the class does not list. */
    ghost function Missed(c: Cls): set<Oid>
      reads this
      requires c in committed && c in known
    {
      committed[c].Keys - known[c].Keys
    }

    /** The sidecar has an index of `c` as the class is now. */
    ghost predicate HasBlob(c: Cls)
      reads this
      requires c in schemas
    {
      c in blobs && blobs[c].schema == schemas[c]
    }

    /** The built index of `c` is what a build from the rows it was told of would give. */
    ghost predicate Current(c: Cls)
      reads this, Footprint()
      requires c in byCls && c in schemas && c in known
    {
      byCls[c].s == schemas[c] && byCls[c].rows == known[c] && !byCls[c].building && byCls[c].Valid()
      && Exact(schemas[c], byCls[c].View(), known[c])
    }

    ghost predicate AllCurrent()
      reads this, Footprint()
      requires byCls.Keys <= schemas.Keys == known.Keys
    {
      forall c {:trigger Current(c)} :: c in byCls ==> Current(c)
    }

    ghost predicate Valid()
      reads this, Footprint()
    {
      && byCls.Keys <= schemas.Keys == fills.Keys && committed.Keys == known.Keys == schemas.Keys
      && Apart(byCls) && LayerOk(schemas, committed, known, blobs, byCls.Keys) && AllCurrent()
    }

    /** Opening a store whose sidecar was written at the same watermark: a blob tells what its index knew. */
    constructor (schemas: map<Cls, Schema>, fills: map<Cls, Row>, cached: map<Cls, Blob>, ghost committed: map<Cls, Rows>,
                 ghost known: map<Cls, Rows>)
      requires committed.Keys == known.Keys == schemas.Keys == fills.Keys && LayerOk(schemas, committed, known, cached, {})
      ensures Valid() && this.schemas == schemas && this.fills == fills && this.committed == committed && byCls == map[]
      ensures this.known == known && blobs == cached
    {
      this.schemas, this.fills, byCls, blobs, this.committed, this.known := schemas, fills, map[], cached, committed, known;
    }

    /** Every run asks for its indexes here: built already, from a blob whose markers still match, or
        from the records. Whichever it is, the caller gets the index of what it was told, which lists all the
        committed records exactly when none was missed; a build from the records misses none. */
    method Ensure(c: Cls, gens: seq<Generation>) returns (r: BuildOutcome)
      requires Valid() && c in schemas && Holds(schemas[c], fills[c], gens, committed[c])
      modifies this`byCls, this`known
      ensures Valid() && committed == old(committed) && blobs == old(blobs)
      ensures r.Built? ==> c in byCls && byCls[c] == r.ci && Current(c) && byCls == old(byCls)[c := r.ci]
      ensures r.Built? ==> (Exact(schemas[c], r.ci.View(), committed[c]) <==> Missed(c) == {})
      ensures c in old(byCls) || (c in blobs && blobs[c].schema == schemas[c]) ==> known == old(known)
      ensures r.Built? && c !in old(byCls) && (c in blobs ==> blobs[c].schema != schemas[c]) ==>
        known == old(known)[c := committed[c]]
      ensures !r.Built? ==> known == old(known)
      ensures c in old(byCls) ==> r == BuildOutcome.Built(old(byCls)[c])
      ensures r.Built? ==> c in old(byCls) || fresh(r.ci)
      ensures !r.Built? ==> byCls == old(byCls)
      ensures r.Built? <==> c in old(byCls) || HasBlob(c) || Buildable(schemas[c], fills[c], gens)
    {
      hide Exact, BlobExact, LineageRows, CommittedOk, Typed, EachOidOnce, ClassIndexes.Valid, Buildable, Holds;
      KnowsAll(c);
      if c in byCls {
        assert Current(c);
        MissedIff(c);
        return BuildOutcome.Built(byCls[c]);
      }
      if c in blobs && blobs[c].schema == schemas[c] {
        LoadableBlob(schemas[c], known[c]);
        var loaded := new ClassIndexes.Load(blobs[c], known[c]);
        StillValid();
        LoadedExact(loaded);
        Register(c, loaded);
        MissedIff(c);
        return BuildOutcome.Built(loaded);
      }
      BuildableTypes(schemas[c], fills[c], gens, committed[c]);
      r := Build(schemas[c], fills[c], gens);
      StillValid();
      if r.Built? {
        LineageIsUnique(schemas[c], fills[c], gens, r.ci.rows, committed[c]);
        LoadableBlob(schemas[c], committed[c]);
        Register(c, r.ci);
        MissedIff(c);
      }
    }

    lemma KnowsAll(c: Cls)
      requires committed.Keys == known.Keys == schemas.Keys && LayerOk(schemas, committed, known, blobs, byCls.Keys) && c in schemas
      ensures ClassOk(schemas[c], committed[c], known[c], BlobOf(blobs, c), c in byCls)
      ensures schemas[c].Ok() && CommittedOk(schemas[c], committed[c]) && CommittedOk(schemas[c], known[c])
      ensures schemas[c].Maintained() != {} || (c !in byCls && c !in blobs) ==> known[c] == committed[c]
      ensures known[c].Keys <= committed[c].Keys
    {
    }

    lemma CurrentNow(c: Cls)
      requires Valid() && c in byCls
      ensures Current(c)
    {
    }

    /** A class without maintained fields has nothing to its rows but their OIDs. */
    lemma MissedIff(c: Cls)
      requires Valid() && c in byCls
      ensures Exact(schemas[c], byCls[c].View(), committed[c]) <==> Missed(c) == {}
    {
      assert Current(c);
      KnowsAll(c);
      hide Exact, ClassIndexes.Valid, CommittedOk, LayerOk, AllCurrent;
      ExactIffNothingMissed(schemas[c], byCls[c].View(), committed[c], known[c]);
    }

    /** Allocating an index disturbs no registered one. */
    twostate lemma StillValid()
      requires old(Valid()) && unchanged(this) && forall c :: c in byCls ==> unchanged(byCls[c])
      ensures Valid()
    {
      hide Exact, LayerOk, Apart, ClassIndexes.Valid;
      assert byCls.Keys <= schemas.Keys == known.Keys;
      forall c | c in byCls
        ensures Current(c)
      {
        assert old(Current(c));
      }
    }

    /** Only `c` may have moved. */
    twostate lemma StillCurrent(c: Cls)
      requires old(byCls).Keys <= schemas.Keys == old(known).Keys && old(AllCurrent())
      requires byCls.Keys <= schemas.Keys == known.Keys && (c in byCls ==> Current(c))
      requires c in known && known == old(known)[c := known[c]]
      requires forall d :: d in byCls && d != c ==> d in old(byCls) && byCls[d] == old(byCls)[d]
      requires forall d :: d in old(byCls) && d != c ==> unchanged(old(byCls)[d])
      ensures AllCurrent()
    {
      hide Exact, ClassIndexes.Valid;
      forall d | d in byCls
        ensures Current(d)
      {
        if d != c {
          assert old(Current(d));
        }
      }
    }

    method Register(c: Cls, ci: ClassIndexes)
      requires Valid() && c in schemas && c !in byCls && forall d :: d in byCls ==> byCls[d] != ci
      requires ci.s == schemas[c] && (ci.rows == committed[c] || ci.rows == known[c]) && !ci.building && ci.Valid()
      requires Exact(schemas[c], ci.View(), ci.rows)
      modifies this`byCls, this`known
      ensures Valid() && byCls == old(byCls)[c := ci] && known == old(known)[c := ci.rows] && Current(c)
    {
      hide Exact, ClassIndexes.Valid, ClassOk, AllCurrent, Apart, LayerOk;
      KnowsAll(c);
      OneMoreApart(byCls, c, ci);
      KnowsOnceBuilt(schemas[c], committed[c], known[c], ci.rows, BlobOf(blobs, c));
      LayerMoves(schemas, committed, known, blobs, byCls.Keys, c, committed[c], ci.rows, blobs, byCls.Keys + {c});
      assert committed[c := committed[c]] == committed && byCls[c := ci].Keys == byCls.Keys + {c};
      byCls, known := byCls[c := ci], known[c := ci.rows];
      StillCurrent(c);
    }

    /** P1: may this commit's claims on unique keys stand? Answers from the index as committed so far;
        a key whose holder is deleted in the same commit is free. */
    method CheckUnique(c: Cls, commit: IndexCommit, gens: seq<Generation>) returns (ok: bool, failed: bool)
      requires Valid() && c in schemas && Holds(schemas[c], fills[c], gens, committed[c]) && CommitOk(schemas[c], commit)
      modifies this`byCls, this`known
      ensures Valid() && committed == old(committed) && blobs == old(blobs)
      ensures schemas[c].uniqueFields == {} ==> known == old(known)
      ensures c in old(byCls) ==> c in byCls && byCls[c] == old(byCls)[c]
      ensures c in old(byCls) ==> !failed
      ensures failed ==> !ok
      ensures failed <==> (schemas[c].uniqueFields != {} && commit.entries != []
                           && !(c in old(byCls) || HasBlob(c) || Buildable(schemas[c], fills[c], gens)))
      ensures !failed ==> (ok <==> schemas[c].uniqueFields == {} || commit.entries == [] || Unclashing(schemas[c], committed[c], commit))
      ensures schemas[c].uniqueFields == {} || commit.entries == [] ==> ok && byCls == old(byCls)
      ensures c in byCls && !failed ==> (ok <==> Passes(schemas[c], byCls[c].View(), commit))
      ensures c in byCls ==> c in old(byCls) || fresh(byCls[c])
      ensures !failed ==> c in byCls || schemas[c].uniqueFields == {} || commit.entries == []
    {
      hide Exact, BlobExact, CommittedOk, ClassIndexes.Valid, Passes, CommitOk, Holds, Buildable, Unclashing;
      if c in byCls {
        assert Current(c);
      }
      if schemas[c].uniqueFields == {} || commit.entries == [] {
        if c in byCls {
          NothingClaimed(byCls[c], commit);
        }
        return true, false;
      }
      var r := Ensure(c, gens);
      if !r.Built? {
        return false, true;
      }
      label Ensured:
      ok := Unclaimed(byCls[c], commit);
      StillValid@Ensured();
      assert Current(c);
      KnowsAll(c);
      ChecksCommitted(schemas[c], byCls[c].View(), known[c], committed[c], BlobOf(blobs, c), true, commit);
      failed := false;
    }

    /** P3: folds a durable commit into the built index of its class; without one, drops the blob. An index
        or a blob that stays misses the new records of a class without maintained fields, and no others. */
    method Apply(c: Cls, commit: IndexCommit)
      requires Valid() && c in schemas && CommitOk(schemas[c], commit)
      requires c in byCls ==> Passes(schemas[c], byCls[c].View(), commit)
      requires c in byCls || schemas[c].uniqueFields == {} || commit.entries == []
      modifies this`blobs, this`committed, this`known, if c in byCls then {byCls[c]} else {}
      ensures Valid() && byCls == old(byCls)
      ensures committed == old(committed)[c := RowsAfter(old(committed)[c], commit)]
      ensures schemas[c].Maintained() != {} || (c !in byCls && c !in blobs) ==> Missed(c) == {}
      ensures schemas[c].Maintained() == {} && (c in byCls || c in blobs) ==>
        Missed(c) == old(Missed(c)) + (OidsOfEntries(commit.entries) - old(committed[c].Keys)) - ToSet(commit.deletes)
    {
      hide Exact, BlobExact, CommittedOk, ClassIndexes.Valid, Passes, CommitOk, RowsAfter, Told, Schema.Maintained,
        OidsOfEntries, AllCurrent, LayerOk, Apart;
      var told := Told(schemas[c], commit);
      KnowsAll(c);
      ToldOk(schemas[c], commit);
      MissedAfter(schemas[c], known[c], committed[c], commit);
      if c in byCls {
        CurrentNow(c);
        ToldPasses(byCls[c], commit);
        FoldBuilt(c, told, commit);
      } else {
        NothingTold(schemas[c], committed[c], known[c], told);
        Unbuilt(c, told, commit);
      }
    }

    /** The built index takes what it is told. */
    method FoldBuilt(c: Cls, told: IndexCommit, ghost commit: IndexCommit)
      requires Valid() && c in byCls && Current(c) && CommitOk(schemas[c], commit) && told == Told(schemas[c], commit)
      requires Passes(schemas[c], byCls[c].View(), told)
      modifies this`committed, this`known, byCls[c]
      ensures Valid()
      ensures committed == old(committed)[c := RowsAfter(old(committed)[c], commit)]
      ensures known == old(known)[c := RowsAfter(old(known)[c], told)]
    {
      hide Exact, ClassOk, CommittedOk, ClassIndexes.Valid, Passes, CommitOk, RowsAfter, Told, AllCurrent, LayerOk;
      KnowsAll(c);
      FoldInto(byCls[c], told);
      ExactRowsDiffer(schemas[c], byCls[c].View(), byCls[c].rows);
      KnowsOnceFolded(schemas[c], committed[c], known[c], commit, BlobOf(blobs, c));
      LayerMoves(schemas, committed, known, blobs, byCls.Keys, c,
                 RowsAfter(committed[c], commit), RowsAfter(known[c], told), blobs, byCls.Keys);
      known, committed := known[c := RowsAfter(known[c], told)], committed[c := RowsAfter(committed[c], commit)];
      StillCurrent(c);
    }

    /** There is no index to take it: a blob stays only if nothing was told. */
    method Unbuilt(c: Cls, told: IndexCommit, ghost commit: IndexCommit)
      requires Valid() && c in schemas && c !in byCls
      requires CommitOk(schemas[c], commit) && told == Told(schemas[c], commit) && told.deletes == commit.deletes
      requires schemas[c].uniqueFields == {} || commit.entries == []
      modifies this`blobs, this`committed, this`known
      ensures Valid()
      ensures committed == old(committed)[c := RowsAfter(old(committed)[c], commit)]
      ensures c in blobs <==> c in old(blobs) && told.entries == [] && told.deletes == []
      ensures known == old(known)[c := if c in blobs then old(known)[c] else RowsAfter(old(committed)[c], commit)]
    {
      hide Exact, ClassOk, CommittedOk, ClassIndexes.Valid, CommitOk, RowsAfter, Told, AllCurrent, Apart, LayerOk;
      KnowsAll(c);
      KnowsWhenUnbuilt(schemas[c], committed[c], known[c], commit, BlobOf(blobs, c));
      var kept := if told.entries != [] || told.deletes != [] then blobs - {c} else blobs;
      ghost var heard := if c in kept then known[c] else RowsAfter(committed[c], commit);
      LayerMoves(schemas, committed, known, blobs, byCls.Keys, c, RowsAfter(committed[c], commit), heard, kept, byCls.Keys);
      blobs, known, committed := kept, known[c := heard], committed[c := RowsAfter(committed[c], commit)];
      StillCurrent(c);
    }

    /** A whole commit of one class: refused by the check, lost in P2, or folded. */
    method Commit(c: Cls, commit: IndexCommit, gens: seq<Generation>, durable: bool) returns (ok: bool)
      requires Valid() && c in schemas && Holds(schemas[c], fills[c], gens, committed[c]) && CommitOk(schemas[c], commit)
      modifies this, Footprint()
      ensures Valid()
      ensures committed == if ok then old(committed)[c := RowsAfter(old(committed)[c], commit)] else old(committed)
      ensures ok <==> (durable && (schemas[c].uniqueFields == {} || commit.entries == []
                                   || (old(c in byCls || HasBlob(c) || Buildable(schemas[c], fills[c], gens))
                                       && Unclashing(schemas[c], old(committed)[c], commit))))
      ensures durable && c in old(byCls) ==> (ok <==> old(Passes(schemas[c], byCls[c].View(), commit)))
    {
      hide Exact, BlobExact, CommittedOk, ClassIndexes.Valid, Passes, CommitOk, Holds, Buildable, Unclashing;
      if c in byCls {
        assert Current(c);
      }
      var checked, failed := CheckUnique(c, commit, gens);
      ok := checked && durable;
      if ok {
        Apply(c, commit);
      }
    }

    /** What the sidecar keeps of the built indexes: enough to open the next session with. */
    method DumpForCache() returns (out: map<Cls, Blob>)
      requires Valid()
      ensures out.Keys == byCls.Keys
      ensures forall c :: c in out ==> c in schemas && out[c].schema == schemas[c] && BlobExact(out[c], known[c])
      ensures LayerOk(schemas, committed, KnownFrom(committed, known, out.Keys), out, {})
    {
      hide BlobExact, Exact, LayerOk, Apart, AllCurrent, ClassIndexes.Valid;
      out := map[];
      var todo := byCls.Keys;
      while todo != {}
        invariant Valid() && todo <= byCls.Keys && out.Keys == byCls.Keys - todo
        invariant forall c :: c in out ==> out[c].schema == schemas[c] && BlobExact(out[c], known[c])
        decreases todo
      {
        var c :| c in todo;
        todo := todo - {c};
        CurrentNow(c);
        label Before:
        var b := byCls[c].Dump();
        StillValid@Before();
        DumpExact(schemas[c], byCls[c].View(), known[c], b);
        out := out[c := b];
      }
      Reopens(schemas, committed, known, blobs, byCls.Keys, out);
    }
  }

  lemma ExactExtent(s: Schema, v: View, rows: Rows)
    requires Exact(s, v, rows)
    ensures v.extent == rows.Keys
  {
  }

  lemma NothingMissed(s: Schema, a: Rows, b: Rows)
    requires CommittedOk(s, a) && CommittedOk(s, b) && a.Keys == b.Keys && (s.Maintained() != {} ==> a == b)
    ensures a == b
  {
    if s.Maintained() == {} {
      forall o | o in a
        ensures a[o] == b[o]
      {
        assert WellTyped(s, a[o]) && WellTyped(s, b[o]);
        assert a[o] == map[] == b[o];
      }
    }
  }

  lemma ExactIffNothingMissed(s: Schema, v: View, committed: Rows, known: Rows)
    requires Exact(s, v, known) && CommittedOk(s, committed) && CommittedOk(s, known) && known.Keys <= committed.Keys
    requires s.Maintained() != {} ==> known == committed
    ensures Exact(s, v, committed) <==> committed.Keys - known.Keys == {}
  {
    hide Exact, CommittedOk;
    ExactExtent(s, v, known);
    if committed.Keys - known.Keys == {} {
      assert forall o :: o in committed.Keys ==> o !in committed.Keys - known.Keys;
      assert known.Keys == committed.Keys;
      NothingMissed(s, known, committed);
    } else if Exact(s, v, committed) {
      ExactExtent(s, v, committed);
      assert false;
    }
  }

  lemma ToldOk(s: Schema, commit: IndexCommit)
    requires CommitOk(s, commit)
    ensures CommitOk(s, Told(s, commit)) && Told(s, commit).deletes == commit.deletes
    ensures s.Maintained() == {} ==> Told(s, commit).entries == [] && s.uniqueFields == {}
    ensures s.Maintained() != {} ==> Told(s, commit) == commit
  {
  }

  lemma RowsAfterKeys(s: Schema, rows: Rows, commit: IndexCommit)
    requires CommitOk(s, commit)
    ensures RowsAfter(rows, commit).Keys == rows.Keys + OidsOfEntries(commit.entries) - ToSet(commit.deletes)
  {
    RowsAfterEntriesLookup(rows, commit.entries);
    hide RowsAfterEntries, OidsOfEntries, WellTyped;
  }

  lemma EntriesApart(s: Schema, commit: IndexCommit)
    requires CommitOk(s, commit)
    ensures OidsOfEntries(commit.entries) !! ToSet(commit.deletes)
  {
    hide WellTyped;
  }

  /** What the index layer hears leaves it knowing some of the committed rows still. */
  lemma UntoldRows(s: Schema, known: Rows, committed: Rows, commit: IndexCommit)
    requires CommitOk(s, commit) && known.Keys <= committed.Keys
    ensures RowsAfter(committed, commit).Keys == committed.Keys + OidsOfEntries(commit.entries) - ToSet(commit.deletes)
    ensures s.Maintained() == {} ==> RowsAfter(known, Told(s, commit)).Keys == known.Keys - ToSet(commit.deletes)
    ensures s.Maintained() == {} ==> OidsOfEntries(commit.entries) !! ToSet(commit.deletes)
    ensures RowsAfter(known, Told(s, commit)).Keys <= RowsAfter(committed, commit).Keys
  {
    ToldOk(s, commit);
    EntriesApart(s, commit);
    RowsAfterKeys(s, committed, commit);
    RowsAfterKeys(s, known, Told(s, commit));
    assert OidsOfEntries([]) == {};
    hide RowsAfter, CommitOk, Told, Schema.Maintained, OidsOfEntries;
  }

  lemma ToldPasses(ci: ClassIndexes, commit: IndexCommit)
    requires ci.Valid() && Passes(ci.s, ci.View(), commit)
    ensures Passes(ci.s, ci.View(), Told(ci.s, commit))
  {
    ToldOk(ci.s, commit);
    if ci.s.Maintained() == {} {
      NothingClaimed(ci, Told(ci.s, commit));
    }
  }

  lemma CommittedAfter(s: Schema, committed: Rows, known: Rows, commit: IndexCommit)
    requires CommittedOk(s, committed) && CommitOk(s, commit)
    requires CommittedOk(s, known) && (s.Maintained() != {} ==> known == RowsAfter(committed, commit))
    ensures CommittedOk(s, RowsAfter(committed, commit))
  {
    if s.Maintained() == {} {
      ToldOk(s, commit);
      UncheckedRows(s, committed, commit);
    }
  }

  lemma LoadableBlob(s: Schema, rows: Rows)
    requires CommittedOk(s, rows)
    ensures RowsOk(s, rows) && forall f :: f in s.uniqueFields ==> NoSharedKey(rows, f)
  {
  }

  lemma BuildableTypes(s: Schema, fills: Row, gens: seq<Generation>, rows: Rows)
    requires Holds(s, fills, gens, rows)
    ensures EachOidOnce(gens) && Typed(s, fills, gens) && LineageRows(s, fills, gens, rows)
  {
  }

  lemma LoadedExact(ci: ClassIndexes)
    requires ci.Valid() && ci.deferred && !ci.building
    ensures Exact(ci.s, ci.View(), ci.rows)
  {
  }

  lemma DumpExact(s: Schema, v: View, rows: Rows, b: Blob)
    requires Exact(s, v, rows) && b == Blob(s, v.extent, v.eq, v.unique)
    ensures BlobExact(b, rows)
  {
  }

  /** A class without unique fields, or a commit without entries, needs no check. */
  lemma UncheckedRows(s: Schema, rows: Rows, commit: IndexCommit)
    requires CommittedOk(s, rows) && CommitOk(s, commit) && (s.uniqueFields == {} || commit.entries == [])
    ensures CommittedOk(s, RowsAfter(rows, commit))
    ensures commit.entries == [] && commit.deletes == [] ==> RowsAfter(rows, commit) == rows
  {
    RowsAfterEntriesLookup(rows, commit.entries);
    var after := RowsAfter(rows, commit);
    forall o | o in after
      ensures WellTyped(s, after[o])
    {
      if o in OidsOfEntries(commit.entries) {
        var i :| 0 <= i < |commit.entries| && commit.entries[i].0 == o;
      }
    }
    forall f | f in s.uniqueFields
      ensures NoSharedKey(after, f)
    {
      assert NoSharedKey(rows, f);
      assert forall o :: o in after ==> KeyAt(after, o, f) == KeyAt(rows, o, f);
    }
  }

  method InsertEach(ci: ClassIndexes, entries: seq<(Oid, Row)>)
    requires ci.Valid() && !ci.building && ci.s.Ok() && ShapeOk(ci.s, ci.View())
    requires forall i :: 0 <= i < |entries| ==> ci.s.Maintained() == entries[i].1.Keys && WellTyped(ci.s, entries[i].1)
    modifies ci
    ensures ci.Valid() && !ci.building && ci.rows == RowsAfterEntries(old(ci.rows), entries)
    ensures ci.View() == AfterEntries(ci.s, old(ci.View()), old(ci.rows), entries)
  {
    hide ClassIndexes.Valid, Inserted, WellTyped, ShapeOk;
    ghost var v, rows := ci.View(), ci.rows;
    for i := 0 to |entries|
      invariant ci.Valid() && !ci.building
      invariant ci.rows == RowsAfterEntries(rows, entries[..i])
      invariant ci.View() == AfterEntries(ci.s, v, rows, entries[..i])
    {
      assert entries[..i + 1][..i] == entries[..i];
      ci.Insert(entries[i].0, entries[i].1);
    }
    assert entries[..|entries|] == entries;
  }

  method RemoveEach(ci: ClassIndexes, deletes: seq<Oid>)
    requires ci.Valid() && !ci.building && ShapeOk(ci.s, ci.View())
    modifies ci
    ensures ci.Valid() && !ci.building && ci.rows == old(ci.rows) - ToSet(deletes)
    ensures ci.View() == AfterDeletes(ci.s, old(ci.View()), old(ci.rows), deletes)
  {
    hide ClassIndexes.Valid, Removed, ShapeOk;
    ghost var v, rows := ci.View(), ci.rows;
    assert rows - ToSet(deletes[..0]) == rows;
    for i := 0 to |deletes|
      invariant ci.Valid() && !ci.building
      invariant ci.rows == rows - ToSet(deletes[..i])
      invariant ci.View() == AfterDeletes(ci.s, v, rows, deletes[..i])
    {
      assert deletes[..i + 1][..i] == deletes[..i];
      assert deletes[..i + 1] == deletes[..i] + [deletes[i]];
      ci.Remove(deletes[i]);
    }
    assert deletes[..|deletes|] == deletes;
  }

  /** Entries first, then deletes. */
  method FoldInto(ci: ClassIndexes, commit: IndexCommit)
    requires ci.Valid() && !ci.building && Exact(ci.s, ci.View(), ci.rows) && Passes(ci.s, ci.View(), commit)
    modifies ci
    ensures ci.Valid() && !ci.building && ci.rows == RowsAfter(old(ci.rows), commit)
    ensures Exact(ci.s, ci.View(), ci.rows)
  {
    hide Exact, UniqueOk, ClassIndexes.Valid, WellTyped, ShapeOk, AfterEntries, AfterDeletes, RowsAfterEntries;
    ghost var v, rows := ci.View(), ci.rows;
    ValidShape(ci);
    EntriesShape(ci.s, commit);
    InsertEach(ci, commit.entries);
    ValidShape(ci);
    RemoveEach(ci, commit.deletes);
    CommitKeepsExact(ci.s, v, rows, commit);
  }

  lemma ValidShape(ci: ClassIndexes)
    requires ci.Valid()
    ensures ci.s.Ok() && ShapeOk(ci.s, ci.View())
  {
  }

  lemma EntriesShape(s: Schema, commit: IndexCommit)
    requires CommitOk(s, commit)
    ensures forall i :: 0 <= i < |commit.entries| ==> s.Maintained() == commit.entries[i].1.Keys
  {
  }

  lemma NothingClaimed(ci: ClassIndexes, commit: IndexCommit)
    requires ci.Valid() && CommitOk(ci.s, commit) && (ci.s.uniqueFields == {} || commit.entries == [])
    ensures Passes(ci.s, ci.View(), commit)
  {
  }

  ghost predicate ClaimedBefore(commit: IndexCommit, f: Field, k: Key, i: nat)
    requires i <= |commit.entries|
  {
    k != Null && exists j :: 0 <= j < i && Claim(commit, f, j) == k
  }

  /** `seen` holds the claims of the first `i` entries; of one more entry for the fields outside `todo`. */
  ghost predicate SeenIs(seen: map<(Field, Key), Oid>, fields: set<Field>, todo: set<Field>, commit: IndexCommit, i: nat)
    requires i < |commit.entries|
  {
    && (forall f, k :: (f, k) in seen <==> f in fields && ClaimedBefore(commit, f, k, if f in todo then i else i + 1))
    && (forall f, k :: (f, k) in seen ==> seen[(f, k)] in OidsOfEntries(commit.entries[..if f in todo then i else i + 1]))
  }

  /** One entry's claims, field by field. */
  method EntryUnclaimed(ci: ClassIndexes, commit: IndexCommit, i: nat, claimed: map<(Field, Key), Oid>)
    returns (ok: bool, seen: map<(Field, Key), Oid>)
    requires ShapeOk(ci.s, ci.View()) && CommitOk(ci.s, commit) && i < |commit.entries|
    requires SeenIs(claimed, ci.s.uniqueFields, ci.s.uniqueFields, commit, i)
    ensures ok <==> forall f :: f in ci.s.uniqueFields ==> ClaimOk(ci.s, ci.View(), commit, f, i)
    ensures ok ==> SeenIs(seen, ci.s.uniqueFields, {}, commit, i)
  {
    var (oid, row) := commit.entries[i];
    assert WellTyped(ci.s, row);
    var todo := ci.s.uniqueFields;
    seen := claimed;
    assert oid !in OidsOfEntries(commit.entries[..i]) by {
      OneMoreOid(commit, i + 1);
    }
    while todo != {}
      invariant todo <= ci.s.uniqueFields
      invariant forall f :: f in ci.s.uniqueFields - todo ==> ClaimOk(ci.s, ci.View(), commit, f, i)
      invariant SeenIs(seen, ci.s.uniqueFields, todo, commit, i)
      decreases todo
    {
      var f :| f in todo;
      var k := UniqueKey(row[f]);
      if k != Null {
        if k in ci.unique[f] && ci.unique[f][k] !in commit.deletes && ci.unique[f][k] != oid {
          assert !ClaimOk(ci.s, ci.View(), commit, f, i);
          return false, seen;
        }
        if (f, k) in seen && seen[(f, k)] != oid {
          assert !ClaimOk(ci.s, ci.View(), commit, f, i);
          return false, seen;
        }
        SeenOneMore(ci.s, seen, ci.s.uniqueFields, todo, commit, i, f, oid);
        seen := seen[(f, k) := oid];
      } else {
        SeenOneMore(ci.s, seen, ci.s.uniqueFields, todo, commit, i, f, oid);
      }
      todo := todo - {f};
    }
    ok := true;
  }

  lemma SeenOneMore(s: Schema, seen: map<(Field, Key), Oid>, fields: set<Field>, todo: set<Field>, commit: IndexCommit, i: nat, f: Field, oid: Oid)
    requires i < |commit.entries| && SeenIs(seen, fields, todo, commit, i) && f in todo && todo <= fields
    requires CommitOk(s, commit) && oid == commit.entries[i].0
    ensures var k := Claim(commit, f, i);
      SeenIs(if k == Null then seen else seen[(f, k) := oid], fields, todo - {f}, commit, i)
  {
    OneMoreOid(commit, i + 1);
    forall k
      ensures ClaimedBefore(commit, f, k, i + 1) <==> ClaimedBefore(commit, f, k, i) || (k != Null && k == Claim(commit, f, i))
    {
    }
  }

  /** The claims of a commit, entry by entry, against the holders and against each other. */
  method Unclaimed(ci: ClassIndexes, commit: IndexCommit) returns (ok: bool)
    requires ci.Valid() && CommitOk(ci.s, commit)
    ensures ok <==> Passes(ci.s, ci.View(), commit)
  {
    hide ClassIndexes.Valid, ClaimOk, SeenIs, ClaimedBefore, CommitOk, ShapeOk;
    ValidShape(ci);
    var seen: map<(Field, Key), Oid> := map[];
    if commit.entries != [] {
      NothingSeen(commit, ci.s.uniqueFields);
    }
    for i := 0 to |commit.entries|
      invariant forall f, j :: f in ci.s.uniqueFields && 0 <= j < i ==> ClaimOk(ci.s, ci.View(), commit, f, j)
      invariant i < |commit.entries| ==> SeenIs(seen, ci.s.uniqueFields, ci.s.uniqueFields, commit, i)
    {
      ok, seen := EntryUnclaimed(ci, commit, i, seen);
      if !ok {
        return false;
      }
      if i + 1 < |commit.entries| {
        NextEntry(seen, ci.s.uniqueFields, commit, i);
      }
    }
    ok := true;
  }

  lemma NothingSeen(commit: IndexCommit, fields: set<Field>)
    requires commit.entries != []
    ensures SeenIs(map[], fields, fields, commit, 0)
  {
  }

  lemma NextEntry(seen: map<(Field, Key), Oid>, fields: set<Field>, commit: IndexCommit, i: nat)
    requires i + 1 < |commit.entries| && SeenIs(seen, fields, {}, commit, i)
    ensures SeenIs(seen, fields, fields, commit, i + 1)
  {
  }
}
