/**
 The reverse-reference index: which records point at an OID. Folded per commit from each referrer's
 old and new targets, cached without the memory that the folding needs, and consulted before a commit
 to name the references its deletes would leave dangling.
 */
module ReverseIndexes {
  import opened Wire
  import opened Values

  /** What each record refers to, as committed. */
  type Edges = map<Oid, set<Oid>>
  /** Target to referrers; a missing posting counts as empty. */
  type Postings = map<Oid, set<Oid>>

  function At(m: map<Oid, set<Oid>>, o: Oid): set<Oid> {
    if o in m then m[o] else {}
  }

  ghost predicate Points(edges: Edges, referrer: Oid, target: Oid) {
    target in At(edges, referrer)
  }

  /** The postings are the edges, reversed. */
  ghost predicate Reverses(rev: Postings, edges: Edges) {
    forall t, r {:trigger r in At(rev, t)} {:trigger Points(edges, r, t)} :: r in At(rev, t) <==> Points(edges, r, t)
  }

  ghost predicate SameTargets(refs: Edges, edges: Edges) {
    forall r :: At(refs, r) == At(edges, r)
  }

  /** What a commit does to the edges: the targets of its upserted records, and its deletes. */
  datatype RefCommit = RefCommit(upserts: seq<(Oid, set<Oid>)>, deletes: seq<Oid>, indexed: bool)

  ghost predicate CommitOk(c: RefCommit) {
    && (forall i, j :: 0 <= i < j < |c.upserts| ==> c.upserts[i].0 != c.upserts[j].0)
    && (forall i :: 0 <= i < |c.upserts| ==> c.upserts[i].0 !in c.deletes)
  }

  function Upserted(edges: Edges, ups: seq<(Oid, set<Oid>)>): Edges {
    if ups == [] then edges else Upserted(edges, ups[..|ups| - 1])[ups[|ups| - 1].0 := ups[|ups| - 1].1]
  }

  function EdgesAfter(edges: Edges, c: RefCommit): Edges {
    Upserted(edges, c.upserts) - ToSet(c.deletes)
  }

  /** After a commit every upserted record refers to what it was upserted with, a deleted one to nothing, and
      every other to what it did. */
  lemma {:induction false} UpsertedMeans(edges: Edges, ups: seq<(Oid, set<Oid>)>, o: Oid)
    requires forall i, j :: 0 <= i < j < |ups| ==> ups[i].0 != ups[j].0
    ensures forall i :: 0 <= i < |ups| && ups[i].0 == o ==> o in Upserted(edges, ups) && Upserted(edges, ups)[o] == ups[i].1
    ensures (forall i :: 0 <= i < |ups| ==> ups[i].0 != o) ==>
      (o in Upserted(edges, ups) <==> o in edges) && (o in edges ==> Upserted(edges, ups)[o] == edges[o])
  {
    if ups != [] {
      var front := ups[..|ups| - 1];
      assert forall i :: 0 <= i < |front| ==> front[i] == ups[i];
      UpsertedMeans(edges, front, o);
    }
  }

  lemma EdgesAfterMeans(edges: Edges, c: RefCommit, o: Oid)
    requires CommitOk(c)
    ensures var after := EdgesAfter(edges, c);
      && (o in c.deletes ==> o !in after)
      && (forall i :: 0 <= i < |c.upserts| && c.upserts[i].0 == o ==> o in after && after[o] == c.upserts[i].1)
      && (o !in c.deletes && (forall i :: 0 <= i < |c.upserts| ==> c.upserts[i].0 != o) ==>
            (o in after <==> o in edges) && (o in edges ==> after[o] == edges[o]))
  {
    UpsertedMeans(edges, c.upserts, o);
    hide Upserted;
  }

  /** The surviving records that point at `dead`. */
  ghost function Incoming(edges: Edges, dead: Oid): set<Oid> {
    set r | r in edges && dead in edges[r]
  }

  lemma IncomingIsPosting(rev: Postings, edges: Edges, dead: Oid)
    requires Reverses(rev, edges)
    ensures At(rev, dead) == Incoming(edges, dead)
  {
    forall r
      ensures r in At(rev, dead) <==> r in Incoming(edges, dead)
    {
      assert r in At(rev, dead) <==> Points(edges, r, dead);
    }
  }

  /** Two postings of the same edges agree: folding equals a fresh scan of the surviving records. */
  lemma ReversalIsDetermined(a: Postings, b: Postings, edges: Edges, target: Oid)
    requires Reverses(a, edges) && Reverses(b, edges)
    ensures At(a, target) == At(b, target)
  {
    IncomingIsPosting(a, edges, target);
    IncomingIsPosting(b, edges, target);
  }

  // ----------------------------------------------------------------- one fold

  /** Removes a referrer from the postings of its old targets. */
  method Unlink(rev: Postings, referrer: Oid, targets: set<Oid>) returns (r: Postings)
    ensures forall t :: At(r, t) == At(rev, t) - if t in targets then {referrer} else {}
  {
    r := rev;
    var todo := targets;
    while todo != {}
      invariant todo <= targets
      invariant forall t :: At(r, t) == At(rev, t) - if t in targets - todo then {referrer} else {}
      decreases todo
    {
      var t :| t in todo;
      todo := todo - {t};
      if t in r {
        r := r[t := r[t] - {referrer}];
      }
    }
  }

  method Link(rev: Postings, referrer: Oid, targets: set<Oid>) returns (r: Postings)
    ensures forall t :: At(r, t) == At(rev, t) + if t in targets then {referrer} else {}
  {
    r := rev;
    var todo := targets;
    while todo != {}
      invariant todo <= targets
      invariant forall t :: At(r, t) == At(rev, t) + if t in targets - todo then {referrer} else {}
      decreases todo
    {
      var t :| t in todo;
      todo := todo - {t};
      r := r[t := At(r, t) + {referrer}];
    }
  }

  /** Moving one referrer from its old targets to new ones keeps the postings reversed. */
  lemma RelinkReverses(rev: Postings, mid: Postings, r: Postings, edges: Edges, referrer: Oid, targets: set<Oid>)
    requires Reverses(rev, edges)
    requires forall t :: At(mid, t) == At(rev, t) - if t in At(edges, referrer) then {referrer} else {}
    requires forall t :: At(r, t) == At(mid, t) + if t in targets then {referrer} else {}
    ensures Reverses(r, edges[referrer := targets])
  {
    forall t, p
      ensures p in At(r, t) <==> Points(edges[referrer := targets], p, t)
    {
      assert p in At(rev, t) <==> Points(edges, p, t);
    }
  }

  lemma UnlinkReverses(rev: Postings, r: Postings, edges: Edges, referrer: Oid)
    requires Reverses(rev, edges)
    requires forall t :: At(r, t) == At(rev, t) - if t in At(edges, referrer) then {referrer} else {}
    ensures Reverses(r, edges - {referrer})
  {
    forall t, p
      ensures p in At(r, t) <==> Points(edges - {referrer}, p, t)
    {
      assert p in At(rev, t) <==> Points(edges, p, t);
    }
  }

  // -------------------------------------------------------------- the index

  class ReverseIndex {
    var rev: Option<Postings>
    var refs: Edges
    var dirty: bool
    var blob: Option<Postings>
    /** What the committed records refer to. */
    ghost var edges: Edges

    ghost predicate Valid()
      reads this
    {
      && (rev.Some? ==> Reverses(rev.value, edges) && (dirty || SameTargets(refs, edges)))
      && (rev.None? && blob.Some? ==> Reverses(blob.value, edges))
    }

    constructor (cached: Option<Postings>, ghost committed: Edges)
      requires cached.Some? ==> Reverses(cached.value, committed)
      ensures Valid() && rev == None && !dirty && blob == cached && edges == committed
    {
      rev, refs, dirty, blob, edges := None, map[], false, cached, committed;
    }

    /** The postings, from memory, from the cache, or from one scan that decodes every record. */
    method Ensure(records: map<Oid, seq<Stored>>)
      requires Valid() && records.Keys == edges.Keys && forall o :: o in records ==> StoredRefsOfAll(records[o]) == edges[o]
      modifies this`rev, this`refs, this`dirty, this`blob
      ensures Valid() && rev.Some? && Reverses(rev.value, edges)
      ensures old(rev).Some? ==> rev == old(rev) && refs == old(refs) && dirty == old(dirty)
      ensures old(rev).None? && old(blob).Some? ==> rev == old(blob) && dirty && blob == None
      ensures old(rev).None? && old(blob).None? ==> !dirty && SameTargets(refs, edges)
    {
      if rev.Some? {
        return;
      }
      if blob.Some? {
        rev, refs, dirty, blob := blob, map[], true, None;
        return;
      }
      var postings, memory := Scan(records, edges);
      rev, refs := Some(postings), memory;
      dirty := false;
    }

    /** The referrer-to-targets memory, by inverting the postings. */
    method RebuildRefs()
      requires Valid() && rev.Some?
      modifies this`refs, this`dirty
      ensures Valid() && !dirty
    {
      refs := Invert(rev.value, edges);
      dirty := false;
    }

    /** P3 for one commit. An unbuilt index learns nothing, but its cached blob is dropped when the commit
        touches an indexed class or deletes. The index stays true to the edges exactly unless it keeps a
        blob across a commit that changed some record's targets. */
    method Fold(c: RefCommit)
      requires Valid() && CommitOk(c)
      modifies this
      ensures edges == EdgesAfter(old(edges), c)
      ensures rev.Some? <==> old(rev).Some?
      ensures Valid() <==>
        old(rev).Some? || old(blob).None? || c.indexed || c.deletes != [] || SameTargets(EdgesAfter(old(edges), c), old(edges))
    {
      hide Reverses, SameTargets;
      if rev.None? {
        if c.indexed || c.deletes != [] {
          blob := None;
        }
        if blob.Some? {
          KeptBlobIff(blob.value, edges, c);
        }
        edges := EdgesAfter(edges, c);
        return;
      }
      if dirty {
        RebuildRefs();
      }
      ghost var before := edges;
      for i := 0 to |c.upserts|
        invariant rev.Some? && !dirty && Reverses(rev.value, edges) && SameTargets(refs, edges)
        invariant edges == Upserted(before, c.upserts[..i])
      {
        assert c.upserts[..i + 1][..i] == c.upserts[..i];
        FoldUpsert(c.upserts[i].0, c.upserts[i].1);
      }
      assert c.upserts[..|c.upserts|] == c.upserts;
      ghost var mid := edges;
      assert mid - ToSet(c.deletes[..0]) == mid;
      for i := 0 to |c.deletes|
        invariant rev.Some? && !dirty && Reverses(rev.value, edges) && SameTargets(refs, edges)
        invariant edges == mid - ToSet(c.deletes[..i])
      {
        assert c.deletes[..i + 1] == c.deletes[..i] + [c.deletes[i]];
        FoldDelete(c.deletes[i]);
      }
      assert c.deletes[..|c.deletes|] == c.deletes;
    }

    method FoldUpsert(referrer: Oid, targets: set<Oid>)
      requires rev.Some? && !dirty && Reverses(rev.value, edges) && SameTargets(refs, edges)
      modifies this`rev, this`refs, this`edges
      ensures rev.Some? && Reverses(rev.value, edges) && SameTargets(refs, edges)
      ensures edges == old(edges)[referrer := targets]
    {
      hide Reverses;
      var start := rev.value;
      var mid := Unlink(start, referrer, At(refs, referrer));
      assert At(refs, referrer) == At(edges, referrer);
      var out := Link(mid, referrer, targets);
      RelinkReverses(start, mid, out, edges, referrer, targets);
      RemembersUpsert(refs, edges, referrer, targets);
      rev := Some(out);
      refs := if targets == {} then refs - {referrer} else refs[referrer := targets];
      edges := edges[referrer := targets];
    }

    /** A deleted record vanishes as a referrer and stays as a target. */
    method FoldDelete(dead: Oid)
      requires rev.Some? && !dirty && Reverses(rev.value, edges) && SameTargets(refs, edges)
      modifies this`rev, this`refs, this`edges
      ensures rev.Some? && Reverses(rev.value, edges) && SameTargets(refs, edges)
      ensures edges == old(edges) - {dead}
    {
      var start := rev.value;
      var out := Unlink(start, dead, At(refs, dead));
      assert At(refs, dead) == At(edges, dead);
      UnlinkReverses(start, out, edges, dead);
      RemembersDelete(refs, edges, dead);
      rev := Some(out);
      refs := refs - {dead};
      edges := edges - {dead};
    }

    /** P1, before the commit number: for every deleted OID that will have them, its dangling referrers. */
    method CheckDanglingDeletes(c: RefCommit, records: map<Oid, seq<Stored>>) returns (flagged: map<Oid, set<Oid>>)
      requires Valid() && CommitOk(c)
      requires records.Keys == edges.Keys && forall o :: o in records ==> StoredRefsOfAll(records[o]) == edges[o]
      modifies this`rev, this`refs, this`dirty, this`blob
      ensures Valid() && rev.Some? && edges == old(edges)
      ensures flagged.Keys == set d | d in c.deletes && Incoming(EdgesAfter(edges, c), d) != {}
      ensures forall d :: d in flagged ==> flagged[d] == Incoming(EdgesAfter(edges, c), d)
    {
      hide Incoming, EdgesAfter, Reverses, CommitOk;
      Ensure(records);
      flagged := map[];
      var postings := rev.value;
      for i := 0 to |c.deletes|
        invariant Valid() && rev == Some(postings) && Reverses(postings, edges) && edges == old(edges)
        invariant flagged.Keys == set d | d in c.deletes[..i] && Incoming(EdgesAfter(edges, c), d) != {}
        invariant forall d :: d in flagged ==> flagged[d] == Incoming(EdgesAfter(edges, c), d)
      {
        var dead := c.deletes[i];
        assert c.deletes[..i + 1] == c.deletes[..i] + [dead];
        IncomingIsPosting(postings, edges, dead);
        var referrers := FutureReferrers(At(postings, dead), c, dead, edges);
        if referrers != {} {
          flagged := flagged[dead := referrers];
        }
      }
      assert c.deletes[..|c.deletes|] == c.deletes;
    }
  }

  lemma RemembersUpsert(refs: Edges, edges: Edges, referrer: Oid, targets: set<Oid>)
    requires SameTargets(refs, edges)
    ensures SameTargets(if targets == {} then refs - {referrer} else refs[referrer := targets], edges[referrer := targets])
  {
    var after := if targets == {} then refs - {referrer} else refs[referrer := targets];
    forall r
      ensures At(after, r) == At(edges[referrer := targets], r)
    {
      assert At(refs, r) == At(edges, r);
    }
  }

  lemma RemembersDelete(refs: Edges, edges: Edges, dead: Oid)
    requires SameTargets(refs, edges)
    ensures SameTargets(refs - {dead}, edges - {dead})
  {
    forall r
      ensures At(refs - {dead}, r) == At(edges - {dead}, r)
    {
      assert At(refs, r) == At(edges, r);
    }
  }

  lemma SameEdgesReverse(rev: Postings, edges: Edges, after: Edges)
    requires Reverses(rev, edges)
    ensures SameTargets(after, edges) ==> Reverses(rev, after)
  {
    if SameTargets(after, edges) {
      forall t, r
        ensures r in At(rev, t) <==> Points(after, r, t)
      {
        assert At(after, r) == At(edges, r);
        assert r in At(rev, t) <==> Points(edges, r, t);
      }
    }
  }

  /** Exactly when a blob kept across a commit still tells the truth: no record changed its targets. */
  lemma KeptBlobIff(rev: Postings, edges: Edges, c: RefCommit)
    requires Reverses(rev, edges)
    ensures Reverses(rev, EdgesAfter(edges, c)) <==> SameTargets(EdgesAfter(edges, c), edges)
  {
    var after := EdgesAfter(edges, c);
    SameEdgesReverse(rev, edges, after);
    if Reverses(rev, after) {
      forall r
        ensures At(after, r) == At(edges, r)
      {
        forall t
          ensures t in At(after, r) <==> t in At(edges, r)
        {
          assert r in At(rev, t) <==> Points(edges, r, t);
          assert r in At(rev, t) <==> Points(after, r, t);
        }
      }
    }
  }

  /** A commit that only upserts records of index-less classes keeps a blob it has made stale. */
  lemma StaleBlobIsReachable()
    ensures var c := RefCommit([(2, {1})], [], false);
      CommitOk(c) && Reverses(map[], map[]) && !Reverses(map[], EdgesAfter(map[], c))
  {
    var c := RefCommit([(2, {1})], [], false);
    assert Upserted(map[], c.upserts[..0]) == map[];
    KeptBlobIff(map[], map[], c);
    assert At(EdgesAfter(map[], c), 2) == {1};
  }

  // --------------------------------------------------------- scans and inverses

  /** One scan: the postings, and the memory of the records that refer to anything. */
  method Scan(records: map<Oid, seq<Stored>>, ghost edges: Edges) returns (rev: Postings, refs: Edges)
    requires records.Keys == edges.Keys && forall o :: o in records ==> StoredRefsOfAll(records[o]) == edges[o]
    ensures Reverses(rev, edges) && SameTargets(refs, edges)
  {
    hide StoredRefsOfAll, Reverses;
    rev, refs := map[], map[];
    var todo := records.Keys;
    ghost var seen: Edges := map[];
    assert Reverses(rev, seen) by {
      NothingPoints();
    }
    while todo != {}
      invariant todo <= records.Keys && seen.Keys == records.Keys - todo && forall o :: o in seen ==> seen[o] == edges[o]
      invariant Reverses(rev, seen)
      invariant forall r :: At(refs, r) == At(seen, r)
      decreases todo
    {
      var o :| o in todo;
      todo := todo - {o};
      var targets := HarvestStored(records[o]);
      ghost var start := rev;
      assert At(seen, o) == {} && At(refs, o) == {};
      if targets != {} {
        refs := refs[o := targets];
        rev := Link(rev, o, targets);
      }
      RelinkReverses(start, start, rev, seen, o, targets);
      forall r
        ensures At(refs, r) == At(seen[o := targets], r)
      {
        assert r != o ==> At(seen[o := targets], r) == At(seen, r);
      }
      seen := seen[o := targets];
    }
    assert seen == edges;
  }

  lemma NothingPoints()
    ensures Reverses(map[], map[])
  {
  }

  /** Inverts the postings back into each referrer's targets. */
  method Invert(rev: Postings, ghost edges: Edges) returns (refs: Edges)
    requires Reverses(rev, edges)
    ensures SameTargets(refs, edges)
  {
    hide Reverses;
    refs := map[];
    var todo := rev.Keys;
    while todo != {}
      invariant todo <= rev.Keys
      invariant forall r :: At(refs, r) == set t | t in rev.Keys - todo && r in At(rev, t)
      decreases todo
    {
      var t :| t in todo;
      ghost var before := refs;
      refs := AddTarget(refs, rev[t], t);
      forall r
        ensures At(refs, r) == set u | u in rev.Keys - (todo - {t}) && r in At(rev, u)
      {
        assert At(before, r) == set u | u in rev.Keys - todo && r in At(rev, u);
      }
      todo := todo - {t};
    }
    InverseOf(rev, edges, refs);
  }

  method AddTarget(refs: Edges, referrers: set<Oid>, t: Oid) returns (out: Edges)
    ensures forall r :: At(out, r) == At(refs, r) + if r in referrers then {t} else {}
  {
    out := refs;
    var todo := referrers;
    while todo != {}
      invariant todo <= referrers
      invariant forall r :: At(out, r) == At(refs, r) + if r in referrers - todo then {t} else {}
      decreases todo
    {
      var r :| r in todo;
      todo := todo - {r};
      out := out[r := At(out, r) + {t}];
    }
  }

  lemma InverseOf(rev: Postings, edges: Edges, refs: Edges)
    requires Reverses(rev, edges) && forall r :: At(refs, r) == set t | t in rev.Keys && r in At(rev, t)
    ensures SameTargets(refs, edges)
  {
    forall r
      ensures At(refs, r) == At(edges, r)
    {
      forall t
        ensures t in At(refs, r) <==> t in At(edges, r)
      {
        assert r in At(rev, t) <==> Points(edges, r, t);
      }
    }
  }

  // ---------------------------------------------------------- dangling deletes

  /** The referrers of `dead` once this commit has folded: the present ones, corrected by the commit's
      own upserts, without the co-deleted. */
  method FutureReferrers(now: set<Oid>, c: RefCommit, dead: Oid, ghost edges: Edges) returns (r: set<Oid>)
    requires CommitOk(c) && now == Incoming(edges, dead)
    ensures r == Incoming(EdgesAfter(edges, c), dead)
  {
    hide CommitOk, Incoming, Upserted;
    r := now;
    UpsertedNone(edges, c);
    for i := 0 to |c.upserts|
      invariant r == Incoming(Upserted(edges, c.upserts[..i]), dead)
    {
      assert c.upserts[..i + 1][..i] == c.upserts[..i];
      UpsertedOnce(edges, c, i);
      IncomingAfterUpsert(Upserted(edges, c.upserts[..i]), c.upserts[i].0, c.upserts[i].1, dead);
      if dead in c.upserts[i].1 {
        r := r + {c.upserts[i].0};
      } else {
        r := r - {c.upserts[i].0};
      }
    }
    assert c.upserts[..|c.upserts|] == c.upserts;
    IncomingAfterDeletes(Upserted(edges, c.upserts), ToSet(c.deletes), dead);
    r := r - ToSet(c.deletes);
  }

  lemma UpsertedNone(edges: Edges, c: RefCommit)
    ensures Upserted(edges, c.upserts[..0]) == edges
  {
  }

  lemma UpsertedOnce(edges: Edges, c: RefCommit, i: nat)
    requires i < |c.upserts|
    ensures Upserted(edges, c.upserts[..i + 1]) == Upserted(edges, c.upserts[..i])[c.upserts[i].0 := c.upserts[i].1]
  {
    assert c.upserts[..i + 1][..i] == c.upserts[..i];
  }

  lemma IncomingAfterUpsert(edges: Edges, referrer: Oid, targets: set<Oid>, dead: Oid)
    ensures Incoming(edges[referrer := targets], dead)
         == if dead in targets then Incoming(edges, dead) + {referrer} else Incoming(edges, dead) - {referrer}
  {
  }

  lemma IncomingAfterDeletes(edges: Edges, deleted: set<Oid>, dead: Oid)
    ensures Incoming(edges - deleted, dead) == Incoming(edges, dead) - deleted
  {
  }
}
