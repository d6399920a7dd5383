/**
 When a commit goes ahead, and what exactly it takes: the verdict of P1 told from the buffers, and the batch
 it makes told entry by entry.
 */
module CommitVerdict {
  import opened Wire
  import opened Commit
  import opened CommitRuns
  import opened ValueRuns

  ghost predicate Waits(y: System, o: Oid) {
    (o in y.store.inserts || o in y.store.dirty) && o !in y.store.deleted
  }

  ghost predicate SomethingWaits(y: System) {
    y.store.deleted != [] || exists o :: Waits(y, o)
  }

  /** No entity with a buffered store or write is deleted. */
  ghost predicate NoneIsDeleted(y: System) {
    forall o :: o in y.store.inserts || o in y.store.dirty ==> o in y.store.live && y.store.live[o].life != Deleted
  }

  ghost predicate AllEncodable(y: System) {
    forall o :: Waits(y, o) ==> o in y.store.live && y.store.live[o].value.encodable
  }

  /** Everything whose prior a consumer must be told has a durable record. */
  ghost predicate PriorsDurable(y: System) {
    && (forall o :: Waits(y, o) && o !in y.store.inserts ==> o in y.backend.objects)
    && (forall o :: o in y.store.deleted ==> o in y.backend.objects)
  }

  ghost predicate Committable(y: System) {
    SomethingWaits(y) && NoneIsDeleted(y) && AllEncodable(y) && (y.watched ==> PriorsDurable(y))
  }

  lemma {:induction false} EncodesIff(l: Lineage, live: map<Oid, Entity>, oids: seq<Oid>)
    requires forall o :: o in oids ==> o in live
    ensures Encode(l, live, oids).ok <==> forall o :: o in oids ==> live[o].value.encodable
  {
    hide CidFor, AddRow;
    if oids != [] {
      var front, o := oids[..|oids| - 1], oids[|oids| - 1];
      assert oids == front + [o];
      EncodesIff(l, live, front);
    }
  }

  lemma PendingWaits(y: System)
    ensures forall o :: o in Pending(y.store) <==> Waits(y, o)
    ensures Pending(y.store) == [] <==> forall o :: !Waits(y, o)
  {
    PendingMembers(y.store);
    hide Pending;
    if Pending(y.store) != [] {
      assert Pending(y.store)[0] in Pending(y.store);
    }
  }

  lemma Encodable(y: System)
    requires BuffersOk(y)
    ensures forall o :: o in Pending(y.store) ==> o in y.store.live
    ensures Encode(y.store.lineage, y.store.live, Pending(y.store)).ok
      <==> AllEncodable(y)
  {
    PendingWaits(y);
    BufferedLive(y);
    hide BuffersOk, Encode, Pending;
    EncodesIff(y.store.lineage, y.store.live, Pending(y.store));
  }

  lemma PriorsMean(y: System)
    ensures PriorsReadable(y.backend.objects, Pending(y.store), y.store.inserts, y.store.deleted) <==> PriorsDurable(y)
  {
    PendingWaits(y);
    hide Pending, Waits;
  }

  lemma NoneDeleted(y: System)
    requires BuffersOk(y)
    ensures !HoldsDeleted(y.store) <==> NoneIsDeleted(y)
  {
    BufferedLive(y);
    DeletedHeld(y.store);
    hide BuffersOk, HoldsDeleted;
  }

  /** The tests of P1, told from the buffers. */
  lemma TestsMean(y: System)
    requires BuffersOk(y)
    ensures forall o :: o in Pending(y.store) ==> o in y.store.live
    ensures Committable(y) <==>
      && !HoldsDeleted(y.store) && !(Pending(y.store) == [] && y.store.deleted == [])
      && Encode(y.store.lineage, y.store.live, Pending(y.store)).ok
      && (y.watched ==> PriorsReadable(y.backend.objects, Pending(y.store), y.store.inserts, y.store.deleted))
  {
    PendingWaits(y);
    Encodable(y);
    PriorsMean(y);
    NoneDeleted(y);
    hide BuffersOk, Encode, Pending, HoldsDeleted, PriorsReadable, Waits, NoneIsDeleted, AllEncodable, PriorsDurable;
  }

  lemma DeletedHeld(s: StoreState)
    ensures HoldsDeleted(s) <==> exists o :: (o in s.inserts || o in s.dirty) && o in s.live && s.live[o].life == Deleted
  {
    assert forall o :: o in s.inserts + s.dirty <==> o in s.inserts || o in s.dirty;
  }

  /** P1 goes ahead exactly when no validator objects and the buffers are committable. Otherwise nothing has
      changed, but for class ids it may have handed out. */
  lemma CommitsIff(y: System, veto: bool, actor: nat, at: int)
    requires Inv(y) && y.flight == None
    ensures var z := Exec(y, DoP1(veto, actor, at));
      && (z.flight != None <==> !veto && Committable(y))
      && (z.flight == None ==> z == y.(store := y.store.(lineage := z.store.lineage)))
  {
    assert BuffersOk(y);
    TestsMean(y);
    P1Cases(y, veto, actor, at);
    hide Inv, BuffersOk, Exec, Encode, Pending, MakeCapture, Committable, HoldsDeleted, PriorsReadable;
  }

  lemma BufferedLive(y: System)
    requires BuffersOk(y)
    ensures forall o :: o in y.store.inserts || o in y.store.dirty ==> o in y.store.live
  {
  }

  // -------------------------------------------------------------------- its batch

  ghost predicate Precedes(s: seq<Oid>, a: Oid, b: Oid) {
    exists p, q :: 0 <= p < q < |s| && s[p] == a && s[q] == b
  }

  /** New entities before written ones, each in the order they were buffered in. */
  ghost predicate First(y: System, a: Oid, b: Oid) {
    || (a in y.store.inserts && b !in y.store.inserts)
    || Precedes(y.store.inserts, a, b)
    || (a !in y.store.inserts && b !in y.store.inserts && Precedes(y.store.dirty, a, b))
  }

  lemma {:induction false} WithoutOrder(s: seq<Oid>, gone: set<Oid>, i: nat, j: nat)
    requires i < j < |Without(s, gone)|
    ensures Precedes(s, Without(s, gone)[i], Without(s, gone)[j])
  {
    var front, last := s[..|s| - 1], s[|s| - 1];
    var kept := Without(front, gone);
    if j < |kept| {
      WithoutOrder(front, gone, i, j);
      var p, q :| 0 <= p < q < |front| && front[p] == kept[i] && front[q] == kept[j];
      assert s[p] == kept[i] && s[q] == kept[j];
    } else {
      assert kept[i] in kept;
      var p :| 0 <= p < |front| && front[p] == kept[i];
      assert s[p] == kept[i] && s[|s| - 1] == last;
    }
  }

  lemma {:induction false} PutEachAppends(s: seq<Oid>, os: seq<Oid>)
    requires NoDup(os)
    ensures PutEach(s, os) == s + Without(os, ToSet(s))
  {
    if os == [] {
      assert s + [] == s;
    } else {
      var front, last := os[..|os| - 1], os[|os| - 1];
      assert os == front + [last];
      PutEachAppends(s, front);
      assert last !in front by {
        assert forall i :: 0 <= i < |front| ==> front[i] == os[i];
      }
    }
  }

  lemma {:induction false} WithoutConcat(a: seq<Oid>, b: seq<Oid>, gone: set<Oid>)
    ensures Without(a + b, gone) == Without(a, gone) + Without(b, gone)
  {
    if b == [] {
      assert a + b == a;
    } else {
      var front, last := b[..|b| - 1], b[|b| - 1];
      assert (a + b)[..|a + b| - 1] == a + front && (a + b)[|a + b| - 1] == last;
      WithoutConcat(a, front, gone);
    }
  }

  lemma {:induction false} WithoutTwice(s: seq<Oid>, a: set<Oid>, b: set<Oid>)
    ensures Without(Without(s, a), b) == Without(s, a + b)
  {
    if s != [] {
      var front, o := s[..|s| - 1], s[|s| - 1];
      WithoutTwice(front, a, b);
      if o !in a {
        assert (Without(front, a) + [o])[..|Without(front, a)|] == Without(front, a);
      }
    }
  }

  /** The entities a capture takes: those of the first buffer, then those only in the second. */
  lemma PendingIs(s: StoreState)
    requires NoDup(s.dirty)
    ensures Pending(s) == Without(s.inserts, ToSet(s.deleted)) + Without(s.dirty, ToSet(s.inserts) + ToSet(s.deleted))
  {
    PutEachAppends(s.inserts, s.dirty);
    WithoutConcat(s.inserts, Without(s.dirty, ToSet(s.inserts)), ToSet(s.deleted));
    WithoutTwice(s.dirty, ToSet(s.inserts), ToSet(s.deleted));
    hide Without, PutEach;
  }

  lemma BothNew(y: System, news: seq<Oid>, gone: set<Oid>, i: nat, j: nat)
    requires news == Without(y.store.inserts, gone) && i < j < |news|
    ensures First(y, news[i], news[j])
  {
    WithoutOrder(y.store.inserts, gone, i, j);
    hide Precedes, Without;
  }

  lemma BothOld(y: System, olds: seq<Oid>, gone: set<Oid>, i: nat, j: nat)
    requires olds == Without(y.store.dirty, ToSet(y.store.inserts) + gone) && i < j < |olds|
    ensures First(y, olds[i], olds[j])
  {
    WithoutOrder(y.store.dirty, ToSet(y.store.inserts) + gone, i, j);
    hide Precedes, Without;
    assert olds[i] in olds && olds[j] in olds;
  }

  lemma NewThenOld(y: System, news: seq<Oid>, olds: seq<Oid>, gone: set<Oid>, i: nat, j: nat)
    requires news == Without(y.store.inserts, gone) && olds == Without(y.store.dirty, ToSet(y.store.inserts) + gone)
    requires i < |news| && j < |olds|
    ensures First(y, news[i], olds[j])
  {
    hide Precedes, Without;
    assert news[i] in news && olds[j] in olds;
  }

  lemma OrderOf(y: System, pending: seq<Oid>, news: seq<Oid>, olds: seq<Oid>, gone: set<Oid>, i: nat, j: nat)
    requires news == Without(y.store.inserts, gone) && olds == Without(y.store.dirty, ToSet(y.store.inserts) + gone)
    requires pending == news + olds && i < j < |pending|
    ensures First(y, pending[i], pending[j])
  {
    hide First, Without;
    var n := |news|;
    if j < n {
      BothNew(y, news, gone, i, j);
    } else if i < n {
      NewThenOld(y, news, olds, gone, i, j - n);
    } else {
      BothOld(y, olds, gone, i - n, j - n);
    }
  }

  lemma PendingOrder(y: System, i: nat, j: nat)
    requires NoDup(y.store.dirty) && i < j < |Pending(y.store)|
    ensures First(y, Pending(y.store)[i], Pending(y.store)[j])
  {
    var gone := ToSet(y.store.deleted);
    PendingIs(y.store);
    OrderOf(y, Pending(y.store), Without(y.store.inserts, gone), Without(y.store.dirty, ToSet(y.store.inserts) + gone), gone, i, j);
    hide First, Without, Pending, NoDup, ToSet;
  }

  /** One record for each entity that waits, in the order of the buffers. */
  ghost predicate TakesWaiting(y: System, c: Capture) {
    && (forall o :: Waits(y, o) <==> exists i :: 0 <= i < |c.batch.records| && c.batch.records[i].oid == o)
    && (forall i, j :: 0 <= i < j < |c.batch.records| ==>
          c.batch.records[i].oid != c.batch.records[j].oid && First(y, c.batch.records[i].oid, c.batch.records[j].oid))
  }

  /** The buffered deletions, the counters and the root as they stand, and a delta for a consumer. */
  ghost predicate TakesRest(y: System, c: Capture, actor: nat, at: int) {
    && c.batch.deletes == c.deletes == y.store.deleted
    && c.tid == c.batch.tid == y.store.nextTid
    && c.batch.meta.nextOid == y.store.nextOid && c.batch.meta.nextTid == c.tid + 1 && c.batch.meta.root == y.store.root
    && (c.delta != None <==> y.watched)
    && (y.watched ==> c.delta.value.actor == actor && c.delta.value.at == at)
  }

  lemma CaptureIsExact(y: System, veto: bool, actor: nat, at: int)
    requires Inv(y) && y.flight == None && Exec(y, DoP1(veto, actor, at)).flight != None
    ensures var z := Exec(y, DoP1(veto, actor, at));
      && TakesWaiting(y, z.flight.value) && TakesRest(y, z.flight.value, actor, at) && z.flight.value.batch.meta.nextCid == z.store.lineage.nextCid
      && z.store.inserts == z.store.dirty == z.store.deleted == [] && z.store.nextTid == y.store.nextTid + 1
      && z.store.live.Keys == y.store.live.Keys
      && (forall o :: o in y.store.live ==>
            z.store.live[o] == if Waits(y, o) then y.store.live[o].(life := Clean) else y.store.live[o])
  {
    assert BuffersOk(y);
    CommitsIff(y, veto, actor, at);
    PendingMembers(y.store);
    CaptureIs(y, veto, actor, at);
    hide Inv, Exec, Encode, Pending, Waits, First, RecordsOk;
    var e := Encode(y.store.lineage, y.store.live, Pending(y.store));
    ExactRecords(y, e, actor, at);
  }

  lemma ExactRecords(y: System, e: Encoded, actor: nat, at: int)
    requires BuffersOk(y) && (forall o :: o in Pending(y.store) ==> o in y.store.live) && RecordsOk(e, y.store.live, Pending(y.store))
    requires y.watched ==> PriorsReadable(y.backend.objects, Pending(y.store), y.store.inserts, y.store.deleted)
    ensures var z := AfterCapture(y, e, actor, at);
      && z.flight.Some? && TakesWaiting(y, z.flight.value) && TakesRest(y, z.flight.value, actor, at)
      && z.flight.value.batch.meta.nextCid == e.lineage.nextCid
  {
    var c := AfterCapture(y, e, actor, at).flight.value;
    RecordsAre(y, e, actor, at);
    RestIs(y, e, actor, at);
    hide Pending, PriorsReadable, AfterCapture, RecordsOk, TakesRest, TakesWaiting, BuffersOk;
    TakenInOrder(y, c);
  }

  lemma TakenInOrder(y: System, c: Capture)
    requires BuffersOk(y) && |c.batch.records| == |Pending(y.store)|
    requires forall i :: 0 <= i < |Pending(y.store)| ==> c.batch.records[i].oid == Pending(y.store)[i]
    ensures TakesWaiting(y, c)
  {
    var pending := Pending(y.store);
    PendingWaits(y);
    hide Pending, First, BuffersOk, Waits;
    forall i, j | 0 <= i < j < |pending|
      ensures pending[i] != pending[j] && First(y, pending[i], pending[j])
    {
      DistinctPending(y, i, j);
      PendingOrder(y, i, j);
    }
    forall o | Waits(y, o)
      ensures exists i :: 0 <= i < |c.batch.records| && c.batch.records[i].oid == o
    {
      var i :| 0 <= i < |pending| && pending[i] == o;
      assert c.batch.records[i].oid == o;
    }
  }

  lemma DistinctPending(y: System, i: nat, j: nat)
    requires BuffersOk(y) && i < j < |Pending(y.store)|
    ensures NoDup(y.store.dirty) && Pending(y.store)[i] != Pending(y.store)[j]
  {
    PendingMembers(y.store);
    hide Pending;
  }

  lemma RecordsAre(y: System, e: Encoded, actor: nat, at: int)
    requires (forall o :: o in Pending(y.store) ==> o in y.store.live) && RecordsOk(e, y.store.live, Pending(y.store))
    requires y.watched ==> PriorsReadable(y.backend.objects, Pending(y.store), y.store.inserts, y.store.deleted)
    ensures var z := AfterCapture(y, e, actor, at);
      && z.flight.Some? && |z.flight.value.batch.records| == |Pending(y.store)|
      && forall i :: 0 <= i < |Pending(y.store)| ==> z.flight.value.batch.records[i].oid == Pending(y.store)[i]
  {
    hide Pending, BuildDelta, PriorsReadable, SetLife, Flips;
  }

  lemma RestIs(y: System, e: Encoded, actor: nat, at: int)
    requires forall o :: o in Pending(y.store) ==> o in y.store.live
    requires y.watched ==> PriorsReadable(y.backend.objects, Pending(y.store), y.store.inserts, y.store.deleted)
    ensures var z := AfterCapture(y, e, actor, at);
      z.flight.Some? && TakesRest(y, z.flight.value, actor, at) && z.flight.value.batch.meta.nextCid == e.lineage.nextCid
  {
    hide Pending, PriorsReadable, SetLife, Flips, Stamp;
  }

  // -------------------------------------------------------------- a failed commit

  lemma {:induction false} PriorsOrder(flipped: seq<(Oid, Life)>, i: nat, j: nat)
    requires i < j < |flipped|
    ensures flipped[i].1 == New && flipped[j].1 == New ==> Precedes(PriorNew(flipped), flipped[i].0, flipped[j].0)
    ensures flipped[i].1 != New && flipped[j].1 != New ==> Precedes(PriorOther(flipped), flipped[i].0, flipped[j].0)
  {
    var n := |flipped| - 1;
    var front := flipped[..n];
    if j < n {
      PriorsOrder(front, i, j);
      PrecedesLonger(PriorNew(front), PriorNew(flipped), flipped[i].0, flipped[j].0);
      PrecedesLonger(PriorOther(front), PriorOther(flipped), flipped[i].0, flipped[j].0);
    } else {
      PriorMembers(front, i);
      LastPrecedes(PriorNew(front), flipped[i].0, flipped[j].0);
      LastPrecedes(PriorOther(front), flipped[i].0, flipped[j].0);
    }
  }

  lemma PrecedesLonger(s: seq<Oid>, t: seq<Oid>, a: Oid, b: Oid)
    requires s <= t
    ensures Precedes(s, a, b) ==> Precedes(t, a, b)
  {
    if Precedes(s, a, b) {
      var p, q :| 0 <= p < q < |s| && s[p] == a && s[q] == b;
      assert t[p] == a && t[q] == b;
    }
  }

  lemma LastPrecedes(s: seq<Oid>, a: Oid, b: Oid)
    ensures a in s ==> Precedes(s + [b], a, b)
  {
    if a in s {
      var p :| 0 <= p < |s| && s[p] == a;
      assert (s + [b])[p] == a && (s + [b])[|s|] == b;
    }
  }

  lemma {:induction false} PriorMembers(flipped: seq<(Oid, Life)>, i: nat)
    requires i < |flipped|
    ensures if flipped[i].1 == New then flipped[i].0 in PriorNew(flipped) else flipped[i].0 in PriorOther(flipped)
  {
    if i < |flipped| - 1 {
      PriorMembers(flipped[..|flipped| - 1], i);
    }
  }

  lemma {:induction false} PriorsDistinct(flipped: seq<(Oid, Life)>)
    requires forall i, j :: 0 <= i < j < |flipped| ==> flipped[i].0 != flipped[j].0
    ensures NoDup(PriorNew(flipped)) && NoDup(PriorOther(flipped))
    ensures forall o :: o in PriorNew(flipped) || o in PriorOther(flipped) ==> exists i :: 0 <= i < |flipped| && flipped[i].0 == o
  {
    if flipped != [] {
      var front, n := flipped[..|flipped| - 1], |flipped| - 1;
      assert forall i :: 0 <= i < n ==> front[i] == flipped[i] && flipped[i].0 != flipped[n].0;
      PriorsDistinct(front);
      assert flipped[n].0 !in PriorNew(front) && flipped[n].0 !in PriorOther(front);
    }
  }

  /** What is put behind a buffer keeps its order there. */
  lemma PutEachOrder(s: seq<Oid>, os: seq<Oid>, a: Oid, b: Oid)
    requires NoDup(os) && Precedes(os, a, b) && a !in s && b !in s
    ensures s <= PutEach(s, os) && Precedes(PutEach(s, os), a, b)
  {
    PutEachAppends(s, os);
    var kept := Without(os, ToSet(s));
    KeptOrder(os, ToSet(s), a, b);
    var p, q :| 0 <= p < q < |kept| && kept[p] == a && kept[q] == b;
    assert (s + kept)[|s| + p] == a && (s + kept)[|s| + q] == b;
  }

  lemma {:induction false} KeptOrder(s: seq<Oid>, gone: set<Oid>, a: Oid, b: Oid)
    requires Precedes(s, a, b) && a !in gone && b !in gone
    ensures Precedes(Without(s, gone), a, b)
  {
    var front, last := s[..|s| - 1], s[|s| - 1];
    var p, q :| 0 <= p < q < |s| && s[p] == a && s[q] == b;
    if q < |front| {
      assert front[p] == a && front[q] == b;
      KeptOrder(front, gone, a, b);
      PrecedesLonger(Without(front, gone), Without(s, gone), a, b);
    } else {
      assert front[p] == a;
      LastPrecedes(Without(front, gone), a, b);
    }
  }

  /** A failed commit puts what it captured back behind what was buffered meanwhile, in the order it was
      captured in: the never-committed with the inserts, the others with the writes. */
  lemma RollbackOrder(y: System, i: nat, j: nat)
    requires Inv(y) && Enabled(y, DoFail) && i < j < |y.flight.value.batch.records|
    ensures var z, a, b := Exec(y, DoFail), y.flight.value.batch.records[i].oid, y.flight.value.batch.records[j].oid;
      && (a !in y.backend.objects && b !in y.backend.objects ==> y.store.inserts <= z.store.inserts && Precedes(z.store.inserts, a, b))
      && (a in y.backend.objects && b in y.backend.objects && a !in y.store.dirty && b !in y.store.dirty ==>
            Precedes(z.store.dirty, a, b))
  {
    var c, s := y.flight.value, y.store;
    var a, b := c.batch.records[i].oid, c.batch.records[j].oid;
    assert BuffersOk(y) && FlightOk(y);
    FlippedRecords(y);
    PriorsDistinct(c.flipped);
    PriorsOrder(c.flipped, i, j);
    NotBuffered(y, a);
    NotBuffered(y, b);
    Failed(y);
    hide Inv, BuffersOk, FlightOk, Exec, PriorNew, PriorOther, PutEach, Without, Precedes, NoDup;
    if a !in y.backend.objects && b !in y.backend.objects {
      PutEachOrder(s.inserts, PriorNew(c.flipped), a, b);
    }
    if a in y.backend.objects && b in y.backend.objects && a !in s.dirty && b !in s.dirty {
      PutEachOrder(Without(s.dirty, ToSet(PriorNew(c.flipped))), PriorOther(c.flipped), a, b);
    }
  }

  lemma Failed(y: System)
    requires Enabled(y, DoFail)
    ensures var z, wasNew := Exec(y, DoFail), PriorNew(y.flight.value.flipped);
      && z.store.inserts == PutEach(y.store.inserts, wasNew)
      && z.store.dirty == PutEach(Without(y.store.dirty, ToSet(wasNew)), PriorOther(y.flight.value.flipped))
  {
    hide PriorNew, PriorOther, PutEach, Without, SetLife;
  }

  lemma FlippedRecords(y: System)
    requires FlightOk(y) && y.flight.Some? && !y.applied
    ensures var c := y.flight.value;
      && |c.flipped| == |c.batch.records| && y.backend == y.base
      && (forall k :: 0 <= k < |c.flipped| ==>
            c.flipped[k].0 == c.batch.records[k].oid && (c.flipped[k].1 == New <==> c.batch.records[k].oid !in y.base.objects))
      && (forall k, l :: 0 <= k < l < |c.flipped| ==> c.flipped[k].0 != c.flipped[l].0)
  {
    hide RowsKnown, DistinctRows;
  }

  lemma NotBuffered(y: System, o: Oid)
    requires BuffersOk(y) && FlightRecord(y.flight, o)
    ensures o !in y.store.inserts
  {
  }

  // ------------------------------------------------------------------ its type rows

  /** The types rows of a batch are of classes its own records use. */
  lemma {:induction false} RowsAreUsed(l: Lineage, live: map<Oid, Entity>, oids: seq<Oid>)
    requires forall o :: o in oids ==> o in live
    ensures var e := Encode(l, live, oids); e.ok ==> AllUsed(e)
  {
    if oids != [] {
      var front := oids[..|oids| - 1];
      assert oids == front + [oids[|oids| - 1]];
      hide CidFor, AllUsed;
      RowsAreUsed(l, live, front);
      var o, d, e := oids[|oids| - 1], Encode(l, live, front), Encode(l, live, oids);
      if e.ok {
        var (l', c) := CidFor(d.lineage, live[o].shape);
        UsedByNext(d, e, c);
      }
    }
  }

  ghost predicate AllUsed(e: Encoded) {
    forall k :: 0 <= k < |e.rows| ==> exists i :: 0 <= i < |e.records| && e.records[i].1 == e.rows[k].cid
  }

  lemma UsedByNext(d: Encoded, e: Encoded, c: Cid)
    requires AllUsed(d) && e.records != [] && d.records == e.records[..|e.records| - 1] && e.records[|e.records| - 1].1 == c
    requires e.rows == d.rows || (e.rows != [] && d.rows == e.rows[..|e.rows| - 1] && e.rows[|e.rows| - 1].cid == c)
    ensures AllUsed(e)
  {
    var n := |e.records| - 1;
    forall k | 0 <= k < |e.rows|
      ensures exists i :: 0 <= i < |e.records| && e.records[i].1 == e.rows[k].cid
    {
      if k < |d.rows| {
        assert e.rows[k] == d.rows[k];
        var i :| 0 <= i < |d.records| && d.records[i].1 == d.rows[k].cid;
        assert e.records[i] == d.records[i];
      } else {
        assert e.records[n].1 == c;
      }
    }
  }
}
