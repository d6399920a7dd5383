/**
 A columnar mirror fed by a live coordinator: in every run, the plain rows of deltas that miss no commit are
 the coordinator's records, type by type. With the sessions of `ArrowMirror.dfy`, which show the plain rows at
 their watermark, a mirror that has the whole stream shows the coordinator's state.
 */
module MirrorRuns {
  import opened Wire
  import opened Replication
  import opened Commit
  import opened CommitRuns
  import opened TypeRuns
  import opened FollowerRuns
  import opened ArrowFold
  import opened MirrorOfBackend
  import ArrowMirrors

  // ---------------------------------------------------------- the delta in flight

  ghost predicate BuiltFrom(b: BackendState, c: Capture, priors: map<Oid, Bytes>, tombstones: seq<(Oid, Cid, Bytes)>, actor: nat, at: int) {
    && PriorsFit(b, c.batch, priors, tombstones)
    && c.delta == Some(BuildDelta(c.batch.tid, c.batch.records, c.batch.newTypes, c.batch.meta.root, priors, tombstones, actor, at))
  }

  /** A delta in flight was built from the priors the backend held. */
  ghost predicate DeltaOk(y: System) {
    y.flight.Some? && y.flight.value.delta.Some? ==> exists p, t, actor, at :: BuiltFrom(y.base, y.flight.value, p, t, actor, at)
  }

  lemma P1Delta(y: System, veto: bool, actor: nat, at: int)
    requires Inv(y) && Enabled(y, DoP1(veto, actor, at))
    ensures DeltaOk(Exec(y, DoP1(veto, actor, at)))
  {
    var e := Encode(y.store.lineage, y.store.live, Pending(y.store));
    assert LineageOk(y.store.lineage) && BuffersOk(y);
    EncodeOk(y.store.lineage, y.store.live, Pending(y.store));
    P1Cases(y, veto, actor, at);
    hide Inv, Exec, Encode, Pending, PriorsReadable, RecordsOk, RowsOk, AfterCapture, BuffersOk, BuildDelta, PriorsFit;
    var z := Exec(y, DoP1(veto, actor, at));
    if z.flight.Some? && z.flight.value.delta.Some? {
      assert z == AfterCapture(y, e, actor, at);
      CaptureDeltaIff(y, e, actor, at);
      CapturePriors(y, e, actor, at);
      CaptureDelta(y, e, actor, at);
      assert BuiltFrom(z.base, z.flight.value, Priors(y.backend.objects, Pending(y.store), y.store.inserts),
                       Tombstones(y.backend.objects, y.store.deleted), actor, at);
    }
  }

  /** Only P1 makes a capture. */
  lemma OtherDelta(y: System, step: Step)
    requires DeltaOk(y) && !step.DoP1?
    ensures DeltaOk(Exec(y, step))
  {
    hide BuiltFrom, ApplyBatch, ApplierStep, Rollback, P3, Boot, Mirrors;
  }

  lemma {:induction false} ReachedDelta(steps: seq<Step>)
    ensures DeltaOk(After(steps))
  {
    hide Inv, Exec, DeltaOk;
    if steps == [] {
      assert DeltaOk(FRESH_SYSTEM) by {
        FreshDelta();
      }
    } else {
      var front, step := steps[..|steps| - 1], steps[|steps| - 1];
      ReachedDelta(front);
      Reached(front);
      if step.DoP1? && Enabled(After(front), step) {
        P1Delta(After(front), step.veto, step.actor, step.at);
      } else if step.DoP1? {
        DisabledStays(After(front), step);
      } else {
        OtherDelta(After(front), step);
      }
    }
  }

  lemma FreshDelta()
    ensures DeltaOk(FRESH_SYSTEM)
  {
  }

  // ------------------------------------------------------------------ type rows

  lemma {:induction false} KnownTypes(l: Lineage, rows: seq<TypeRow>, nextCid: nat)
    requires RowsKnown(l, rows, nextCid)
    ensures forall c :: c in AddTypes(map[], rows) ==> c in l.shapeOf && AddTypes(map[], rows)[c] == l.shapeOf[c]
  {
    if rows != [] {
      var front := rows[..|rows| - 1];
      assert forall i :: 0 <= i < |front| ==> front[i] == rows[i];
      KnownTypes(l, front, nextCid);
    }
  }

  lemma TypesKept(l: Lineage, a: seq<TypeRow>, b: seq<TypeRow>, nextCid: nat)
    requires RowsKnown(l, a + b, nextCid)
    ensures Keeps(AddTypes(map[], a), AddTypes(AddTypes(map[], a), b))
    ensures forall c :: c in AddTypes(map[], a + b) ==> c in l.shapeOf && AddTypes(map[], a + b)[c] == l.shapeOf[c]
    ensures AddTypes(AddTypes(map[], a), b) == AddTypes(map[], a + b)
  {
    assert RowsKnown(l, a, nextCid) by {
      forall i | 0 <= i < |a|
        ensures a[i].cid in l.shapeOf && l.shapeOf[a[i].cid] == a[i].shape && a[i].cid < nextCid
      {
        assert (a + b)[i] == a[i];
      }
    }
    KnownTypes(l, a, nextCid);
    KnownTypes(l, a + b, nextCid);
    AddTypesAppend(map[], a, b);
    AddTypesKeys(AddTypes(map[], a), b);
    hide AddTypes;
  }

  /** Operation by operation, what a delta in flight says: each record stored over what the backend held of it,
      then each deletion of what it held. */
  ghost predicate Tells(b: BackendState, batch: Batch, d: Delta) {
    && d.marker == "datacrystal-delta" && d.version == 2 && d.complete
    && d.tid == batch.tid && d.types == batch.newTypes && d.root == batch.meta.root
    && |d.ops| == |batch.records| + |batch.deletes|
    && (forall i :: 0 <= i < |batch.records| ==> StoresOver(b, batch.records[i], d.ops[i]))
    && (forall i :: 0 <= i < |batch.deletes| ==> DeletesHeld(b, batch.deletes[i], d.ops[|batch.records| + i]))
  }

  ghost predicate StoresOver(b: BackendState, rec: StoredRecord, op: Op) {
    op == Op(true, Upsert, rec.oid, rec.cid, Some(rec.payload),
             if rec.oid in b.objects then Some(b.objects[rec.oid].payload) else None)
  }

  ghost predicate DeletesHeld(b: BackendState, o: Oid, op: Op) {
    o in b.objects && op == Op(true, Delete, o, b.objects[o].cid, None, Some(b.objects[o].payload))
  }

  lemma BuiltTells(b: BackendState, batch: Batch, priors: map<Oid, Bytes>, tombstones: seq<(Oid, Cid, Bytes)>, actor: nat, at: int)
    requires PriorsFit(b, batch, priors, tombstones)
    ensures Tells(b, batch, BuildDelta(batch.tid, batch.records, batch.newTypes, batch.meta.root, priors, tombstones, actor, at))
  {
    var d := BuildDelta(batch.tid, batch.records, batch.newTypes, batch.meta.root, priors, tombstones, actor, at);
    forall i | 0 <= i < |batch.deletes|
      ensures DeletesHeld(b, batch.deletes[i], d.ops[|batch.records| + i])
    {
      assert d.ops[|batch.records| + i] == DeleteOp(tombstones[i]);
    }
  }

  lemma DeltaTells(steps: seq<Step>)
    requires After(steps).flight.Some? && After(steps).flight.value.delta.Some?
    ensures var y := After(steps); Tells(y.base, y.flight.value.batch, y.flight.value.delta.value)
  {
    ReachedDelta(steps);
    var y := After(steps);
    var priors, tombstones, actor, at :| BuiltFrom(y.base, y.flight.value, priors, tombstones, actor, at);
    BuiltTells(y.base, y.flight.value.batch, priors, tombstones, actor, at);
    hide After, Tells, PriorsFit, BuildDelta;
  }

  // ------------------------------------------------------------------- the stream

  lemma {:induction false} StreamPrefix(ds: seq<Delta>, more: seq<Delta>, w: nat, only: Option<set<string>>)
    requires w <= |ds|
    ensures ArrowMirrors.TypesAt(ds + more, w) == ArrowMirrors.TypesAt(ds, w)
    ensures ArrowMirrors.PlainAt(ds + more, w, only) == ArrowMirrors.PlainAt(ds, w, only)
  {
    if w > 0 {
      StreamPrefix(ds, more, w - 1, only);
    }
  }

  /** The plain rows of the whole stream are the records of this backend. */
  ghost predicate MirrorsAll(ds: seq<Delta>, b: BackendState, only: Option<set<string>>) {
    && ArrowMirrors.TypesAt(ds, |ds|) == AddTypes(map[], b.types)
    && Agrees(ArrowMirrors.PlainAt(ds, |ds|, only), b, AddTypes(map[], b.types), only)
  }

  /** One more delta, of a commit that renames no record's type. */
  lemma NextMirrored(ds: seq<Delta>, d: Delta, b: BackendState, batch: Batch, priors: map<Oid, Bytes>, tombstones: seq<(Oid, Cid, Bytes)>,
                     actor: nat, at: int, only: Option<set<string>>)
    requires MirrorsAll(ds, b, only) && BatchFits(b, batch) && PriorsFit(b, batch, priors, tombstones)
    requires d == BuildDelta(batch.tid, batch.records, batch.newTypes, batch.meta.root, priors, tombstones, actor, at)
    requires Keeps(AddTypes(map[], b.types), AddTypes(AddTypes(map[], b.types), batch.newTypes))
    requires forall i :: 0 <= i < |batch.records| ==>
      !ChangesType(b, batch, AddTypes(AddTypes(map[], b.types), batch.newTypes), only, i)
    ensures MirrorsAll(ds + [d], ApplyBatch(b, batch), only)
  {
    hide AddTypes, PlainSteps, Decode, BatchFits, PriorsFit, ChangesType, Agrees, Keeps, BuildDelta;
    var before := AddTypes(map[], b.types);
    var types := AddTypes(before, batch.newTypes);
    var plain := ArrowMirrors.PlainAt(ds, |ds|, only);
    assert d.types == batch.newTypes by {
      BuiltTypes(batch, priors, tombstones, actor, at);
    }
    MirrorFollowsBackend(plain, b, batch, before, types, only, priors, tombstones, actor, at);
    StreamPrefix(ds, [d], |ds|, only);
    NewTypes(b, batch);
    AppliedTypes(b, batch);
    assert (ds + [d])[|ds|] == d;
    assert ArrowMirrors.TypesAt(ds + [d], |ds| + 1) == types;
    assert ArrowMirrors.PlainAt(ds + [d], |ds| + 1, only) == PlainSteps(plain, Decode(d.ops, types, only).value);
  }

  lemma BuiltTypes(batch: Batch, priors: map<Oid, Bytes>, tombstones: seq<(Oid, Cid, Bytes)>, actor: nat, at: int)
    ensures BuildDelta(batch.tid, batch.records, batch.newTypes, batch.meta.root, priors, tombstones, actor, at).types == batch.newTypes
  {
  }

  lemma AppliedTypes(b: BackendState, batch: Batch)
    ensures ApplyBatch(b, batch).types == b.types + batch.newTypes
  {
  }

  // ---------------------------------------------------------------------- runs

  ghost predicate MirrorOk(y: System, ds: seq<Delta>, only: Option<set<string>>) {
    Complete(y, ds) ==> MirrorsAll(ds, Finalized(y), only)
  }

  lemma NothingRenamed(y: System, only: Option<set<string>>)
    requires FlightOk(y) && KindsOk(y) && y.flight.Some?
    ensures var c, before := y.flight.value, AddTypes(map[], y.base.types);
      && Keeps(before, AddTypes(before, c.batch.newTypes))
      && forall i :: 0 <= i < |c.batch.records| ==> !ChangesType(y.base, c.batch, AddTypes(before, c.batch.newTypes), only, i)
  {
    var c := y.flight.value;
    TypesKept(y.store.lineage, y.base.types, c.batch.newTypes, c.batch.meta.nextCid);
    FlightRecordsAreLive(y);
    hide AddTypes, BatchShaped, ApplyBatch;
    forall i | 0 <= i < |c.batch.records|
      ensures !ChangesType(y.base, c.batch, AddTypes(AddTypes(map[], y.base.types), c.batch.newTypes), only, i)
    {
      var o := c.batch.records[i].oid;
      assert c.batch.records[i] in c.batch.records && FlightRecord(y.flight, o);
      if o in y.base.objects {
        assert KindAt(y.store.lineage, y.store.live[o], y.base.objects[o]);
        assert KindAt(y.store.lineage, y.store.live[o], c.batch.records[i]);
      }
    }
  }

  lemma FlightFits(y: System, priors: map<Oid, Bytes>, tombstones: seq<(Oid, Cid, Bytes)>)
    requires FlightOk(y) && y.flight.Some? && PriorsFit(y.base, y.flight.value.batch, priors, tombstones)
    ensures BatchFits(y.base, y.flight.value.batch)
  {
    var batch := y.flight.value.batch;
    forall o | o in ToSet(batch.deletes)
      ensures o in y.base.objects
    {
      var i :| 0 <= i < |batch.deletes| && batch.deletes[i] == o;
      assert batch.deletes[i] in y.base.objects;
    }
  }

  lemma DeliveryMirrors(y: System, ds: seq<Delta>, only: Option<set<string>>)
    requires Inv(y) && KindsOk(y) && DeltaOk(y) && MirrorsAll(ds, y.base, only) && Enabled(y, DoP3) && y.flight.value.delta.Some?
    ensures MirrorsAll(ds + [y.flight.value.delta.value], ApplyBatch(y.base, y.flight.value.batch), only)
  {
    var c := y.flight.value;
    var priors, tombstones, actor, at :| BuiltFrom(y.base, c, priors, tombstones, actor, at);
    assert FlightOk(y);
    hide Inv, KindsOk, DeltaOk, MirrorsAll, FlightOk, AddTypes, BuildDelta;
    NothingRenamed(y, only);
    FlightFits(y, priors, tombstones);
    NextMirrored(ds, c.delta.value, y.base, c.batch, priors, tombstones, actor, at, only);
  }

  lemma FinalizingMirrors(y: System, ds: seq<Delta>, only: Option<set<string>>)
    requires Inv(y) && KindsOk(y) && DeltaOk(y) && MirrorOk(y, ds, only) && |ds| + 1 <= y.base.meta.nextTid && Enabled(y, DoP3)
    ensures MirrorOk(Exec(y, DoP3), ds + EmittedBy(y, DoP3), only)
  {
    assert FlightOk(y) && TidsOk(y);
    assert Finalized(y) == y.base;
    hide Inv, Exec, FlightOk, TidsOk, KindsOk, DeltaOk, MirrorsAll, ApplyBatch, EmittedBy, Complete, Finalized;
    CompleteAfterP3(y, ds);
    if Complete(Exec(y, DoP3), ds + EmittedBy(y, DoP3)) {
      DeliveryMirrors(y, ds, only);
    }
  }

  /** Every other step leaves the finalized backend and the stream where they were, or loses a delivery. */
  lemma QuietMirrors(y: System, step: Step, ds: seq<Delta>, only: Option<set<string>>)
    requires Inv(y) && MirrorOk(y, ds, only) && |ds| + 1 <= Finalized(y).meta.nextTid && !(step == DoP3 && Enabled(y, step))
    ensures MirrorOk(Exec(y, step), ds, only)
  {
    assert FlightOk(y) && TidsOk(y);
    FinalizedStays(y, step);
    hide Inv, Exec, MirrorsAll, Finalized, FlightOk, TidsOk;
    var z := Exec(y, step);
    if Complete(z, ds) {
      SameMirrors(ds, Finalized(y), Finalized(z), only);
    }
  }

  lemma SameMirrors(ds: seq<Delta>, a: BackendState, b: BackendState, only: Option<set<string>>)
    requires MirrorsAll(ds, a, only) && Follows(a, b)
    ensures MirrorsAll(ds, b, only)
  {
    var types, plain := AddTypes(map[], b.types), ArrowMirrors.PlainAt(ds, |ds|, only);
    hide AddTypes, Lookup;
    forall t, o
      ensures AgreesAt(plain, b, types, only, t, o)
    {
      assert AgreesAt(plain, a, types, only, t, o);
    }
  }

  lemma {:induction false} RunMirrors(steps: seq<Step>, only: Option<set<string>>)
    ensures MirrorOk(After(steps), Emitted(steps), only)
  {
    hide Inv, Exec, KindsOk, DeltaOk, MirrorOk, Enabled;
    if steps == [] {
      FreshMirrors(only);
    } else {
      var front, step := steps[..|steps| - 1], steps[|steps| - 1];
      var y := After(front);
      RunMirrors(front, only);
      ReachedKinds(front);
      ReachedDelta(front);
      RunFollows(front);
      if step == DoP3 && Enabled(y, step) {
        FlightBase(y);
        FinalizingMirrors(y, Emitted(front), only);
      } else {
        assert Emitted(front) + [] == Emitted(front);
        QuietMirrors(y, step, Emitted(front), only);
      }
    }
  }

  lemma FlightBase(y: System)
    requires Enabled(y, DoP3)
    ensures Finalized(y) == y.base
  {
  }

  lemma FreshMirrors(only: Option<set<string>>)
    ensures MirrorOk(FRESH_SYSTEM, [], only)
  {
  }

  /** Between commits, the rows a columnar mirror shows after a stream that missed nothing are exactly the
      coordinator's records, by type name, whatever the run did. */
  lemma MirrorEqualsCoordinator(steps: seq<Step>, only: Option<set<string>>)
    requires Complete(After(steps), Emitted(steps)) && After(steps).flight.None?
    ensures var y, ds := After(steps), Emitted(steps);
      Agrees(ArrowMirrors.PlainAt(ds, |ds|, only), y.backend, AddTypes(map[], y.backend.types), only)
  {
    RunMirrors(steps, only);
  }
}
