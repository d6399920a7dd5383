/**
 An object keeps its type name for life: in every run an instance has the type name its durable record
 has, and so has every record a commit stores over it.
 */
module TypeRuns {
  import opened Wire
  import opened Replication
  import opened Commit
  import opened CommitRuns

  /** The record's class id is known, and names the entity's type. */
  ghost predicate KindAt(l: Lineage, e: Entity, rec: StoredRecord) {
    rec.cid in l.shapeOf && l.shapeOf[rec.cid].typename == e.shape.typename
  }

  ghost predicate KindsOf(l: Lineage, live: map<Oid, Entity>, objects: map<Oid, StoredRecord>) {
    forall o :: o in live && o in objects ==> KindAt(l, live[o], objects[o])
  }

  ghost predicate FlightKinds(y: System) {
    y.flight.Some? ==>
      forall i :: 0 <= i < |y.flight.value.batch.records| && y.flight.value.batch.records[i].oid in y.store.live ==>
        KindAt(y.store.lineage, y.store.live[y.flight.value.batch.records[i].oid], y.flight.value.batch.records[i])
  }

  /** Instances agree with the last finalized records and with the records in flight. */
  ghost predicate KindsOk(y: System) {
    KindsOf(y.store.lineage, y.store.live, Finalized(y).objects) && FlightKinds(y)
  }

  /** They agree with the backend too, whether the batch in flight is applied or not. */
  lemma BackendKinds(y: System)
    requires FlightOk(y) && KindsOk(y)
    ensures KindsOf(y.store.lineage, y.store.live, y.backend.objects)
  {
    hide KindAt;
    if y.flight.Some? && y.applied {
      var recs := y.flight.value.batch.records;
      PutAllLookup(y.base.objects, recs);
      forall o | o in y.store.live && o in y.backend.objects
        ensures KindAt(y.store.lineage, y.store.live[o], y.backend.objects[o])
      {
        if o in OidsOf(recs) {
          var i :| 0 <= i < |recs| && recs[i].oid == o;
          assert y.backend.objects[o] == recs[i];
        }
      }
    }
  }

  /** A user step that keeps the lineage and the shapes of the instances it keeps; what it adds agrees. */
  lemma KeptKinds(y: System, s: StoreState)
    requires KindsOk(y) && s.lineage == y.store.lineage
    requires forall o :: o in s.live && o in y.store.live ==> s.live[o].shape == y.store.live[o].shape
    requires forall o :: o in s.live && o !in y.store.live && o in Finalized(y).objects ==>
      KindAt(s.lineage, s.live[o], Finalized(y).objects[o])
    requires forall o :: o in s.live && o !in y.store.live ==> !FlightRecord(y.flight, o)
    ensures KindsOk(y.(store := s))
  {
    var z := y.(store := s);
    if y.flight.Some? {
      var recs := y.flight.value.batch.records;
      forall i | 0 <= i < |recs| && recs[i].oid in s.live
        ensures KindAt(s.lineage, s.live[recs[i].oid], recs[i])
      {
        assert recs[i] in recs && FlightRecord(y.flight, recs[i].oid);
      }
    }
  }

  lemma StoreKinds(y: System, shape: Shape, value: Value)
    requires Inv(y) && KindsOk(y)
    ensures KindsOk(Exec(y, DoStore(shape, value))) && KindsOk(Exec(y, DoStoreRoot(shape, value)))
  {
    FreshOid(y);
    if y.flight.Some? && y.store.nextOid in y.base.objects {
      FindableIsOld(y, y.store.nextOid);
      assert false;
    }
    hide Inv, KindsOk, KindAt;
    KeptKinds(y, StoreNew(y.store, shape, value));
    KeptKinds(y, StoreNew(y.store, shape, value).(root := Some(y.store.nextOid)));
  }

  lemma MemoryKinds(y: System, step: Step)
    requires KindsOk(y) && (step.DoWrite? || step.DoDelete? || step.DoDeleteByKey? || step.DoForget?)
    ensures KindsOk(Exec(y, step))
  {
    if Enabled(y, step) {
      hide KindsOk, Put, Without;
      KeptKinds(y, Exec(y, step).store);
    }
  }

  lemma HydrateKinds(y: System, o: Oid, shape: Shape)
    requires Inv(y) && KindsOk(y) && Enabled(y, DoHydrate(o, shape))
    ensures KindsOk(Exec(y, DoHydrate(o, shape)))
  {
    FlightRecordsAreLive(y);
    if y.flight.Some? {
      PutAllLookup(y.base.objects, y.flight.value.batch.records);
    }
    assert o in Finalized(y).objects ==> Finalized(y).objects[o] == y.backend.objects[o];
    hide Inv, KindsOk;
    KeptKinds(y, Hydrate(y.store, o, shape, y.backend.objects[o]));
  }

  lemma P1Kinds(y: System, veto: bool, actor: nat, at: int)
    requires Inv(y) && KindsOk(y) && Enabled(y, DoP1(veto, actor, at))
    ensures KindsOk(Exec(y, DoP1(veto, actor, at)))
  {
    var e := Encode(y.store.lineage, y.store.live, Pending(y.store));
    assert LineageOk(y.store.lineage);
    EncodeOk(y.store.lineage, y.store.live, Pending(y.store));
    P1Cases(y, veto, actor, at);
    hide Inv, Exec, Encode, Pending, PriorsReadable, RecordsOk, RowsOk, AfterCapture;
    var z := Exec(y, DoP1(veto, actor, at));
    if z == y.(store := y.store.(lineage := e.lineage)) {
      assert KindsOk(z);
    } else if z != y {
      CaptureKinds(y, e, actor, at);
    }
  }

  lemma CaptureKinds(y: System, e: Encoded, actor: nat, at: int)
    requires Encodes(y, e) && KindsOk(y) && y.flight.None?
    ensures KindsOk(AfterCapture(y, e, actor, at))
  {
    var z := AfterCapture(y, e, actor, at);
    var recs := z.flight.value.batch.records;
    assert |recs| == |Pending(y.store)| == |e.records|;
    forall i | 0 <= i < |recs|
      ensures recs[i].oid in z.store.live && KindAt(z.store.lineage, z.store.live[recs[i].oid], recs[i])
    {
      assert Pending(y.store)[i] in Pending(y.store);
    }
    hide Pending, RowsOk;
  }

  lemma SettledKinds(y: System, step: Step)
    requires FlightOk(y) && KindsOk(y) && step in {DoP2, DoFail, DoP3, DoDiscard, DoRestart}
    ensures KindsOk(Exec(y, step))
  {
    BackendKinds(y);
    if Enabled(y, step) {
      hide KindAt, ApplyBatch, FlightOk;
      if step == DoFail {
        assert y.backend == y.base;
      }
    }
  }

  lemma ConsumerKinds(y: System, step: Step)
    requires KindsOk(y) && (step.DoAttach? || step.DoDetach?)
    ensures KindsOk(Exec(y, step))
  {
    hide KindAt, Mirrors;
  }

  lemma StepKeepsKinds(y: System, step: Step)
    requires Inv(y) && KindsOk(y)
    ensures KindsOk(Exec(y, step))
  {
    assert FlightOk(y);
    hide Inv, Exec, KindsOk, FlightOk;
    if !Enabled(y, step) {
      DisabledStays(y, step);
    } else {
      match step
      case DoStore(shape, value) => StoreKinds(y, shape, value);
      case DoStoreRoot(shape, value) => StoreKinds(y, shape, value);
      case DoHydrate(o, shape) => HydrateKinds(y, o, shape);
      case DoP1(veto, actor, at) => P1Kinds(y, veto, actor, at);
      case DoWrite(_, _) => MemoryKinds(y, step);
      case DoDelete(_) => MemoryKinds(y, step);
      case DoDeleteByKey(_) => MemoryKinds(y, step);
      case DoForget(_) => MemoryKinds(y, step);
      case DoAttach(_) => ConsumerKinds(y, step);
      case DoDetach => ConsumerKinds(y, step);
      case _ => SettledKinds(y, step);
    }
  }

  lemma {:induction false} ReachedKinds(steps: seq<Step>)
    ensures Inv(After(steps)) && KindsOk(After(steps))
  {
    hide Inv, Exec;
    Reached(steps);
    if steps != [] {
      var front := steps[..|steps| - 1];
      ReachedKinds(front);
      StepKeepsKinds(After(front), steps[|steps| - 1]);
    }
  }

  /** No commit of any run stores a record under another type name than the one it was stored under. */
  lemma TypeNamesStay(steps: seq<Step>, i: nat)
    requires After(steps).flight.Some? && i < |After(steps).flight.value.batch.records|
    ensures var y := After(steps);
      var rec := y.flight.value.batch.records[i];
      rec.oid in y.base.objects ==>
        && rec.cid in y.store.lineage.shapeOf && y.base.objects[rec.oid].cid in y.store.lineage.shapeOf
        && y.store.lineage.shapeOf[rec.cid].typename == y.store.lineage.shapeOf[y.base.objects[rec.oid].cid].typename
  {
    ReachedKinds(steps);
    var y := After(steps);
    var recs := y.flight.value.batch.records;
    FlightRecordsAreLive(y);
    assert recs[i] in recs && FlightRecord(y.flight, recs[i].oid);
  }
}
