/**
 What a write does in the end. An entity in memory holds what the last store, write or load gave it, whatever
 is captured, rolled back, finalized or collected in between, and a commit stores exactly what the entities it
 captured held at the capture, whatever races it before it lands.
 */
module ValueRuns {
  import opened Wire
  import opened Commit
  import opened CommitRuns
  import opened TypeRuns
  import opened CommitRaces

  // ----------------------------------------------------------------- one write

  /** A write to a live entity that is not deleted lands, and touches nothing else: the first one since the
      entity was clean buffers it behind the updates buffered before. */
  lemma WriteLands(y: System, o: Oid, v: Value)
    requires o in y.store.live && y.store.live[o].life != Deleted
    ensures var z := Exec(y, DoWrite(o, v));
      && z == y.(store := y.store.(live := z.store.live, dirty := z.store.dirty))
      && z.store.live.Keys == y.store.live.Keys && z.store.live[o].value == v && z.store.live[o].shape == y.store.live[o].shape
      && (forall p :: p in y.store.live && p != o ==> z.store.live[p] == y.store.live[p])
      && z.store.live[o].life == (if y.store.live[o].life == Clean then Dirty else y.store.live[o].life)
      && z.store.dirty == y.store.dirty + (if y.store.live[o].life == Clean && o !in y.store.dirty then [o] else [])
  {
  }

  /** A deleted entity refuses it. */
  lemma DeletedRefusesWrite(y: System, o: Oid, v: Value)
    requires o in y.store.live && y.store.live[o].life == Deleted
    ensures Exec(y, DoWrite(o, v)) == y
  {
  }

  /** A new entity takes the next OID, holds its value, and waits behind the inserts before it. */
  lemma StoreLands(y: System, shape: Shape, v: Value)
    requires Inv(y)
    ensures var z, o := Exec(y, DoStore(shape, v)), y.store.nextOid;
      && z == y.(store := y.store.(nextOid := o + 1, live := z.store.live, inserts := y.store.inserts + [o]))
      && o !in y.store.live && z.store.live.Keys == y.store.live.Keys + {o} && z.store.live[o] == Entity(New, shape, v)
      && forall p :: p in y.store.live ==> z.store.live[p] == y.store.live[p]
  {
    FreshOid(y);
    hide Inv;
  }

  /** A deletion lands: an entity that was never committed just leaves the buffers, any other leaves them for
      the buffered deletions; the root's is refused. */
  lemma DeleteLands(y: System, o: Oid)
    requires o in y.store.live && y.store.live[o].life != Deleted
    ensures var s, z := y.store, Exec(y, DoDelete(o));
      if s.root == Some(o) then z == y
      else
        && z == y.(store := s.(live := z.store.live, inserts := z.store.inserts, dirty := z.store.dirty, deleted := z.store.deleted))
        && z.store.live.Keys == s.live.Keys && z.store.live[o] == s.live[o].(life := Deleted)
        && (forall p :: p in s.live && p != o ==> z.store.live[p] == s.live[p])
        && (forall p :: p in z.store.dirty <==> p in s.dirty && p != o)
        && (if s.live[o].life == New
            then z.store.deleted == s.deleted && forall p :: p in z.store.inserts <==> p in s.inserts && p != o
            else z.store.inserts == s.inserts && z.store.deleted == s.deleted + if o in s.deleted then [] else [o])
  {
    assert y.store.deleted + [] == y.store.deleted;
  }

  /** Deleting what a key finds does nothing when its deletion is buffered already; otherwise it is a deletion of
      the record, in memory or not, and of no other. */
  lemma KeyedDeleteLands(y: System, o: Oid)
    requires Enabled(y, DoDeleteByKey(o))
    ensures var s, z := y.store, Exec(y, DoDeleteByKey(o));
      if o in s.deleted || s.root == Some(o) then z == y
      else
        && z == y.(store := s.(live := z.store.live, inserts := z.store.inserts, dirty := z.store.dirty, deleted := z.store.deleted))
        && z.store.live.Keys == s.live.Keys && (o in s.live ==> z.store.live[o] == s.live[o].(life := Deleted))
        && (forall p :: p in s.live && p != o ==> z.store.live[p] == s.live[p])
        && (forall p :: p in z.store.dirty <==> p in s.dirty && p != o)
        && (if o in s.live && s.live[o].life == New
            then z.store.deleted == s.deleted && forall p :: p in z.store.inserts <==> p in s.inserts && p != o
            else z.store.inserts == s.inserts && z.store.deleted == s.deleted + [o])
  {
  }

  // ------------------------------------------------------------------ every run

  /** What a step gives to the entity of this OID: a store, an accepted write or a load. */
  function Given(y: System, step: Step, o: Oid): Option<Value> {
    if !Enabled(y, step) then None
    else
      match step
      case DoStore(_, v) => if o == y.store.nextOid then Some(v) else None
      case DoStoreRoot(_, v) => if o == y.store.nextOid then Some(v) else None
      case DoWrite(p, v) => if p == o && y.store.live[o].life != Deleted then Some(v) else None
      case DoHydrate(p, _) => if p == o then Some(Value(y.backend.objects[o].payload, true)) else None
      case _ => None
  }

  ghost function LastGiven(steps: seq<Step>, o: Oid): Option<Value> {
    if steps == [] then None
    else
      var front, step := steps[..|steps| - 1], steps[|steps| - 1];
      var given := Given(After(front), step, o);
      if given.Some? then given else LastGiven(front, o)
  }

  /** A step gives an entity its value, or leaves it the one it has. */
  lemma StepGives(y: System, step: Step, o: Oid)
    requires o in Exec(y, step).store.live
    ensures var given := Given(y, step, o);
      if given.Some? then Exec(y, step).store.live[o].value == given.value
      else o in y.store.live && Exec(y, step).store.live[o].value == y.store.live[o].value
  {
    if !Enabled(y, step) {
      DisabledStays(y, step);
    } else if step.DoP1? {
      P1Values(y, step.veto, step.actor, step.at, o);
    } else if step == DoFail || step == DoP3 {
      SettledValues(y, step, o);
    } else if step == DoDiscard || step == DoRestart {
      BootForgets(y.backend);
    } else {
      hide Put, Without, ApplyBatch;
    }
  }

  lemma P1Values(y: System, veto: bool, actor: nat, at: int, o: Oid)
    requires Enabled(y, DoP1(veto, actor, at)) && o in Exec(y, DoP1(veto, actor, at)).store.live
    ensures o in y.store.live && Exec(y, DoP1(veto, actor, at)).store.live[o].value == y.store.live[o].value
  {
    hide Encode, Pending, PriorsReadable, MakeCapture, HoldsDeleted;
  }

  lemma SettledValues(y: System, step: Step, o: Oid)
    requires Enabled(y, step) && step in {DoFail, DoP3} && o in Exec(y, step).store.live
    ensures o in y.store.live && Exec(y, step).store.live[o].value == y.store.live[o].value
  {
    hide PriorNew, PriorOther, PutEach, Without, ApplyBatch;
  }

  lemma BootForgets(b: BackendState)
    ensures Boot(b).live == map[]
  {
  }

  /** In every run an entity in memory holds the value of the last step that gave it one. */
  lemma {:induction false} HoldsLastGiven(steps: seq<Step>, o: Oid)
    requires o in After(steps).store.live
    ensures LastGiven(steps, o) == Some(After(steps).store.live[o].value)
  {
    hide Exec, Given;
    BootForgets(FRESH_BACKEND);
    if steps != [] {
      var front, step := steps[..|steps| - 1], steps[|steps| - 1];
      StepGives(After(front), step, o);
      if Given(After(front), step, o).None? {
        HoldsLastGiven(front, o);
      }
    }
  }

  // ---------------------------------------------------------------- every commit

  /** What may happen between the capture of a batch and its landing. */
  predicate MayRace(step: Step) {
    step != DoP2 && step != DoFail && step != DoP3 && step != DoRestart
  }

  lemma FlightStays(y: System, step: Step)
    requires y.flight.Some? && !y.applied && MayRace(step)
    ensures var z := Exec(y, step);
      z.flight == y.flight && !z.applied && z.base == y.base && z.backend == y.backend
  {
    hide StoreNew, Write, DeleteInstance, DeleteByKey, Hydrate, Forget, P1;
  }

  lemma {:induction false} FlightWaits(y: System, steps: seq<Step>)
    requires y.flight.Some? && !y.applied && forall s :: s in steps ==> MayRace(s)
    ensures var z := Run(y, steps);
      z.flight == y.flight && !z.applied && z.base == y.base && z.backend == y.backend
  {
    hide Exec, MayRace;
    if steps != [] {
      var front := steps[..|steps| - 1];
      assert steps == front + [steps[|steps| - 1]];
      FlightWaits(y, front);
      FlightStays(Run(y, front), steps[|steps| - 1]);
    }
  }

  /** What a P1 that captures does. */
  lemma CaptureIs(y: System, veto: bool, actor: nat, at: int)
    requires Inv(y) && Enabled(y, DoP1(veto, actor, at)) && Exec(y, DoP1(veto, actor, at)).flight.Some?
    ensures forall o :: o in Pending(y.store) ==> o in y.store.live
    ensures y.watched ==> PriorsReadable(y.backend.objects, Pending(y.store), y.store.inserts, y.store.deleted)
    ensures var e := Encode(y.store.lineage, y.store.live, Pending(y.store));
      RecordsOk(e, y.store.live, Pending(y.store)) && Exec(y, DoP1(veto, actor, at)) == AfterCapture(y, e, actor, at)
  {
    assert LineageOk(y.store.lineage) && y.flight.None?;
    hide Inv, Exec, Pending, PriorsReadable, RowsOk, HoldsDeleted, LineageOk, AfterCapture, Encode;
    EncodeOk(y.store.lineage, y.store.live, Pending(y.store));
    P1Cases(y, veto, actor, at);
  }

  /** A capture takes every buffered entity that is not deleted, with the bytes it holds. */
  lemma CaptureTakes(y: System, veto: bool, actor: nat, at: int, o: Oid)
    requires Inv(y) && Enabled(y, DoP1(veto, actor, at)) && Exec(y, DoP1(veto, actor, at)).flight.Some?
    requires Buffered(y, o) && o !in y.store.deleted
    ensures var z := Exec(y, DoP1(veto, actor, at));
      && !z.applied && o in y.store.live && y.store.live[o].value.encodable
      && exists i :: 0 <= i < |z.flight.value.batch.records| && TakenAs(z.flight.value.batch.records[i], y, o)
  {
    hide Inv, Exec, Encode, Pending, PriorsReadable, RecordsOk, AfterCapture;
    CaptureIs(y, veto, actor, at);
    PendingMembers(y.store);
    var i :| 0 <= i < |Pending(y.store)| && Pending(y.store)[i] == o;
    TakenAt(y, Encode(y.store.lineage, y.store.live, Pending(y.store)), actor, at, i);
  }

  /** The record says what the entity holds, under the TID handed out. */
  ghost predicate TakenAs(rec: StoredRecord, y: System, o: Oid) {
    rec.oid == o && o in y.store.live && rec.payload == y.store.live[o].value.bytes && rec.tid == y.store.nextTid
  }

  lemma TakenAt(y: System, e: Encoded, actor: nat, at: int, i: nat)
    requires (forall o :: o in Pending(y.store) ==> o in y.store.live) && RecordsOk(e, y.store.live, Pending(y.store))
    requires y.watched ==> PriorsReadable(y.backend.objects, Pending(y.store), y.store.inserts, y.store.deleted)
    requires i < |Pending(y.store)|
    ensures var z := AfterCapture(y, e, actor, at);
      && z.flight.Some? && !z.applied && i < |z.flight.value.batch.records|
      && TakenAs(z.flight.value.batch.records[i], y, Pending(y.store)[i])
      && y.store.live[Pending(y.store)[i]].value.encodable
  {
    hide Pending, Flips, BuildDelta, PriorsReadable, SetLife;
  }

  /** The record of a batch is what the backend holds once it is applied. */
  lemma AppliedRecord(y: System, i: nat)
    requires FlightOk(y) && y.flight.Some? && i < |y.flight.value.batch.records|
    ensures var rec, b := y.flight.value.batch.records[i], ApplyBatch(y.base, y.flight.value.batch);
      rec.oid in b.objects && b.objects[rec.oid] == rec
  {
    var batch := y.flight.value.batch;
    PutAllLookup(y.base.objects, batch.records);
    assert batch.records[i] in batch.records;
    assert batch.records[i].oid in OidsOf(batch.records);
  }

  /** A commit that lands leaves in the backend, of every entity it captured, exactly the bytes of the value
      last given to it before the capture, whatever is written, stored, deleted or loaded in between. */
  lemma CommitStoresLastGiven(steps: seq<Step>, veto: bool, actor: nat, at: int, race: seq<Step>, o: Oid)
    requires Enabled(After(steps), DoP1(veto, actor, at)) && Exec(After(steps), DoP1(veto, actor, at)).flight.Some?
    requires Buffered(After(steps), o) && o !in After(steps).store.deleted
    requires forall s :: s in race ==> MayRace(s)
    ensures var captured := Exec(After(steps), DoP1(veto, actor, at));
      var z := Exec(Run(captured, race), DoP2);
      && LastGiven(steps, o).Some? && LastGiven(steps, o).value.encodable
      && o in z.backend.objects && z.backend.objects[o].payload == LastGiven(steps, o).value.bytes
      && z.backend.objects[o].tid == After(steps).store.nextTid
      && Exec(z, DoP3).backend == z.backend
  {
    var y := After(steps);
    var captured := Exec(y, DoP1(veto, actor, at));
    Reached(steps);
    CaptureTakes(y, veto, actor, at, o);
    HoldsLastGiven(steps, o);
    var i :| 0 <= i < |captured.flight.value.batch.records| && TakenAs(captured.flight.value.batch.records[i], y, o);
    StepKeeps(y, DoP1(veto, actor, at));
    InvFlight(captured);
    AppliedRecord(captured, i);
    FlightWaits(captured, race);
    hide Inv, After, FlightOk, LastGiven, Run;
    AppliesFlight(Run(captured, race));
  }

  /** A commit that lands leaves no record of anything whose deletion it captured, whatever races it, and every
      instance of it says that it is deleted. */
  lemma CommitDeletes(steps: seq<Step>, veto: bool, actor: nat, at: int, race: seq<Step>, o: Oid)
    requires Enabled(After(steps), DoP1(veto, actor, at)) && Exec(After(steps), DoP1(veto, actor, at)).flight.Some?
    requires o in After(steps).store.deleted && forall s :: s in race ==> MayRace(s)
    ensures var captured := Exec(After(steps), DoP1(veto, actor, at));
      var z := Exec(Run(captured, race), DoP2);
      && o !in z.backend.objects && Exec(z, DoP3).backend == z.backend
      && (o in Exec(z, DoP3).store.live ==> Exec(z, DoP3).store.live[o].life == Deleted)
  {
    var y := After(steps);
    var captured := Exec(y, DoP1(veto, actor, at));
    Reached(steps);
    CaptureIs(y, veto, actor, at);
    assert captured.flight.value.batch.deletes == captured.flight.value.deletes == y.store.deleted && !captured.applied by {
      hide Inv, Exec, Encode, Pending, Stamp, BuildDelta, PriorsReadable, Flips;
    }
    FlightWaits(captured, race);
    hide Inv, After, Run, RecordsOk;
    DeletesFlight(Run(captured, race), o);
  }

  lemma DeletesFlight(y: System, o: Oid)
    requires y.flight.Some? && !y.applied && o in y.flight.value.batch.deletes && o in y.flight.value.deletes
    ensures var z := Exec(y, DoP2);
      && o !in z.backend.objects && Exec(z, DoP3).backend == z.backend
      && (o in Exec(z, DoP3).store.live ==> Exec(z, DoP3).store.live[o].life == Deleted)
  {
    hide ApplierStep, PutAll, CidsOf;
  }

  lemma AppliesFlight(y: System)
    requires y.flight.Some? && !y.applied
    ensures Exec(y, DoP2).backend == ApplyBatch(y.backend, y.flight.value.batch)
    ensures Exec(Exec(y, DoP2), DoP3).backend == Exec(y, DoP2).backend
  {
    hide P3, ApplierStep;
  }
}
