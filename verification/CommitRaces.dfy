/**
 What races a commit in flight. A quiet run buffers updates and deletions of durable records only. Three
 steps break that: a write to a second instance of a record whose deletion is in flight, another delete
 of such a record, and a delete of an entity whose insert is in flight and then fails. Each is exact and
 reached by a run, and what an undurable name does to the following commits is proved below. Whatever
 races, a record that is gone never comes back.
 */
module CommitRaces {
  import opened Wire
  import opened Replication
  import opened Commit
  import opened CommitRuns
  import opened TypeRuns

  /** Buffered updates and deletions, and those in flight, name durable records only. */
  ghost predicate NamesDurable(y: System) {
    && (forall o :: o in y.store.dirty ==> (o in y.backend.objects || FlightRecord(y.flight, o)) && !FlightDelete(y.flight, o))
    && (forall o :: o in y.store.deleted ==> o in y.backend.objects && !FlightDelete(y.flight, o))
    && (forall o :: FlightDelete(y.flight, o) ==> o in y.base.objects)
  }

  /** The step names a record that is gone once the batch in flight lands. */
  ghost predicate LostOnLanding(y: System, step: Step) {
    match step
    case DoWrite(o, _) => Persisted(y, o) && y.store.live[o].life == Clean && FlightDelete(y.flight, o)
    case DoDelete(o) => y.store.root != Some(o) && Persisted(y, o) && FlightDelete(y.flight, o)
    case DoDeleteByKey(o) =>
      y.store.root != Some(o) && FlightDelete(y.flight, o) && (o in y.store.live ==> y.store.live[o].life != New)
    case _ => false
  }

  /** The step names a record that never existed if the batch in flight fails. */
  ghost predicate LostOnFailure(y: System, step: Step) {
    match step
    case DoDelete(o) => y.store.root != Some(o) && Persisted(y, o) && CapturedNew(y.flight, o) && !y.applied
    case _ => false
  }

  ghost predicate Racing(y: System, step: Step) {
    Enabled(y, step) && (LostOnLanding(y, step) || LostOnFailure(y, step))
  }

  // ------------------------------------------------------------------ quiet steps

  /** An instance of a record stands for something durable or in flight. */
  lemma LivingIsNamed(y: System, o: Oid)
    requires BuffersOk(y) && FlightOk(y) && Persisted(y, o) && !FlightDelete(y.flight, o)
    ensures o in y.backend.objects || FlightRecord(y.flight, o)
  {
    if y.flight.Some? {
      PutAllLookup(y.base.objects, y.flight.value.batch.records);
    }
  }

  /** A captured entity whose record the backend lacks was captured new. */
  lemma CapturedIsNamed(y: System, o: Oid)
    requires FlightOk(y) && FlightRecord(y.flight, o)
    ensures o in y.backend.objects <==> y.applied || !CapturedNew(y.flight, o)
  {
    CapturedSplit(y);
    PutAllLookup(y.base.objects, y.flight.value.batch.records);
  }

  lemma FoundIsNamed(y: System, o: Oid)
    requires Inv(y) && Findable(y, o) && !FlightDelete(y.flight, o)
    ensures o in y.backend.objects
  {
    if y.flight.Some? {
      PutAllLookup(y.base.objects, y.flight.value.batch.records);
    }
  }

  /** One more buffered name, which is durable or in flight. */
  lemma OneMoreName(y: System, s: StoreState, o: Oid)
    requires NamesDurable(y)
    requires forall x :: x in s.dirty ==> x in y.store.dirty || x == o
    requires forall x :: x in s.deleted ==> x in y.store.deleted || x == o
    requires o in s.dirty && o !in y.store.dirty ==> (o in y.backend.objects || FlightRecord(y.flight, o)) && !FlightDelete(y.flight, o)
    requires o in s.deleted && o !in y.store.deleted ==> o in y.backend.objects && !FlightDelete(y.flight, o)
    ensures NamesDurable(y.(store := s))
  {
  }

  lemma QuietWrite(y: System, o: Oid, value: Value)
    requires Inv(y) && NamesDurable(y) && !Racing(y, DoWrite(o, value))
    ensures NamesDurable(Exec(y, DoWrite(o, value)))
  {
    if o in y.store.live {
      if Persisted(y, o) && !FlightDelete(y.flight, o) {
        LivingIsNamed(y, o);
      }
      hide Inv, NamesDurable;
      OneMoreName(y, Write(y.store, o, value), o);
    }
  }

  lemma QuietDelete(y: System, o: Oid)
    requires Inv(y) && NamesDurable(y) && !Racing(y, DoDelete(o))
    ensures NamesDurable(Exec(y, DoDelete(o)))
  {
    if o in y.store.live {
      if Persisted(y, o) && !FlightDelete(y.flight, o) {
        LivingIsNamed(y, o);
        if FlightRecord(y.flight, o) {
          CapturedIsNamed(y, o);
        }
      }
      hide Inv, NamesDurable;
      OneMoreName(y, DeleteInstance(y.store, o), o);
    }
  }

  lemma QuietDeleteByKey(y: System, o: Oid)
    requires Inv(y) && NamesDurable(y) && !Racing(y, DoDeleteByKey(o))
    ensures NamesDurable(Exec(y, DoDeleteByKey(o)))
  {
    if Findable(y, o) {
      if !FlightDelete(y.flight, o) {
        FoundIsNamed(y, o);
      }
      hide Inv, NamesDurable;
      OneMoreName(y, DeleteByKey(y.store, o), o);
    }
  }

  lemma QuietP1(y: System, veto: bool, actor: nat, at: int)
    requires Inv(y) && NamesDurable(y) && Enabled(y, DoP1(veto, actor, at))
    ensures NamesDurable(Exec(y, DoP1(veto, actor, at)))
  {
    P1Cases(y, veto, actor, at);
    var s, e := y.store, Encode(y.store.lineage, y.store.live, Pending(y.store));
    var z := Exec(y, DoP1(veto, actor, at));
    if z.flight.Some? {
      EncodeOk(s.lineage, s.live, Pending(s));
      CaptureNames(y, e, actor, at);
    }
  }

  lemma CaptureNames(y: System, e: Encoded, actor: nat, at: int)
    requires NamesDurable(y) && Encodes(y, e)
    ensures NamesDurable(AfterCapture(y, e, actor, at))
  {
    var z := AfterCapture(y, e, actor, at);
    assert z.store.dirty == [] == z.store.deleted && z.flight.value.batch.deletes == y.store.deleted && z.base == y.backend;
    hide AfterCapture, Encodes;
  }

  /** What the batch does to the backend, object by object. */
  lemma LandedObjects(y: System)
    requires FlightOk(y) && y.flight.Some?
    ensures y.backend == if y.applied then ApplyBatch(y.base, y.flight.value.batch) else y.base
    ensures forall o :: o in ApplyBatch(y.base, y.flight.value.batch).objects <==>
      (o in y.base.objects || FlightRecord(y.flight, o)) && !FlightDelete(y.flight, o)
  {
    PutAllLookup(y.base.objects, y.flight.value.batch.records);
  }

  lemma QuietP2(y: System)
    requires FlightOk(y) && NamesDurable(y) && Enabled(y, DoP2)
    ensures NamesDurable(Exec(y, DoP2))
  {
    LandedObjects(y);
    var z := Exec(y, DoP2);
    assert z.store == y.store && z.flight == y.flight && z.base == y.base && z.backend == ApplyBatch(y.base, y.flight.value.batch);
    hide FlightOk, ApplyBatch, FlightRecord, FlightDelete, CapturedNew, Exec;
  }

  lemma QuietFail(y: System)
    requires FlightOk(y) && NamesDurable(y) && Enabled(y, DoFail)
    ensures NamesDurable(Exec(y, DoFail))
  {
    CapturedSplit(y);
    RebufferedNames(y, PriorNew(y.flight.value.flipped), PriorOther(y.flight.value.flipped));
  }

  lemma RebufferedNames(y: System, wasNew: seq<Oid>, wasOther: seq<Oid>)
    requires NamesDurable(y) && Enabled(y, DoFail) && y.backend == y.base && y.flight.value.deletes == y.flight.value.batch.deletes
    requires wasNew == PriorNew(y.flight.value.flipped) && wasOther == PriorOther(y.flight.value.flipped)
    requires forall o :: o in wasNew <==> CapturedNew(y.flight, o)
    requires forall o :: o in wasOther <==> FlightRecord(y.flight, o) && !CapturedNew(y.flight, o)
    requires forall o :: CapturedNew(y.flight, o) <==> FlightRecord(y.flight, o) && o !in y.base.objects
    ensures NamesDurable(Exec(y, DoFail))
  {
    hide CapturedNew, PriorNew, PriorOther, PutEach, Without, SetLife;
    RollbackMembers(y.store, y.flight.value);
  }

  lemma QuietP3(y: System)
    requires FlightOk(y) && NamesDurable(y) && Enabled(y, DoP3)
    ensures NamesDurable(Exec(y, DoP3))
  {
    LandedObjects(y);
    var z := Exec(y, DoP3);
    assert z.store.dirty == y.store.dirty && z.store.deleted == y.store.deleted && z.flight.None? && z.backend == y.backend;
    assert forall o :: !FlightRecord(z.flight, o) && !FlightDelete(z.flight, o);
    hide FlightOk, P3, Deliver, FlightRecord, FlightDelete, CapturedNew, Exec, ApplyBatch;
  }

  lemma QuietOther(y: System, step: Step)
    requires NamesDurable(y) && step !in {DoP2, DoFail, DoP3} && !step.DoWrite? && !step.DoDelete? && !step.DoDeleteByKey? && !step.DoP1?
    ensures NamesDurable(Exec(y, step))
  {
    hide StoreNew, Hydrate, Forget, CapturedNew, Boot, Mirrors;
    var z := Exec(y, step);
    if !Enabled(y, step) {
      assert z == y;
    } else if step.DoAttach? || step.DoDetach? {
      assert z.store == y.store && z.flight == y.flight && z.backend == y.backend && z.base == y.base;
    } else if step.DoRestart? || step.DoDiscard? {
      assert z.store == Boot(y.backend) && z.flight.None?;
      BootIsEmpty(y.backend);
    } else {
      UserStepNames(y, step);
    }
  }

  lemma BootIsEmpty(b: BackendState)
    ensures Boot(b).dirty == [] == Boot(b).deleted
  {
  }

  lemma UserStepNames(y: System, step: Step)
    requires step.DoStore? || step.DoStoreRoot? || step.DoHydrate? || step.DoForget?
    ensures var z := Exec(y, step);
      z.store.dirty == y.store.dirty && z.store.deleted == y.store.deleted && z == y.(store := z.store)
  {
  }

  lemma QuietStep(y: System, step: Step)
    requires Inv(y) && NamesDurable(y) && !Racing(y, step)
    ensures NamesDurable(Exec(y, step))
  {
    assert FlightOk(y);
    hide Inv, Exec, NamesDurable, Racing, Enabled, FlightOk;
    if !Enabled(y, step) {
      DisabledStays(y, step);
    } else {
      match step
      case DoWrite(o, value) => QuietWrite(y, o, value);
      case DoDelete(o) => QuietDelete(y, o);
      case DoDeleteByKey(o) => QuietDeleteByKey(y, o);
      case DoP1(veto, actor, at) => QuietP1(y, veto, actor, at);
      case DoP2 => QuietP2(y);
      case DoFail => QuietFail(y);
      case DoP3 => QuietP3(y);
      case _ => QuietOther(y, step);
    }
  }

  ghost predicate Quiet(steps: seq<Step>) {
    forall i :: 0 <= i < |steps| ==> !Racing(After(steps[..i]), steps[i])
  }

  /** A run without a racing step buffers updates and deletions of durable records only, so a watched P1
      finds every prior and tombstone it needs. */
  lemma {:induction false} QuietRunsNameDurable(steps: seq<Step>)
    requires Quiet(steps)
    ensures NamesDurable(After(steps))
    ensures var y := After(steps);
      y.flight.None? ==> PriorsReadable(y.backend.objects, Pending(y.store), y.store.inserts, y.store.deleted)
  {
    hide Inv, Exec, Racing, After;
    NothingRun();
    if steps != [] {
      var front, step := steps[..|steps| - 1], steps[|steps| - 1];
      assert Quiet(front) by {
        forall i | 0 <= i < |front| ensures !Racing(After(front[..i]), front[i]) {
          assert front[..i] == steps[..i] && front[i] == steps[i];
        }
      }
      QuietRunsNameDurable(front);
      Reached(front);
      assert !Racing(After(steps[..|steps| - 1]), steps[|steps| - 1]);
      QuietStep(After(front), step);
      RunAppend(front, step);
      assert front + [step] == steps;
    }
    PendingMembers(After(steps).store);
  }

  lemma NothingRun()
    ensures After([]) == FRESH_SYSTEM
  {
  }

  lemma RunAppend(steps: seq<Step>, step: Step)
    ensures After(steps + [step]) == Exec(After(steps), step)
  {
    assert (steps + [step])[..|steps|] == steps;
  }

  // -------------------------------------------------------------- exactly when

  /** The batch in flight lands: P2 succeeds, then P3. */
  ghost function Lands(y: System): System
    requires y.flight.Some?
  {
    if y.applied then Exec(y, DoP3) else Exec(Exec(y, DoP2), DoP3)
  }

  /** The backend holds this record once the batch in flight has landed. */
  ghost predicate WillStand(y: System, o: Oid) {
    (o in y.base.objects || FlightRecord(y.flight, o)) && !FlightDelete(y.flight, o)
  }

  /** After landing, the store has the buffers it had, over the backend with the batch. */
  lemma LandedState(y: System)
    requires FlightOk(y) && y.flight.Some?
    ensures var z := Lands(y);
      && z.flight.None? && z.store.dirty == y.store.dirty && z.store.deleted == y.store.deleted
      && forall o :: o in z.backend.objects <==> WillStand(y, o)
  {
    LandedObjects(y);
    hide ApplyBatch, FlightRecord, FlightDelete, FlightOk;
  }

  ghost predicate NamesWillStand(y: System) {
    && (forall o :: o in y.store.dirty ==> WillStand(y, o))
    && (forall o :: o in y.store.deleted ==> WillStand(y, o))
  }

  lemma LandedNames(y: System)
    requires FlightOk(y) && y.flight.Some?
    ensures NamesDurable(Lands(y)) <==> NamesWillStand(y)
  {
    LandedState(y);
    hide WillStand, Lands, FlightOk, CapturedNew;
  }

  lemma NamedWillStand(y: System, o: Oid)
    requires Inv(y) && NamesDurable(y) && y.flight.Some? && !FlightDelete(y.flight, o)
    requires o in y.store.dirty || o in y.store.deleted || Persisted(y, o) || Findable(y, o)
    ensures WillStand(y, o)
  {
    LandedObjects(y);
    if o !in y.store.dirty && o !in y.store.deleted && Persisted(y, o) {
      LivingIsNamed(y, o);
    }
    hide Inv, ApplyBatch, FlightRecord, FlightDelete;
  }

  /** What one of these steps adds to the buffers. */
  ghost predicate AddsName(y: System, step: Step, o: Oid) {
    match step
    case DoWrite(p, _) => o == p && Persisted(y, o) && y.store.live[o].life == Clean
    case DoDelete(p) => o == p && y.store.root != Some(o) && Persisted(y, o)
    case DoDeleteByKey(p) => o == p && y.store.root != Some(o) && (o in y.store.live ==> y.store.live[o].life != New)
    case _ => false
  }

  predicate IsUserRace(step: Step) {
    step.DoWrite? || step.DoDelete? || step.DoDeleteByKey?
  }

  lemma StepNames(y: System, step: Step, o: Oid)
    requires IsUserRace(step) && Enabled(y, step)
    ensures var z := Exec(y, step);
      && z == y.(store := z.store)
      && (o in z.store.dirty || o in z.store.deleted ==> o in y.store.dirty || o in y.store.deleted || AddsName(y, step, o))
      && (o in z.store.deleted ==> o in y.store.deleted || (AddsName(y, step, o) && !step.DoWrite?))
      && (AddsName(y, step, o) ==> if step.DoWrite? then o in z.store.dirty else o in z.store.deleted)
  {
    hide Put, Without;
  }

  /** Whether the batch is applied yet or not: exactly these steps leave a name behind that the landing
      takes away. Nothing but the step's own record can be at fault. */
  lemma RaceLandsIff(y: System, step: Step)
    requires Inv(y) && NamesDurable(y) && y.flight.Some? && IsUserRace(step) && Enabled(y, step)
    ensures NamesDurable(Lands(Exec(y, step))) <==> !LostOnLanding(y, step)
  {
    var z := Exec(y, step);
    StepKeeps(y, step);
    LandedNames(z);
    StepNames(y, step, step.o);
    assert AddsName(y, step, step.o) && FlightDelete(y.flight, step.o) <==> LostOnLanding(y, step);
    hide Inv, Exec, NamesDurable, Lands, Persisted;
    if !LostOnLanding(y, step) {
      forall o | o in z.store.dirty || o in z.store.deleted
        ensures WillStand(z, o)
      {
        StepNames(y, step, o);
        NewNameStands(y, step, o);
      }
    }
  }

  lemma NewNameStands(y: System, step: Step, o: Oid)
    requires Inv(y) && NamesDurable(y) && y.flight.Some? && Enabled(y, step) && !LostOnLanding(y, step)
    requires o in y.store.dirty || o in y.store.deleted || AddsName(y, step, o)
    ensures WillStand(y, o)
  {
    hide Inv;
    NamedWillStand(y, o);
  }

  /** The names a failed batch leaves behind, given that it deletes durable records only. */
  lemma FailedNames(y: System)
    requires FlightOk(y) && Enabled(y, DoFail)
    requires forall o :: FlightDelete(y.flight, o) ==> o in y.base.objects
    ensures NamesDurable(Exec(y, DoFail)) <==>
      && (forall o :: o in y.store.dirty ==> o in y.base.objects || CapturedNew(y.flight, o))
      && (forall o :: o in y.store.deleted ==> o in y.base.objects)
  {
    CapturedSplit(y);
    RollbackMembers(y.store, y.flight.value);
    FailedState(y);
    assert y.flight.value.deletes == y.flight.value.batch.deletes;
    NamesLeft(y, Exec(y, DoFail), PriorNew(y.flight.value.flipped), PriorOther(y.flight.value.flipped));
  }

  lemma NamesLeft(y: System, z: System, wasNew: seq<Oid>, wasOther: seq<Oid>)
    requires z.flight.None? && z.backend == y.base && forall o :: FlightDelete(y.flight, o) ==> o in y.base.objects
    requires forall o :: o in wasNew <==> CapturedNew(y.flight, o)
    requires forall o :: o in wasOther ==> o in y.base.objects
    requires forall o :: o in z.store.dirty <==> (o in y.store.dirty && o !in wasNew) || o in wasOther
    requires forall o :: o in z.store.deleted <==> o in y.store.deleted || FlightDelete(y.flight, o)
    ensures NamesDurable(z) <==>
      && (forall o :: o in y.store.dirty ==> o in y.base.objects || CapturedNew(y.flight, o))
      && (forall o :: o in y.store.deleted ==> o in y.base.objects)
  {
    hide CapturedNew;
  }

  lemma FailedState(y: System)
    requires Enabled(y, DoFail) && FlightOk(y)
    ensures var z := Exec(y, DoFail);
      && z.store == Rollback(y.store, y.flight.value) && z.flight.None? && z.backend == y.base
      && forall o :: !FlightRecord(z.flight, o) && !FlightDelete(z.flight, o)
  {
    hide Rollback;
  }

  /** What a step adds is durable, captured new, or unknown to everybody but the store. */
  lemma NewNameFails(y: System, step: Step, o: Oid)
    requires Inv(y) && NamesDurable(y) && Enabled(y, DoFail) && Enabled(y, step) && AddsName(y, step, o)
    ensures o in y.base.objects || CapturedNew(y.flight, o)
  {
    LandedObjects(y);
    if !FlightDelete(y.flight, o) && Persisted(y, o) {
      LivingIsNamed(y, o);
    }
    hide Inv, ApplyBatch, FlightRecord, FlightDelete;
  }

  lemma LostOnFailureAdds(y: System, step: Step)
    requires IsUserRace(step) && Enabled(y, DoFail)
    ensures LostOnFailure(y, step) <==> step.DoDelete? && AddsName(y, step, step.o) && CapturedNew(y.flight, step.o)
  {
    hide CapturedNew;
  }

  lemma FailedAfterStep(y: System, step: Step)
    requires Inv(y) && NamesDurable(y) && Enabled(y, DoFail) && IsUserRace(step) && Enabled(y, step)
    ensures var z := Exec(y, step);
      NamesDurable(Exec(z, DoFail)) <==>
        && (forall o :: o in z.store.dirty ==> o in y.base.objects || CapturedNew(y.flight, o))
        && (forall o :: o in z.store.deleted ==> o in y.base.objects)
  {
    var z := Exec(y, step);
    StepKeeps(y, step);
    StepNames(y, step, step.o);
    assert FlightOk(z);
    hide Exec, Inv, FlightOk, CapturedNew, FlightRecord, FlightDelete;
    FailedNames(z);
  }

  /** Exactly deleting an entity whose insert is in flight leaves an undurable name when the batch fails. */
  lemma RaceFailsIff(y: System, step: Step)
    requires Inv(y) && NamesDurable(y) && Enabled(y, DoFail) && IsUserRace(step) && Enabled(y, step)
    ensures NamesDurable(Exec(Exec(y, step), DoFail)) <==> !LostOnFailure(y, step)
  {
    StepNames(y, step, step.o);
    FailedAfterStep(y, step);
    LostOnFailureAdds(y, step);
    OldNamesFail(y);
    if CapturedNew(y.flight, step.o) {
      CapturedNewIsNew(y, step.o);
    }
    if step.DoDeleteByKey? {
      FoundWasDurable(y, step);
    }
    hide Inv, Exec, NamesDurable, Persisted, LostOnFailure, FlightRecord, FlightDelete, CapturedNew, Enabled, AddsName;
    if !LostOnFailure(y, step) {
      forall o | o in Exec(y, step).store.dirty || o in Exec(y, step).store.deleted
        ensures o in y.base.objects || CapturedNew(y.flight, o)
        ensures o in Exec(y, step).store.deleted ==> o in y.base.objects
      {
        StepNames(y, step, o);
        if AddsName(y, step, o) {
          AddsItsOwn(y, step, o);
          NewNameFails(y, step, o);
        }
      }
    }
  }

  lemma AddsItsOwn(y: System, step: Step, o: Oid)
    requires IsUserRace(step) && AddsName(y, step, o)
    ensures o == step.o
  {
  }

  lemma CapturedNewIsNew(y: System, o: Oid)
    requires Inv(y) && CapturedNew(y.flight, o)
    ensures o !in y.base.objects
  {
    hide BuffersOk, ValuesOk, IdsOk, TypesOk, TidsOk, ConsumerOk;
    CapturedSplit(y);
  }

  lemma OldNamesFail(y: System)
    requires Inv(y) && NamesDurable(y) && Enabled(y, DoFail)
    ensures forall o :: o in y.store.dirty ==> o in y.base.objects || CapturedNew(y.flight, o)
    ensures forall o :: o in y.store.deleted ==> o in y.base.objects
  {
    LandedObjects(y);
    hide Inv, FlightDelete, FlightRecord, CapturedNew, ApplyBatch;
  }

  /** A record found by key while the batch is not applied is durable. */
  lemma FoundWasDurable(y: System, step: Step)
    requires Inv(y) && Enabled(y, DoFail) && Enabled(y, step) && step.DoDeleteByKey?
    ensures step.o in y.base.objects
  {
  }

  // -------------------------------------------------- what an undurable name does

  /** A buffered update or deletion that no record stands behind. */
  ghost predicate Undurable(y: System, o: Oid) {
    o !in y.backend.objects && (o in y.store.dirty || o in y.store.deleted)
  }

  /** An undurable update, or an undurable deletion under the eyes of a consumer. */
  ghost predicate Wedged(y: System, o: Oid) {
    y.flight.None? && o !in y.backend.objects && (o in y.store.dirty || (y.watched && o in y.store.deleted))
  }

  /** Discovery refuses the update's instance, which is deleted; the prior of the deletion cannot be read.
      P1 is rejected either way, whatever the validators say, and keeps every buffer. */
  lemma WedgedRejects(y: System, o: Oid, veto: bool, actor: nat, at: int)
    requires Inv(y) && Wedged(y, o)
    ensures var (s, result) := P1(y.store, y.backend.objects, y.watched, veto, actor, at);
      result == Rejected && s == y.store.(lineage := s.lineage)
  {
    var s := y.store;
    if o in s.dirty {
      assert !Persisted(y, o) && o in s.inserts + s.dirty;
      assert HoldsDeleted(s);
    } else {
      assert !PriorsReadable(y.backend.objects, Pending(s), s.inserts, s.deleted);
    }
    hide Inv, PriorsReadable, Encode, Pending, HoldsDeleted;
  }

  /** What ends a wedge: starting over from the backend or, where only a deletion is at fault, detaching
      the consumer whose delta could not be built. */
  predicate FreesName(y: System, step: Step, o: Oid) {
    step == DoDiscard || step == DoRestart || (step == DoDetach && o !in y.store.dirty)
  }

  lemma WedgedStep(y: System, step: Step, o: Oid)
    requires Inv(y) && Wedged(y, o) && !FreesName(y, step, o)
    ensures Wedged(Exec(y, step), o) && Exec(y, step).backend == y.backend
    ensures o in y.store.dirty ==> o in Exec(y, step).store.dirty
  {
    if step.DoP1? {
      WedgedRejects(y, o, step.veto, step.actor, step.at);
      hide P1, Inv;
    } else if step.DoDelete? || step.DoDeleteByKey? {
      WedgedDelete(y, step, o);
    } else {
      hide Put, Without, SetLife, Inv, Mirrors;
    }
  }

  lemma WedgedDelete(y: System, step: Step, o: Oid)
    requires Inv(y) && Wedged(y, o) && (step.DoDelete? || step.DoDeleteByKey?)
    ensures Wedged(Exec(y, step), o) && Exec(y, step).backend == y.backend
    ensures o in y.store.dirty ==> o in Exec(y, step).store.dirty
  {
    // Only the delete of `o` itself could take it out of the updates; its instance is deleted already.
    if o in y.store.dirty {
      assert !Persisted(y, o);
    }
    hide Put, SetLife;
  }

  /** From then on nothing gets through: whatever is stored, written, deleted or retried, no commit changes
      the backend until the buffers are discarded, the store is reopened or, for an undurable deletion, the
      consumer is detached. Detaching does not help an undurable update. */
  lemma {:induction false} WedgedForever(y: System, steps: seq<Step>, o: Oid)
    requires Inv(y) && Wedged(y, o) && DoDiscard !in steps && DoRestart !in steps
    requires o in y.store.dirty || DoDetach !in steps
    ensures Wedged(Run(y, steps), o) && Run(y, steps).backend == y.backend
    ensures o in y.store.dirty ==> o in Run(y, steps).store.dirty
  {
    hide Inv, Exec, Wedged;
    if steps != [] {
      var front := steps[..|steps| - 1];
      WedgedForever(y, front, o);
      RunKeeps(y, front);
      WedgedStep(Run(y, front), steps[|steps| - 1], o);
    }
  }

  /** Each way out is one: after it the name wedges nothing. */
  lemma FreedName(y: System, step: Step, o: Oid)
    requires Inv(y) && Wedged(y, o) && FreesName(y, step, o)
    ensures !Wedged(Exec(y, step), o) && Exec(y, step).backend == y.backend
  {
    if step != DoDetach {
      BootIsEmpty(y.backend);
    }
    hide Inv, Boot;
  }

  /** Without a consumer an undurable deletion is harmless: the commit that carries it lands, deletes what
      is stored and leaves no undurable name. */
  lemma UnwatchedDeletionLands(y: System, actor: nat, at: int)
    requires Inv(y) && !y.watched && y.flight.None? && y.store.deleted != [] && !HoldsDeleted(y.store)
    requires forall x :: x in Pending(y.store) ==> x in y.store.live && y.store.live[x].value.encodable
    ensures var z := Exec(y, DoP1(false, actor, at));
      && z.flight.Some? && NamesDurable(Lands(z))
      && forall o :: o in y.store.deleted ==> o !in Lands(z).backend.objects
  {
    UnwatchedCaptures(y, actor, at);
    StepKeeps(y, DoP1(false, actor, at));
    hide Inv, Exec, Lands, Pending, HoldsDeleted;
    var z := Exec(y, DoP1(false, actor, at));
    InvFlight(z);
    LandedState(z);
    LandedNames(z);
  }

  /** So detaching the consumer lets the undurable deletion through. A consumer rebuilt from the store as it
      then is can be attached at once. */
  lemma DetachFreesDeletion(y: System, actor: nat, at: int)
    requires Inv(y) && y.watched && y.flight.None? && y.store.deleted != [] && !HoldsDeleted(y.store)
    requires forall x :: x in Pending(y.store) ==> x in y.store.live && y.store.live[x].value.encodable
    ensures var z := Exec(Exec(y, DoDetach), DoP1(false, actor, at));
      && z.flight.Some? && NamesDurable(Lands(z))
      && (forall o :: o in y.store.deleted ==> o !in Lands(z).backend.objects)
      && Enabled(Lands(z), DoAttach(Image(Lands(z).backend)))
  {
    var x := Exec(y, DoDetach);
    assert x == y.(watched := false);
    StepKeeps(y, DoDetach);
    UnwatchedDeletionLands(x, actor, at);
    StepKeeps(x, DoP1(false, actor, at));
    UnwatchedCaptures(x, actor, at);
    hide Inv, Exec, HoldsDeleted, Pending, NamesDurable, Lands;
    ImageAttaches(Exec(x, DoP1(false, actor, at)));
  }

  lemma ImageAttaches(y: System)
    requires Inv(y) && y.flight.Some? && !y.watched
    ensures Enabled(Lands(y), DoAttach(Image(Lands(y).backend)))
  {
    var x := if y.applied then y else Exec(y, DoP2);
    LandsUnwatched(y);
    hide Exec, Lands;
    StepKeeps(y, DoP2);
    StepKeeps(x, DoP3);
    ImageFits(Lands(y));
  }

  lemma LandsUnwatched(y: System)
    requires y.flight.Some? && !y.watched
    ensures Lands(y) == Exec(if y.applied then y else Exec(y, DoP2), DoP3) && !Lands(y).watched && Lands(y).flight.None?
  {
    hide ApplyBatch, P3, ApplierStep;
  }

  lemma ImageFits(y: System)
    requires Inv(y) && y.flight.None? && !y.watched
    ensures Enabled(y, DoAttach(Image(y.backend)))
  {
    hide BuffersOk, ValuesOk, IdsOk, TypesOk, FlightOk, ConsumerOk, AddTypes, Payloads;
    MirrorsIsImage(Image(y.backend), y.backend);
  }

  lemma UnwatchedCaptures(y: System, actor: nat, at: int)
    requires y.flight.None? && !y.watched && y.store.deleted != [] && !HoldsDeleted(y.store)
    requires forall x :: x in Pending(y.store) ==> x in y.store.live && y.store.live[x].value.encodable
    ensures var z := Exec(y, DoP1(false, actor, at));
      && z.flight.Some? && z.store.dirty == [] == z.store.deleted && !z.watched
      && forall o :: FlightDelete(z.flight, o) <==> o in y.store.deleted
  {
    EncodeSucceeds(y.store.lineage, y.store.live, Pending(y.store));
    P1Cases(y, false, actor, at);
    hide Exec, Encode, Pending, HoldsDeleted, Flips, Stamp, SetLife;
  }

  lemma {:induction false} EncodeSucceeds(l: Lineage, live: map<Oid, Entity>, oids: seq<Oid>)
    requires forall o :: o in oids ==> o in live && live[o].value.encodable
    ensures Encode(l, live, oids).ok
  {
    if oids != [] {
      assert oids == oids[..|oids| - 1] + [oids[|oids| - 1]];
      EncodeSucceeds(l, live, oids[..|oids| - 1]);
    }
  }

  lemma InvFlight(y: System)
    requires Inv(y)
    ensures FlightOk(y)
  {
  }

  // ---------------------------------------------------------- deletes are final

  /** The backend has counted past this OID and holds no record of it. */
  ghost predicate Dead(y: System, o: Oid) {
    o < y.backend.meta.nextOid && o !in y.backend.objects
  }

  lemma DeadIsNotCaptured(y: System, o: Oid)
    requires Inv(y) && Dead(y, o)
    ensures !y.applied ==> !FlightRecord(y.flight, o)
  {
    if FlightRecord(y.flight, o) && !y.applied {
      CapturedSplit(y);
    }
  }

  lemma DeadStep(y: System, step: Step, o: Oid)
    requires Inv(y) && Dead(y, o)
    ensures Dead(Exec(y, step), o)
  {
    if step == DoP2 && Enabled(y, step) {
      DeadIsNotCaptured(y, o);
      LandedObjects(y);
      assert y.base.meta.nextOid <= y.flight.value.batch.meta.nextOid;
    }
    hide Inv, FlightRecord, P1, P3, Rollback, ApplierStep, Boot;
  }

  /** Deletes are final, and so is every OID a commit has counted past: in no continuation of any run,
      whatever races or fails, does such an OID name a record again. */
  lemma {:induction false} DeletesAreFinal(steps: seq<Step>, more: seq<Step>, o: Oid)
    requires Dead(After(steps), o)
    ensures Dead(After(steps + more), o)
  {
    hide Inv, Exec, After, Dead;
    if more == [] {
      assert steps + more == steps;
    } else {
      var front, step := more[..|more| - 1], more[|more| - 1];
      DeletesAreFinal(steps, front, o);
      Reached(steps + front);
      DeadStep(After(steps + front), step, o);
      RunAppend(steps + front, step);
      assert steps + front + [step] == steps + more;
    }
  }

  lemma LandedLife(y: System, o: Oid)
    requires FlightOk(y) && y.flight.Some? && !y.applied && o in y.store.live && !FlightDelete(y.flight, o)
    ensures var z := Lands(y);
      o in z.store.live && z.store.live[o] == y.store.live[o] && z.store.deleted == y.store.deleted && z.flight.None?
  {
    assert o !in ToSet(y.flight.value.deletes);
    hide ApplyBatch;
  }

  // ------------------------------------------------------------ the races are real

  const COMMIT := DoP1(false, 0, 0)

  /** Stores one entity, commits it, and lets the program drop it. */
  function FirstCommit(shape: Shape, bytes: Bytes): seq<Step> {
    [DoStore(shape, Value(bytes, true)), COMMIT, DoP2, DoP3, DoForget(OID_BASE)]
  }

  lemma {:induction false} RunCons(y: System, step: Step, rest: seq<Step>)
    ensures Run(y, [step] + rest) == Run(Exec(y, step), rest)
  {
    var steps := [step] + rest;
    if rest == [] {
      assert steps[..0] == [];
    } else {
      var front := rest[..|rest| - 1];
      RunCons(y, step, front);
      assert steps[..|steps| - 1] == [step] + front;
    }
  }

  lemma RunFive(y: System, a: Step, b: Step, c: Step, d: Step, e: Step)
    ensures Run(y, [a, b, c, d, e]) == Exec(Exec(Exec(Exec(Exec(y, a), b), c), d), e)
  {
    hide Exec, Run;
    assert [a, b, c, d, e] == [a] + [b, c, d, e] && [b, c, d, e] == [b] + [c, d, e];
    assert [c, d, e] == [c] + [d, e] && [d, e] == [d] + [e];
    RunCons(y, a, [b, c, d, e]);
    RunCons(Exec(y, a), b, [c, d, e]);
    RunCons(Exec(Exec(y, a), b), c, [d, e]);
    RunCons(Exec(Exec(Exec(y, a), b), c), d, [e]);
    RunAppendTo(Exec(Exec(Exec(Exec(y, a), b), c), d), e);
  }

  lemma RunAppendTo(y: System, e: Step)
    ensures Run(y, [e]) == Exec(y, e)
  {
    assert [e][..0] == [];
  }

  lemma AppendSteps(a: seq<Step>, b: seq<Step>)
    ensures After(a + b) == Run(After(a), b)
  {
    if b == [] {
      assert a + b == a;
    } else {
      var front := b[..|b| - 1];
      AppendSteps(a, front);
      assert (a + b)[..|a + b| - 1] == a + front;
    }
  }

  lemma Attached(steps: seq<Step>)
    requires DoRestart !in steps && DoDetach !in steps
    ensures Inv(After(steps)) && After(steps).watched
  {
    Reached(steps);
    StaysAttached(steps);
  }

  lemma OneInsert(shape: Shape, bytes: Bytes)
    ensures var y := Exec(FRESH_SYSTEM, DoStore(shape, Value(bytes, true)));
      && y.flight.None? && y.store.inserts == [OID_BASE] && y.store.dirty == [] && y.store.deleted == []
      && OID_BASE in y.store.live && y.store.live[OID_BASE].value.encodable && y.store.root == None
      && y.store.live[OID_BASE].shape == shape && y.backend == FRESH_BACKEND && KindsOk(FRESH_SYSTEM)
  {
  }

  lemma OneInsertCaptured(y: System, o: Oid)
    requires Inv(y) && y.flight.None? && y.store.inserts == [o] && y.store.dirty == [] && y.store.deleted == []
    requires o in y.store.live && y.store.live[o].value.encodable
    ensures var z := Exec(y, COMMIT);
      && z.flight.Some? && !z.applied && CapturedNew(z.flight, o) && FlightRecord(z.flight, o) && z.flight.value.batch.deletes == []
      && z.store.inserts == [] && z.store.dirty == [] && z.store.deleted == [] && z.store.root == y.store.root
      && o in z.store.live && z.store.live[o] == y.store.live[o].(life := Clean) && z.backend == y.backend && z.watched == y.watched
  {
    PendingMembers(y.store);
    EncodeSucceeds(y.store.lineage, y.store.live, Pending(y.store));
    EncodeOk(y.store.lineage, y.store.live, Pending(y.store));
    var e := Encode(y.store.lineage, y.store.live, Pending(y.store));
    assert o in Pending(y.store);
    P1Cases(y, false, 0, 0);
    CapturedRecords(y, e, 0, 0);
    var z := AfterCapture(y, e, 0, 0);
    var i :| 0 <= i < |Pending(y.store)| && Pending(y.store)[i] == o;
    assert z.flight.value.flipped[i] == (o, New);
    assert FlightRecord(z.flight, o);
  }

  lemma OneDeleteCaptured(y: System, o: Oid)
    requires Inv(y) && y.flight.None? && y.store.inserts == [] && y.store.dirty == [] && y.store.deleted == [o]
    requires o in y.backend.objects
    ensures var z := Exec(y, COMMIT);
      && z.flight.Some? && !z.applied && FlightDelete(z.flight, o) && o in z.base.objects && z.backend == y.backend
      && z.store.dirty == [] && z.store.deleted == [] && z.store.root == y.store.root && z.store.live.Keys == y.store.live.Keys
      && (o in y.store.live ==> z.store.live[o] == y.store.live[o])
  {
    PendingMembers(y.store);
    if Pending(y.store) != [] {
      HasMember(Pending(y.store));
    }
    P1Cases(y, false, 0, 0);
  }

  /** After its commit the entity is durable and forgotten, and nothing is buffered. */
  ghost predicate Committed(y: System, shape: Shape) {
    && OID_BASE in y.backend.objects && y.backend.objects[OID_BASE].cid in y.store.lineage.shapeOf
    && y.store.lineage.shapeOf[y.backend.objects[OID_BASE].cid].typename == shape.typename
    && y.flight.None? && OID_BASE !in y.store.live && y.store.root.None?
    && y.store.inserts == [] && y.store.dirty == [] && y.store.deleted == []
  }

  lemma LandsQuietly(y: System)
    requires y.flight.Some?
    ensures Lands(y).store.inserts == y.store.inserts && Lands(y).store.root == y.store.root
  {
    hide ApplyBatch, ApplierStep, SetLife;
  }

  lemma ForgetCommits(y: System)
    requires KindsOk(y) && y.flight.None? && OID_BASE in y.backend.objects && y.store.root.None?
    requires y.store.inserts == [] && y.store.dirty == [] && y.store.deleted == []
    requires OID_BASE in y.store.live && y.store.live[OID_BASE].life == Clean
    ensures Committed(Exec(y, DoForget(OID_BASE)), y.store.live[OID_BASE].shape)
  {
    assert KindAt(y.store.lineage, y.store.live[OID_BASE], y.backend.objects[OID_BASE]);
  }

  lemma LandsKinds(y: System)
    requires Inv(y) && KindsOk(y) && y.flight.Some?
    ensures KindsOk(Lands(y))
  {
    hide Inv, KindsOk;
    if y.applied {
      StepKeepsKinds(y, DoP3);
    } else {
      StepKeeps(y, DoP2);
      StepKeepsKinds(y, DoP2);
      StepKeepsKinds(Exec(y, DoP2), DoP3);
    }
  }

  lemma FirstCommitDone(shape: Shape, bytes: Bytes)
    ensures Committed(After(FirstCommit(shape, bytes)), shape)
  {
    var y1 := Exec(FRESH_SYSTEM, DoStore(shape, Value(bytes, true)));
    var y2 := Exec(y1, COMMIT);
    FreshOk();
    OneInsert(shape, bytes);
    hide Exec, Inv, Run, KindsOk;
    StepKeeps(FRESH_SYSTEM, DoStore(shape, Value(bytes, true)));
    StepKeeps(y1, COMMIT);
    StepKeepsKinds(FRESH_SYSTEM, DoStore(shape, Value(bytes, true)));
    StepKeepsKinds(y1, COMMIT);
    OneInsertCaptured(y1, OID_BASE);
    LandsKinds(y2);
    assert FlightOk(y2) by {
      InvFlight(y2);
    }
    LandedState(y2);
    LandedLife(y2, OID_BASE);
    LandsQuietly(y2);
    ForgetCommits(Lands(y2));
    RunFive(FRESH_SYSTEM, DoStore(shape, Value(bytes, true)), COMMIT, DoP2, DoP3, DoForget(OID_BASE));
  }

  /** A record whose deletion is in flight and whose name is buffered again is undurable once it lands. */
  lemma LandsUndurable(y: System, o: Oid)
    requires Inv(y) && FlightDelete(y.flight, o) && (o in y.store.dirty || o in y.store.deleted)
    ensures Lands(y).flight.None? && Undurable(Lands(y), o)
  {
    LandedState(y);
    hide Inv, Lands;
  }

  lemma KeyedDelete(y: System, shape: Shape)
    requires Committed(y, shape)
    ensures var z := Exec(y, DoDeleteByKey(OID_BASE));
      z == y.(store := z.store) && z.store.deleted == [OID_BASE] && z.store.inserts == [] && z.store.dirty == []
      && z.store.live == y.store.live && z.store.lineage == y.store.lineage && z.store.root.None?
  {
  }

  lemma TwinLoaded(y: System, shape: Shape)
    requires y.flight.None? && Enabled(y, DoHydrate(OID_BASE, shape))
    ensures var z := Exec(y, DoHydrate(OID_BASE, shape));
      z == y.(store := z.store) && OID_BASE in z.store.live && z.store.live[OID_BASE].life == Clean
      && z.store == y.store.(live := z.store.live)
  {
  }

  lemma TwinWritten(y: System, value: Value)
    requires y.flight.Some? && OID_BASE in y.store.live && y.store.live[OID_BASE].life == Clean
    ensures var z := Exec(y, DoWrite(OID_BASE, value));
      z == y.(store := z.store) && OID_BASE in z.store.dirty
  {
  }

  /** Deleted unloaded by key, loaded as a second instance, written while the deletion is in flight. */
  lemma TwinWriteWedges(shape: Shape, bytes: Bytes, value: Value)
    ensures Wedged(After(FirstCommit(shape, bytes)
                         + [DoDeleteByKey(OID_BASE), DoHydrate(OID_BASE, shape), COMMIT]
                         + [DoWrite(OID_BASE, value), DoP2, DoP3]), OID_BASE)
  {
    var a, b, c := FirstCommit(shape, bytes), [DoDeleteByKey(OID_BASE), DoHydrate(OID_BASE, shape), COMMIT],
      [DoWrite(OID_BASE, value), DoP2, DoP3];
    hide Exec, Inv, Run, After, Lands;
    FirstCommitDone(shape, bytes);
    var y1 := Exec(After(a), DoDeleteByKey(OID_BASE));
    var y2 := Exec(y1, DoHydrate(OID_BASE, shape));
    var y3 := Exec(y2, COMMIT);
    KeyedDelete(After(a), shape);
    TwinLoaded(y1, shape);
    AppendSteps(a, b);
    RunThree(After(a), DoDeleteByKey(OID_BASE), DoHydrate(OID_BASE, shape), COMMIT);
    Reached(a);
    StepKeeps(After(a), DoDeleteByKey(OID_BASE));
    StepKeeps(y1, DoHydrate(OID_BASE, shape));
    OneDeleteCaptured(y2, OID_BASE);
    TwinWritten(y3, value);
    LandingWedges(a + b, c, DoWrite(OID_BASE, value));
  }

  /** Deleted by key twice, the second time while the first deletion is in flight. */
  lemma SecondDeleteWedges(shape: Shape, bytes: Bytes)
    ensures Wedged(After(FirstCommit(shape, bytes) + [DoDeleteByKey(OID_BASE), COMMIT]
                         + [DoDeleteByKey(OID_BASE), DoP2, DoP3]), OID_BASE)
  {
    var a, b, c := FirstCommit(shape, bytes), [DoDeleteByKey(OID_BASE), COMMIT], [DoDeleteByKey(OID_BASE), DoP2, DoP3];
    hide Exec, Inv, Run, After, Lands;
    FirstCommitDone(shape, bytes);
    var y1 := Exec(After(a), DoDeleteByKey(OID_BASE));
    var y2 := Exec(y1, COMMIT);
    KeyedDelete(After(a), shape);
    AppendSteps(a, b);
    RunTwo(After(a), DoDeleteByKey(OID_BASE), COMMIT);
    Reached(a);
    StepKeeps(After(a), DoDeleteByKey(OID_BASE));
    OneDeleteCaptured(y1, OID_BASE);
    DeletedAgain(y2);
    LandingWedges(a + b, c, DoDeleteByKey(OID_BASE));
  }

  lemma DeletedAgain(y: System)
    requires y.flight.Some? && OID_BASE in y.base.objects && y.store.deleted == [] && y.store.root.None? && OID_BASE !in y.store.live
    ensures var z := Exec(y, DoDeleteByKey(OID_BASE));
      z == y.(store := z.store) && OID_BASE in z.store.deleted
  {
  }

  /** The racing step, then the landing, leave the undurable name. */
  lemma LandingWedges(steps: seq<Step>, last: seq<Step>, step: Step)
    requires last == [step, DoP2, DoP3] && DoRestart !in steps + [step] && DoDetach !in steps + [step]
    requires var y, z := After(steps), Exec(After(steps), step);
      && z.flight == y.flight && z.applied == y.applied == false && FlightDelete(y.flight, OID_BASE)
      && (OID_BASE in z.store.dirty || OID_BASE in z.store.deleted)
    ensures Wedged(After(steps + last), OID_BASE)
  {
    hide Exec, Inv, Run, After, FlightDelete;
    var z := Exec(After(steps), step);
    Reached(steps);
    StepKeeps(After(steps), step);
    LandsUndurable(z, OID_BASE);
    AppendSteps(steps, last);
    RunThree(After(steps), step, DoP2, DoP3);
    Attached(steps + last);
  }

  lemma RunTwo(y: System, a: Step, b: Step)
    ensures Run(y, [a, b]) == Exec(Exec(y, a), b)
  {
    hide Exec, Run;
    assert [a, b] == [a] + [b];
    RunCons(y, a, [b]);
    RunAppendTo(Exec(y, a), b);
  }

  lemma RunThree(y: System, a: Step, b: Step, c: Step)
    ensures Run(y, [a, b, c]) == Exec(Exec(Exec(y, a), b), c)
  {
    hide Exec, Run;
    assert [a, b, c] == [a] + [b, c];
    RunCons(y, a, [b, c]);
    RunTwo(Exec(y, a), b, c);
  }

  /** A new entity deleted while its insert is in flight, whose batch then fails. */
  lemma FailedInsertWedges(shape: Shape, bytes: Bytes)
    ensures Wedged(After([DoStore(shape, Value(bytes, true)), COMMIT] + [DoDelete(OID_BASE), DoFail]), OID_BASE)
  {
    var a, b := [DoStore(shape, Value(bytes, true)), COMMIT], [DoDelete(OID_BASE), DoFail];
    hide Exec, Inv, Run, After;
    var y1 := Exec(FRESH_SYSTEM, DoStore(shape, Value(bytes, true)));
    var y2 := Exec(y1, COMMIT);
    FreshOk();
    OneInsert(shape, bytes);
    StepKeeps(FRESH_SYSTEM, DoStore(shape, Value(bytes, true)));
    StepKeeps(y1, COMMIT);
    OneInsertCaptured(y1, OID_BASE);
    FreshRun(a);
    RunTwo(FRESH_SYSTEM, DoStore(shape, Value(bytes, true)), COMMIT);
    AppendSteps(a, b);
    RunTwo(y2, DoDelete(OID_BASE), DoFail);
    Attached(a + b);
    InsertDeleted(y2);
  }

  lemma FreshRun(steps: seq<Step>)
    ensures After(steps) == Run(FRESH_SYSTEM, steps)
  {
  }

  lemma DeletionBuffered(y: System)
    requires y.flight.Some? && y.store.root.None? && OID_BASE in y.store.live && y.store.live[OID_BASE].life == Clean
    ensures var z := Exec(y, DoDelete(OID_BASE));
      z == y.(store := z.store) && OID_BASE in z.store.deleted
  {
  }

  lemma InsertDeleted(y: System)
    requires Inv(y) && y.flight.Some? && !y.applied && CapturedNew(y.flight, OID_BASE) && y.store.root.None?
    requires OID_BASE in y.store.live && y.store.live[OID_BASE].life == Clean
    ensures var z := Exec(Exec(y, DoDelete(OID_BASE)), DoFail);
      z.flight.None? && Undurable(z, OID_BASE)
  {
    hide Inv, CapturedNew, Exec, FlightOk, FlightRecord, FlightDelete;
    var z := Exec(y, DoDelete(OID_BASE));
    CapturedNewIsNew(y, OID_BASE);
    DeletionBuffered(y);
    StepKeeps(y, DoDelete(OID_BASE));
    InvFlight(z);
    FailedState(z);
    RollbackMembers(z.store, z.flight.value);
  }
}
