/**
 The life of a consumer that is attached at any moment, also over a commit in flight. It hears every later
 commit exactly when it was not attached over a commit whose capture had found nobody to build a delta for.
 */
module ConsumerRuns {
  import opened Wire
  import opened Replication
  import opened Commit
  import opened CommitRuns
  import opened TypeRuns
  import opened CommitRaces

  /** A commit without a delta lands while the consumer is attached. */
  predicate Unheard(y: System, step: Step) {
    step == DoP3 && Enabled(y, step) && y.watched && y.flight.value.delta.None?
  }

  ghost predicate MissesCommit(y: System, steps: seq<Step>) {
    exists i :: 0 <= i < |steps| && Unheard(Run(y, steps[..i]), steps[i])
  }

  predicate KeepsWatch(step: Step) {
    step != DoRestart && step != DoDetach && !step.DoAttach?
  }

  /** One step of an attached consumer's life: it falls behind exactly when a commit lands unheard, and
      once behind it never hears a delta again. */
  lemma WatchStep(y: System, step: Step)
    requires Inv(y) && KeepsWatch(step)
    ensures UpToDate(Exec(y, step)) <==> UpToDate(y) && !Unheard(y, step)
    ensures !UpToDate(y) ==> Exec(y, step).applier == y.applier || !Exec(y, step).watched
    ensures OnTime(y) ==> OnTime(Exec(y, step)) && !Unheard(y, step)
  {
    if !Enabled(y, step) {
      DisabledStays(y, step);
    } else if step == DoP3 {
      P3Consumer(y);
    } else if step.DoP1? {
      P1Watch(y, step.veto, step.actor, step.at);
    } else {
      OtherWatch(y, step);
    }
  }

  /** An attached consumer stays faithful exactly while no commit lands unheard, and only the commit it was
      attached over can. */
  lemma {:induction false} AttachedFaithfulIff(y: System, steps: seq<Step>)
    requires Inv(y) && UpToDate(y) && forall s :: s in steps ==> KeepsWatch(s)
    ensures UpToDate(Run(y, steps)) <==> !MissesCommit(y, steps)
    ensures MissesCommit(y, steps) ==> !OnTime(y)
    ensures OnTime(y) ==> OnTime(Run(y, steps))
    ensures UpToDate(Run(y, steps)) ==> Mirrors(Run(y, steps).applier, Finalized(Run(y, steps)))
  {
    hide Exec, UpToDate, OnTime, Unheard, KeepsWatch;
    hide Inv;
    RunKeeps(y, steps);
    UpToDateMirrors(Run(y, steps));
    if steps != [] {
      var front, step := steps[..|steps| - 1], steps[|steps| - 1];
      assert steps == front + [step];
      AttachedFaithfulIff(y, front);
      RunKeeps(y, front);
      WatchStep(Run(y, front), step);
      MissesOneMore(y, front, step);
    }
  }

  lemma UpToDateMirrors(y: System)
    requires Inv(y)
    ensures UpToDate(y) ==> Mirrors(y.applier, Finalized(y))
  {
  }

  lemma MissesOneMore(y: System, front: seq<Step>, step: Step)
    ensures MissesCommit(y, front + [step]) <==> MissesCommit(y, front) || Unheard(Run(y, front), step)
  {
    hide Unheard, Run;
    var steps := front + [step];
    assert steps[..|front|] == front && steps[|front|] == step;
    assert forall i :: 0 <= i < |front| ==> steps[..i] == front[..i] && steps[i] == front[i];
    if i :| 0 <= i < |front| && Unheard(Run(y, front[..i]), front[i]) {
      assert Unheard(Run(y, steps[..i]), steps[i]);
    }
    if i :| 0 <= i < |steps| && Unheard(Run(y, steps[..i]), steps[i]) {
      if i < |front| {
        assert Unheard(Run(y, front[..i]), front[i]);
      }
    }
  }

  /** Attached over a commit in flight, a consumer has heard that commit once it landed exactly when its
      capture carries a delta. Otherwise it is one commit behind, still attached. */
  lemma LateAttachIff(y: System, a: ApplierState)
    requires Inv(y) && Enabled(y, DoAttach(a)) && y.flight.Some?
    ensures var z := Lands(Exec(y, DoAttach(a)));
      && z.watched && z.flight.None?
      && (UpToDate(z) <==> !AttachedLate(y, DoAttach(a)))
      && (!UpToDate(z) ==> z.applier == a && a.watermark + 1 == z.store.lastTid)
  {
    var x := Exec(y, DoAttach(a));
    StepKeeps(y, DoAttach(a));
    assert x == y.(applier := a, watched := true) && UpToDate(x);
    LandingHeard(x);
  }

  /** What landing the batch in flight does to the attached consumer. */
  lemma LandingHeard(y: System)
    requires Inv(y) && y.watched && y.flight.Some?
    ensures var z := Lands(y);
      && z.flight.None? && z.store.lastTid == y.store.lastTid + 1
      && (y.flight.value.delta.Some? ==> (z.watched <==> UpToDate(y)) && (UpToDate(y) ==> UpToDate(z)))
      && (y.flight.value.delta.None? ==> z.watched && z.applier == y.applier)
  {
    var x := if y.applied then y else Exec(y, DoP2);
    StepKeeps(y, DoP2);
    assert x.flight == y.flight && x.applied && x.store == y.store && x.watched && x.applier == y.applier && x.base == y.base;
    assert FlightOk(x) && ConsumerOk(x) && TidsOk(x) by {
      hide FlightOk, ConsumerOk, TidsOk, Exec;
    }
    assert Enabled(x, DoP3) && Lands(y) == Exec(x, DoP3);
    hide Inv, FlightOk, ConsumerOk, TidsOk;
    P3Consumer(x);
    P3Settled(x);
    hide Exec, Lands;
  }

  /** A consumer that is behind is detached by the first commit that starts and lands under it. */
  lemma BehindIsDetached(y: System, veto: bool, actor: nat, at: int)
    requires Inv(y) && y.watched && !UpToDate(y) && y.flight.None? && Enabled(y, DoP1(veto, actor, at))
    ensures var z := Exec(y, DoP1(veto, actor, at));
      z.flight.Some? ==> z.flight.value.delta.Some? && !Lands(z).watched
  {
    P1Watch(y, veto, actor, at);
    StepKeeps(y, DoP1(veto, actor, at));
    hide Inv, Exec, Lands;
    var z := Exec(y, DoP1(veto, actor, at));
    if z.flight.Some? {
      LandingHeard(z);
    }
  }

  // --------------------------------------------------------------- it is reached

  /** Detached, a store commits without a delta; a consumer attached before that commit landed misses it. */
  function LateAttach(shape: Shape, bytes: Bytes): seq<Step> {
    [DoDetach, DoStore(shape, Value(bytes, true)), COMMIT] + [DoAttach(FRESH_APPLIER), DoP2, DoP3]
  }

  lemma UnwatchedInsert(shape: Shape, bytes: Bytes)
    ensures var y := Exec(Exec(FRESH_SYSTEM, DoDetach), DoStore(shape, Value(bytes, true)));
      && y.flight.None? && !y.watched && y.store.inserts == [OID_BASE] && y.store.dirty == [] && y.store.deleted == []
      && OID_BASE in y.store.live && y.store.live[OID_BASE].value.encodable && y.store.lastTid == 0 && y.backend == FRESH_BACKEND
      && y.history == []
  {
  }

  lemma FreshAttaches(y: System)
    requires y.flight.Some? && y.base == FRESH_BACKEND && !y.watched && y.store.lastTid == 0
    ensures Enabled(y, DoAttach(FRESH_APPLIER))
  {
  }

  lemma LateAttachMisses(shape: Shape, bytes: Bytes)
    ensures var y := After(LateAttach(shape, bytes));
      && y.watched && !UpToDate(y) && y.flight.None? && y.applier == FRESH_APPLIER && y.history == [1]
      && y.store.inserts == [] == y.store.dirty == y.store.deleted
  {
    var a, b := [DoDetach, DoStore(shape, Value(bytes, true)), COMMIT], [DoAttach(FRESH_APPLIER), DoP2, DoP3];
    hide Exec, Inv, Run, After, Lands, Enabled, AttachedLate;
    var y1 := Exec(FRESH_SYSTEM, DoDetach);
    var y2 := Exec(y1, DoStore(shape, Value(bytes, true)));
    var y3 := Exec(y2, COMMIT);
    FreshRun(a);
    RunThree(FRESH_SYSTEM, DoDetach, DoStore(shape, Value(bytes, true)), COMMIT);
    AppendSteps(a, b);
    RunThree(y3, DoAttach(FRESH_APPLIER), DoP2, DoP3);
    FreshOk();
    StepKeeps(FRESH_SYSTEM, DoDetach);
    StepKeeps(y1, DoStore(shape, Value(bytes, true)));
    StepKeeps(y2, COMMIT);
    UnwatchedInsert(shape, bytes);
    OneInsertCaptured(y2, OID_BASE);
    CommitUnwatched(y2);
    FreshAttaches(y3);
    LateAttachIff(y3, FRESH_APPLIER);
    LandsAsRun(y3, FRESH_APPLIER);
    Reached(a + b);
  }

  lemma CommitUnwatched(y: System)
    requires Inv(y) && !y.watched && y.flight.None? && Inv(Exec(y, COMMIT))
    ensures var z := Exec(y, COMMIT);
      z.flight.Some? ==>
        && z.flight.value.delta.None? && !z.watched && z.store.lastTid == y.store.lastTid && z.base == y.backend
        && z.history == y.history && z.flight.value.tid == y.store.lastTid + 1
  {
    if Enabled(y, COMMIT) {
      P1Watch(y, false, 0, 0);
    }
    hide BuffersOk, ValuesOk, IdsOk, TypesOk, FlightOk, ConsumerOk, P1;
  }

  lemma LandsAsRun(y: System, a: ApplierState)
    requires Enabled(y, DoAttach(a)) && y.flight.Some? && !y.applied && y.flight.value.delta.None?
    requires y.store.inserts == [] == y.store.dirty == y.store.deleted
    ensures AttachedLate(y, DoAttach(a))
    ensures var x := Exec(y, DoAttach(a));
      && Lands(x) == Exec(Exec(x, DoP2), DoP3)
      && Lands(x).store.inserts == [] == Lands(x).store.dirty == Lands(x).store.deleted
      && Lands(x).history == y.history + [y.flight.value.tid]
  {
    hide ApplyBatch, SetLife, Mirrors;
  }

  lemma InsertOnly(y: System, shape: Shape, value: Value)
    requires y.flight.None? && y.store.inserts == [] == y.store.dirty == y.store.deleted
    ensures var z := Exec(y, DoStore(shape, value));
      && z == y.(store := z.store) && z.store.inserts == [y.store.nextOid] && z.store.dirty == [] == z.store.deleted
      && y.store.nextOid in z.store.live && z.store.live[y.store.nextOid].value == value && z.store.lastTid == y.store.lastTid
  {
  }

  /** The next commit, whatever it stores, detaches it. */
  lemma LateAttachDetaches(shape: Shape, bytes: Bytes)
    ensures !After(LateAttach(shape, bytes) + [DoStore(shape, Value(bytes, true)), COMMIT] + [DoP2, DoP3]).watched
  {
    var a, b, c := LateAttach(shape, bytes), [DoStore(shape, Value(bytes, true)), COMMIT], [DoP2, DoP3];
    hide Exec, Inv, Run, After, Lands, LateAttach;
    var y1 := Exec(After(a), DoStore(shape, Value(bytes, true)));
    var y2 := Exec(y1, COMMIT);
    LateAttachMisses(shape, bytes);
    InsertOnly(After(a), shape, Value(bytes, true));
    Reached(a);
    StepKeeps(After(a), DoStore(shape, Value(bytes, true)));
    OneInsertCaptured(y1, After(a).store.nextOid);
    CapturesEnabled(y1);
    BehindIsDetached(y1, false, 0, 0);
    AppendSteps(a, b);
    RunTwo(After(a), DoStore(shape, Value(bytes, true)), COMMIT);
    AppendSteps(a + b, c);
    RunTwo(y2, DoP2, DoP3);
    LandsSteps(y2);
  }

  /** Only an enabled P1 captures. */
  lemma CapturesEnabled(y: System)
    requires y.flight.None?
    ensures Exec(y, COMMIT).flight.Some? ==> Enabled(y, COMMIT)
  {
    hide P1;
  }

  lemma LandsSteps(y: System)
    requires y.flight.Some? && !y.applied
    ensures Lands(y) == Exec(Exec(y, DoP2), DoP3)
  {
    hide Exec;
  }
}
