/**
 Awaited commits whose caller is cancelled. The rollback runs at once, but a batch that the worker thread has
 taken up cannot be called back: it is an orphan, which may still land or fail. The TIDs stay gapless exactly
 while no orphan lands and no applied batch is rolled back; a store that then starts over from the backend
 before anything else is applied is sound again, and otherwise a TID is applied twice.
 */
module Cancellation {
  import opened Wire
  import opened Replication
  import opened Commit
  import opened CommitRuns
  import opened CommitRaces
  import opened Follower

  /** `orphan`: the capture of a cancelled commit whose batch the worker is still applying. */
  datatype Awaited = Awaited(sys: System, orphan: Option<Capture>)

  datatype Event =
    | Plain(step: Step)
    | Cancel(taken: bool)
    | OrphanLands
    | OrphanFails

  const START := Awaited(FRESH_SYSTEM, None)

  /** There is one worker: while it is busy with an orphan, no other batch lands or fails. A cancelled commit
      leaves an orphan when the worker had taken its batch up and not finished. */
  predicate Possible(w: Awaited, e: Event) {
    match e
    case Plain(step) => Enabled(w.sys, step) && (step == DoP2 || step == DoFail ==> w.orphan.None?)
    case Cancel(taken) => w.sys.flight.Some? && (taken ==> w.orphan.None? && !w.sys.applied)
    case OrphanLands => w.orphan.Some?
    case OrphanFails => w.orphan.Some?
  }

  /** The rollback of a cancelled commit, whether or not its batch is applied. */
  function Cancelled(y: System): System
    requires y.flight.Some?
  {
    y.(store := Rollback(y.store, y.flight.value), flight := None)
  }

  /** The orphan's batch is applied; nobody waits for it, so nothing is finalized or delivered. */
  function Landed(y: System, c: Capture): System {
    y.(backend := ApplyBatch(y.backend, c.batch), history := y.history + [c.tid])
  }

  /** A reopened store has a worker of its own. */
  function Happen(w: Awaited, e: Event): Awaited {
    if !Possible(w, e) then w
    else
      match e
      case Plain(step) => Awaited(Exec(w.sys, step), if step == DoRestart then None else w.orphan)
      case Cancel(taken) => Awaited(Cancelled(w.sys), if taken then w.sys.flight else w.orphan)
      case OrphanLands => Awaited(Landed(w.sys, w.orphan.value), None)
      case OrphanFails => w.(orphan := None)
  }

  function Ends(es: seq<Event>): Awaited {
    if es == [] then START else Happen(Ends(es[..|es| - 1]), es[|es| - 1])
  }

  /** An orphan may always still land or fail, and is gone then, as it is when the store is reopened; landing, it
      moves the backend and nothing else. Until then no other batch lands or fails, and no wait for a batch
      taken up is cancelled. */
  lemma OrphansEnd(w: Awaited, e: Event)
    requires w.orphan != None
    ensures Possible(w, OrphanLands) && Possible(w, OrphanFails)
    ensures Happen(w, OrphanFails) == Awaited(w.sys, None)
    ensures var z := Happen(w, OrphanLands);
      && z.orphan == None && z.sys == w.sys.(backend := z.sys.backend, history := w.sys.history + [w.orphan.value.tid])
      && z.sys.backend == ApplyBatch(w.sys.backend, w.orphan.value.batch)
    ensures Happen(w, Plain(DoRestart)) == Awaited(Exec(w.sys, DoRestart), None)
    ensures Happen(w, e).orphan == None || Happen(w, e).orphan == w.orphan
    ensures e in {Plain(DoP2), Plain(DoFail), Cancel(true)} ==> Happen(w, e) == w
    ensures Happen(w, e).orphan == None ==> e in {OrphanLands, OrphanFails, Plain(DoRestart)}
  {
    hide Exec, ApplyBatch, Rollback;
  }

  // --------------------------------------------------------------------- phases

  /** Sound: the store counts as the backend does. Ahead: the backend is one commit ahead of the store.
      Repeated: a TID was applied twice. */
  datatype Phase = Sound | Ahead | Repeated

  /** `stale`: the orphan was captured while the backend was ahead. */
  datatype Trace = Trace(phase: Phase, stale: bool)

  /** A batch becomes durable behind the back of the store. */
  predicate Spoils(w: Awaited, e: Event) {
    Possible(w, e) && (e == OrphanLands || (e.Cancel? && w.sys.applied))
  }

  /** The store reads everything back from the backend. */
  predicate StartsOver(w: Awaited, e: Event) {
    Possible(w, e) && (e == Plain(DoDiscard) || e == Plain(DoRestart))
  }

  predicate AppliesAgain(w: Awaited, t: Trace, e: Event) {
    && Possible(w, e)
    && ((e == Plain(DoP2) && t.phase == Ahead) || (e == OrphanLands && t.stale))
  }

  function NextPhase(w: Awaited, t: Trace, e: Event): Phase {
    if t.phase == Repeated || AppliesAgain(w, t, e) then Repeated
    else if Spoils(w, e) then Ahead
    else if StartsOver(w, e) then Sound
    else t.phase
  }

  function Traced(w: Awaited, t: Trace, e: Event): Trace {
    Trace(NextPhase(w, t, e),
          if Possible(w, e) && e == Cancel(true) then t.phase == Ahead else t.stale)
  }

  function TraceOf(es: seq<Event>): Trace {
    if es == [] then Trace(Sound, false)
    else Traced(Ends(es[..|es| - 1]), TraceOf(es[..|es| - 1]), es[|es| - 1])
  }

  // ------------------------------------------------------------------ invariants

  ghost predicate Gapless(h: seq<Tid>) {
    forall i :: 0 <= i < |h| ==> h[i] == i + 1
  }

  ghost predicate Repeats(h: seq<Tid>) {
    exists i, j :: 0 <= i < j < |h| && h[i] == h[j]
  }

  /** What a store needs of the backend to start over from it. */
  ghost predicate BackendOk(b: BackendState, h: seq<Tid>) {
    && b.meta.nextTid >= 1 && |h| == b.meta.nextTid - 1 && Gapless(h)
    && (forall o :: o in b.objects ==> o < b.meta.nextOid && b.objects[o].oid == o && b.objects[o].cid in CidsOf(b.types))
    && DistinctRows(b.types)
    && (forall i :: 0 <= i < |b.types| ==> b.types[i].cid < b.meta.nextCid)
  }

  /** The backend is one commit ahead of the store, which hands the last applied TID out again. */
  ghost predicate AheadOk(y: System) {
    && BackendOk(y.backend, y.history) && y.store.lastTid + 1 == |y.history|
    && (y.flight.None? ==> y.store.nextTid == |y.history|)
    && (y.flight.Some? ==>
          !y.applied && y.flight.value.tid == |y.history| && y.store.nextTid == |y.history| + 1)
    && (y.watched ==> y.applier.watermark <= y.store.lastTid)
  }

  /** The system as the cancellation found it. */
  ghost predicate Origin(from: System, c: Capture, y: System) {
    && Inv(from) && from.flight == Some(c) && !from.applied && from.backend == y.backend && from.history == y.history
  }

  ghost predicate OrphanOk(w: Awaited, stale: bool) {
    w.orphan.Some? ==>
      && (w.sys.flight.Some? ==> !w.sys.applied)
      && if stale then w.orphan.value.tid == |w.sys.history| && w.sys.history != []
         else exists from :: Origin(from, w.orphan.value, w.sys)
  }

  ghost predicate Tracks(w: Awaited, t: Trace) {
    match t.phase
    case Sound => Inv(w.sys) && OrphanOk(w, t.stale)
    case Ahead => AheadOk(w.sys) && (w.orphan.Some? ==> t.stale && w.orphan.value.tid == |w.sys.history|)
    case Repeated => Repeats(w.sys.history)
  }

  // --------------------------------------------------------------- the backend

  lemma InvBackend(y: System)
    requires Inv(y)
    ensures BackendOk(y.backend, y.history)
  {
    hide BuffersOk, ValuesOk, FlightOk, ConsumerOk, LineageOk;
  }

  /** Only an applied batch changes the backend or the history. */
  lemma BackendStays(y: System, step: Step)
    requires step != DoP2
    ensures Exec(y, step).backend == y.backend && Exec(y, step).history == y.history
    ensures (y.flight.Some? ==> !y.applied) ==> (Exec(y, step).flight.Some? ==> !Exec(y, step).applied)
  {
    hide P1, P3, Rollback, Boot, ApplierStep, Mirrors, StoreNew, Write, DeleteInstance, DeleteByKey, Hydrate;
  }

  lemma HistoryGrows(w: Awaited, e: Event)
    ensures w.sys.history <= Happen(w, e).sys.history
  {
    if e.Plain? && e.step != DoP2 {
      BackendStays(w.sys, e.step);
    }
    hide Exec, ApplyBatch, Rollback;
  }

  lemma RepeatsOnce(h: seq<Tid>, t: Tid)
    requires Gapless(h) && h != [] && t == |h|
    ensures Repeats(h + [t])
  {
    var all := h + [t];
    assert all[|h| - 1] == all[|h|];
  }

  lemma RepeatsStay(h: seq<Tid>, h': seq<Tid>)
    requires Repeats(h) && h <= h'
    ensures Repeats(h')
  {
    var i, j :| 0 <= i < j < |h| && h[i] == h[j];
    assert h'[i] == h'[j];
  }

  lemma RepeatsIsNotGapless(h: seq<Tid>)
    requires Repeats(h)
    ensures !Gapless(h)
  {
  }

  // -------------------------------------------------------------- cancellation

  /** A wait cancelled before its batch is applied is a failed commit. */
  lemma CancelIsFailure(y: System)
    requires y.flight.Some? && !y.applied
    ensures Cancelled(y) == Exec(y, DoFail)
  {
  }

  lemma CancelledIdle(y: System)
    requires y.flight.Some?
    ensures Cancelled(y).flight.None?
  {
  }

  /** Cancelled afterwards, the store hands out the TID that was applied last. */
  lemma LateCancel(y: System)
    requires Inv(y) && y.flight.Some? && y.applied
    ensures AheadOk(Cancelled(y))
  {
    InvBackend(y);
    RollbackCounters(y.store, y.flight.value);
    hide BuffersOk, ValuesOk, IdsOk, TypesOk, FlightOk, DeltaFits, Rollback, Mirrors, BackendOk;
    AppliedTid(y);
  }

  lemma AppliedTid(y: System)
    requires FlightOk(y) && TidsOk(y) && y.flight.Some?
    ensures y.flight.value.tid == if y.applied then |y.history| else |y.history| + 1
  {
    hide PutAll, FlipsOk;
  }

  lemma RollbackCounters(s: StoreState, c: Capture)
    ensures Rollback(s, c).nextTid == c.tid && Rollback(s, c).lastTid == s.lastTid
  {
    hide PutEach, Without, SetLife, PriorNew, PriorOther;
  }

  lemma SoundCancel(w: Awaited, t: Trace, taken: bool)
    requires Tracks(w, t) && t.phase == Sound && Possible(w, Cancel(taken))
    ensures Tracks(Happen(w, Cancel(taken)), Traced(w, t, Cancel(taken)))
  {
    var y := w.sys;
    if y.applied {
      LateCancel(y);
    } else {
      CancelIsFailure(y);
      StepKeeps(y, DoFail);
      BackendStays(y, DoFail);
      hide Inv, Exec, Cancelled;
      assert Cancelled(y).flight.None? by {
        CancelledIdle(y);
      }
      if taken {
        assert Origin(y, y.flight.value, Cancelled(y));
      } else if w.orphan.Some? {
        OrphanWaits(w, Cancelled(y), t.stale);
      }
    }
  }

  /** The store's counters, when no batch of its own is applied, are those of the backend. */
  lemma SoundCounters(y: System)
    requires Inv(y) && (y.flight.Some? ==> !y.applied)
    ensures y.store.lastTid == |y.history|
    ensures y.store.nextTid == |y.history| + if y.flight.Some? then 2 else 1
    ensures y.flight.Some? ==> y.flight.value.tid == |y.history| + 1
    ensures y.watched ==> y.applier.watermark <= y.store.lastTid
  {
    if y.flight.Some? {
      AppliedTid(y);
    }
    hide BuffersOk, ValuesOk, IdsOk, TypesOk, FlightOk, DeltaFits;
  }

  /** The late landing of an orphan. */
  lemma OrphanAhead(y: System, c: Capture, from: System)
    requires Inv(y) && (y.flight.Some? ==> !y.applied) && Origin(from, c, y)
    ensures AheadOk(Landed(y, c))
  {
    SoundCounters(y);
    StepKeeps(from, DoP2);
    var x := Exec(from, DoP2);
    assert x.backend == ApplyBatch(y.backend, c.batch) && x.history == y.history + [c.tid];
    hide Inv, Exec;
    InvBackend(x);
    hide BackendOk;
  }

  lemma SoundLanding(w: Awaited, t: Trace)
    requires Tracks(w, t) && t.phase == Sound && Possible(w, OrphanLands)
    ensures Tracks(Happen(w, OrphanLands), Traced(w, t, OrphanLands))
  {
    if t.stale {
      InvBackend(w.sys);
      hide Inv;
      RepeatsOnce(w.sys.history, w.orphan.value.tid);
    } else {
      FreshLanding(w.sys, w.orphan.value);
      hide Inv, AheadOk, Origin, Landed;
    }
  }

  lemma FreshLanding(y: System, c: Capture)
    requires Inv(y) && (y.flight.Some? ==> !y.applied) && exists from :: Origin(from, c, y)
    ensures AheadOk(Landed(y, c))
  {
    hide Inv, AheadOk, Landed, Origin;
    var from :| Origin(from, c, y);
    OrphanAhead(y, c, from);
  }

  /** An orphan waits as long as nothing is applied. */
  lemma OrphanWaits(w: Awaited, z: System, stale: bool)
    requires OrphanOk(w, stale) && z.backend == w.sys.backend && z.history == w.sys.history
    requires z.flight.Some? ==> !z.applied
    ensures OrphanOk(w.(sys := z), stale)
  {
    if w.orphan.Some? && !stale {
      var from :| Origin(from, w.orphan.value, w.sys);
      assert Origin(from, w.orphan.value, z) by {
        hide Inv;
      }
    }
  }

  lemma SoundPlain(w: Awaited, t: Trace, step: Step)
    requires Tracks(w, t) && t.phase == Sound && Possible(w, Plain(step))
    ensures Tracks(Happen(w, Plain(step)), Traced(w, t, Plain(step)))
  {
    var z := Exec(w.sys, step);
    hide Inv, Exec, Enabled;
    StepKeeps(w.sys, step);
    if w.orphan.Some? && step != DoP2 {
      BackendStays(w.sys, step);
      OrphanWaits(w, z, t.stale);
    }
    hide Origin;
  }

  // ------------------------------------------------------------- while ahead

  /** Every step but an applied batch keeps the backend ahead, until the store starts over. */
  lemma AheadStep(y: System, step: Step)
    requires AheadOk(y) && Enabled(y, step) && step !in {DoP2, DoDiscard, DoRestart}
    ensures AheadOk(Exec(y, step))
  {
    BackendStays(y, step);
    hide BackendOk;
    if step == DoFail {
      RollbackCounters(y.store, y.flight.value);
      hide Rollback;
    } else if step.DoP1? {
      CapturesNext(y, step.veto, step.actor, step.at);
    } else {
      UserCounters(y, step);
    }
  }

  lemma UserCounters(y: System, step: Step)
    requires AheadOk(y) && Enabled(y, step) && step !in {DoP2, DoFail, DoDiscard, DoRestart} && !step.DoP1?
    ensures var z := Exec(y, step);
      && z.store.lastTid == y.store.lastTid && z.store.nextTid == y.store.nextTid && z.flight == y.flight && z.applied == y.applied
      && (z.watched ==> z.applier.watermark <= z.store.lastTid)
  {
    hide BackendOk, Put, Without, SetLife, Mirrors;
  }

  /** P1 numbers its capture with the next TID. */
  lemma CapturesNext(y: System, veto: bool, actor: nat, at: int)
    requires Enabled(y, DoP1(veto, actor, at))
    ensures var z := Exec(y, DoP1(veto, actor, at));
      && z.store.lastTid == y.store.lastTid && z.watched == y.watched && z.applier == y.applier
      && (z.flight.None? ==> z.store.nextTid == y.store.nextTid)
      && (z.flight.Some? ==> !z.applied && z.flight.value.tid == y.store.nextTid && z.store.nextTid == y.store.nextTid + 1)
  {
    hide Encode, Pending, PriorsReadable, SetLife, Stamp, Flips, BuildDelta, HoldsDeleted;
  }

  lemma {:induction false} BootCounters(b: BackendState)
    requires b.meta.nextTid >= 1
    ensures var s := Boot(b);
      && s.nextOid == b.meta.nextOid && s.nextTid == b.meta.nextTid && s.lastTid == b.meta.nextTid - 1
      && s.live == map[] && s.inserts == [] && s.dirty == [] && s.deleted == [] && s.root == b.meta.root
      && s.lineage == BootLineage(b.types, b.meta.nextCid)
  {
    hide BootLineage;
  }

  /** Starting over from a healthy backend. */
  lemma StartedOver(y: System)
    requires BackendOk(y.backend, y.history) && y.store == Boot(y.backend) && y.flight.None?
    requires y.watched ==> y.applier.watermark < y.store.lastTid
    ensures Inv(y)
  {
    BootCounters(y.backend);
    BootLineageFacts(y.backend.types, y.backend.meta.nextCid);
    hide Boot, BootLineage;
    assert BuffersOk(y) && ValuesOk(y) && IdsOk(y) && FlightOk(y) && ConsumerOk(y);
    assert TidsOk(y) && TypesOk(y);
  }

  lemma AheadRestarts(y: System, step: Step)
    requires AheadOk(y) && Enabled(y, step) && step in {DoDiscard, DoRestart}
    ensures Inv(Exec(y, step)) && (step == DoRestart ==> !Exec(y, step).watched)
  {
    BootCounters(y.backend);
    var z := Exec(y, step);
    assert z.store == Boot(y.backend) && z.flight.None? && z.backend == y.backend && z.history == y.history && z.applier == y.applier;
    assert z.watched ==> y.watched;
    hide Boot, BackendOk;
    StartedOver(z);
  }

  lemma AheadPlain(w: Awaited, t: Trace, step: Step)
    requires Tracks(w, t) && t.phase == Ahead && Possible(w, Plain(step))
    ensures Tracks(Happen(w, Plain(step)), Traced(w, t, Plain(step)))
  {
    var y := w.sys;
    if step == DoP2 {
      RepeatsOnce(y.history, y.flight.value.tid);
    } else {
      BackendStays(y, step);
      hide Exec, BackendOk;
      if step == DoDiscard || step == DoRestart {
        AheadRestarts(y, step);
        StaysIdle(y, step);
      } else {
        AheadStep(y, step);
      }
    }
  }

  lemma StaysIdle(y: System, step: Step)
    requires Enabled(y, step) && step in {DoDiscard, DoRestart}
    ensures Exec(y, step).flight.None?
  {
  }

  lemma AheadCancel(w: Awaited, t: Trace, taken: bool)
    requires Tracks(w, t) && t.phase == Ahead && Possible(w, Cancel(taken))
    ensures Tracks(Happen(w, Cancel(taken)), Traced(w, t, Cancel(taken)))
  {
    RollbackCounters(w.sys.store, w.sys.flight.value);
    hide Rollback, BackendOk;
  }

  lemma AheadLanding(w: Awaited, t: Trace)
    requires Tracks(w, t) && t.phase == Ahead && Possible(w, OrphanLands)
    ensures Tracks(Happen(w, OrphanLands), Traced(w, t, OrphanLands))
  {
    RepeatsOnce(w.sys.history, w.orphan.value.tid);
  }

  // ------------------------------------------------------------------- all runs

  lemma HappenTracks(w: Awaited, t: Trace, e: Event)
    requires Tracks(w, t)
    ensures Tracks(Happen(w, e), Traced(w, t, e))
  {
    hide Inv, AheadOk, Exec, Repeats, OrphanOk, Cancelled, Landed;
    if !Possible(w, e) {
    } else if t.phase == Repeated {
      HistoryGrows(w, e);
      RepeatsStay(w.sys.history, Happen(w, e).sys.history);
    } else if e == OrphanFails {
      NoOrphan(w, t);
    } else if t.phase == Sound {
      match e
      case Plain(step) => SoundPlain(w, t, step);
      case Cancel(taken) => SoundCancel(w, t, taken);
      case OrphanLands => SoundLanding(w, t);
    } else {
      match e
      case Plain(step) => AheadPlain(w, t, step);
      case Cancel(taken) => AheadCancel(w, t, taken);
      case OrphanLands => AheadLanding(w, t);
    }
  }

  lemma NoOrphan(w: Awaited, t: Trace)
    requires Tracks(w, t)
    ensures Tracks(w.(orphan := None), t)
  {
    hide Inv;
  }

  lemma {:induction false} RunTracks(es: seq<Event>)
    ensures Tracks(Ends(es), TraceOf(es))
  {
    if es == [] {
      FreshOk();
    } else {
      hide Tracks, Happen, Traced;
      RunTracks(es[..|es| - 1]);
      HappenTracks(Ends(es[..|es| - 1]), TraceOf(es[..|es| - 1]), es[|es| - 1]);
    }
  }

  /** The TID the next applied batch will carry. */
  function NextOut(y: System): Tid {
    if y.flight.Some? && !y.applied then y.flight.value.tid else y.store.nextTid
  }

  /** The applied TIDs and the one to be applied next are 1, 2, ... */
  ghost predicate StaysGapless(y: System) {
    Gapless(y.history + [NextOut(y)])
  }

  lemma NextOutIff(h: seq<Tid>, t: Tid)
    ensures Gapless(h + [t]) <==> Gapless(h) && t == |h| + 1
  {
    var all := h + [t];
    assert all[|h|] == t;
    assert forall i :: 0 <= i < |h| ==> all[i] == h[i];
  }

  lemma SoundNext(y: System)
    requires Inv(y)
    ensures NextOut(y) == |y.history| + 1
  {
    if y.flight.Some? {
      AppliedTid(y);
    }
    hide BuffersOk, ValuesOk, IdsOk, TypesOk, FlightOk, ConsumerOk;
  }

  /** In every run, with cancellations at any moment: the TIDs stay gapless, and everything that holds of an
      uncancelled run holds, exactly while the run is sound. While the backend is ahead the next TID repeats
      the last one applied, and then it was applied twice. */
  lemma TidsGaplessIff(es: seq<Event>)
    ensures var y, phase := Ends(es).sys, TraceOf(es).phase;
      && (StaysGapless(y) <==> phase == Sound)
      && (phase == Sound ==> Inv(y))
      && (phase == Ahead ==> (Gapless(y.history) && y.history != [] && NextOut(y) == y.history[|y.history| - 1]))
      && (phase == Repeated <==> Repeats(y.history))
  {
    RunTracks(es);
    var y, phase := Ends(es).sys, TraceOf(es).phase;
    NextOutIff(y.history, NextOut(y));
    if phase == Sound {
      SoundNext(y);
      InvBackend(y);
    }
    if Repeats(y.history) {
      RepeatsIsNotGapless(y.history);
    }
    hide Ends, TraceOf, Inv, Repeats, Gapless;
  }

  ghost predicate Spoiled(es: seq<Event>) {
    exists i :: 0 <= i < |es| && Spoils(Ends(es[..i]), es[i])
  }

  /** While the program runs on without starting over, the TIDs stay gapless exactly when no orphan landed,
      because every cancelled batch had not been taken up or failed, and no applied batch was cancelled. */
  lemma {:induction false} CancelSafeIff(es: seq<Event>)
    requires Plain(DoDiscard) !in es && Plain(DoRestart) !in es
    ensures StaysGapless(Ends(es).sys) <==> !Spoiled(es)
    ensures !Spoiled(es) ==> Inv(Ends(es).sys)
  {
    TidsGaplessIff(es);
    PhaseUnlessSpoiled(es);
  }

  lemma {:induction false} PhaseUnlessSpoiled(es: seq<Event>)
    requires Plain(DoDiscard) !in es && Plain(DoRestart) !in es
    ensures TraceOf(es).phase == Sound <==> !Spoiled(es)
    ensures TraceOf(es).phase == Sound ==> !TraceOf(es).stale
  {
    if es != [] {
      var front, e := es[..|es| - 1], es[|es| - 1];
      assert es == front + [e];
      PhaseUnlessSpoiled(front);
      SpoiledOneMore(front, e);
      hide Ends, Possible;
    }
  }

  lemma SpoiledOneMore(front: seq<Event>, e: Event)
    ensures Spoiled(front + [e]) <==> Spoiled(front) || Spoils(Ends(front), e)
  {
    hide Spoils, Ends;
    var es := front + [e];
    assert es[..|front|] == front && es[|front|] == e;
    assert forall i :: 0 <= i < |front| ==> es[..i] == front[..i] && es[i] == front[i];
    if i :| 0 <= i < |front| && Spoils(Ends(front[..i]), front[i]) {
      assert Spoils(Ends(es[..i]), es[i]);
    }
    if i :| 0 <= i < |es| && Spoils(Ends(es[..i]), es[i]) {
      if i < |front| {
        assert Spoils(Ends(front[..i]), front[i]);
      }
    }
  }

  /** No lost write in a sound run, cancelled waits included. */
  lemma CancelledWritesAreKept(es: seq<Event>, o: Oid)
    requires TraceOf(es).phase == Sound && o in Ends(es).sys.store.live && !Gone(Ends(es).sys, o)
    ensures var y := Ends(es).sys;
      Buffered(y, o) || (if FlightRecord(y.flight, o) then HoldsCaptured(y, o) else HoldsDurable(y, o))
  {
    TidsGaplessIff(es);
    NothingLost(Ends(es).sys, o);
  }

  /** The runs without a cancellation are the runs of the commit machine, and they are sound. */
  lemma {:induction false} UncancelledRuns(steps: seq<Step>)
    ensures var es := seq(|steps|, i requires 0 <= i < |steps| => Plain(steps[i]));
      Ends(es) == Awaited(After(steps), None) && TraceOf(es) == Trace(Sound, false)
  {
    var es := seq(|steps|, i requires 0 <= i < |steps| => Plain(steps[i]));
    if steps != [] {
      var front := steps[..|steps| - 1];
      UncancelledRuns(front);
      assert es[..|es| - 1] == seq(|front|, i requires 0 <= i < |front| => Plain(front[i]));
      if !Enabled(After(front), steps[|steps| - 1]) {
        DisabledStays(After(front), steps[|steps| - 1]);
      }
      hide Exec, Enabled;
    }
  }

  // ----------------------------------------------------------------- consumers

  /** The delta of an orphan is never delivered: its landing leaves the consumer where it was, which then no
      longer mirrors the backend, and while the backend is ahead nothing is finalized. */
  lemma OrphanUnheard(es: seq<Event>)
    requires TraceOf(es) == Trace(Sound, false) && Possible(Ends(es), OrphanLands)
    ensures var y, z := Ends(es).sys, Ends(es + [OrphanLands]).sys;
      && z.applier == y.applier && z.watched == y.watched && z.flight == y.flight
      && (z.watched ==> !Mirrors(z.applier, z.backend))
      && TraceOf(es + [OrphanLands]).phase == Ahead
  {
    assert (es + [OrphanLands])[..|es|] == es;
    RunTracks(es + [OrphanLands]);
    hide BackendOk, Ends, Inv;
  }

  lemma AheadIsSilent(es: seq<Event>)
    requires TraceOf(es).phase == Ahead
    ensures var y := Ends(es).sys;
      !Enabled(y, DoP3) && (y.watched ==> !Mirrors(y.applier, y.backend))
  {
    RunTracks(es);
    hide Ends, Payloads, AddTypes;
  }

  lemma {:induction false} EncodedOids(l: Lineage, live: map<Oid, Entity>, oids: seq<Oid>)
    requires (forall o :: o in oids ==> o in live) && Encode(l, live, oids).ok
    ensures var e := Encode(l, live, oids);
      |e.records| == |oids| && forall i :: 0 <= i < |oids| ==> e.records[i].0 == oids[i]
  {
    if oids != [] {
      assert oids == oids[..|oids| - 1] + [oids[|oids| - 1]];
      EncodedOids(l, live, oids[..|oids| - 1]);
    }
  }

  lemma {:induction false} UntouchedBefore(objects: map<Oid, Bytes>, ops: seq<Op>, i: nat, o: Oid)
    requires i <= |ops| && forall j :: 0 <= j < i ==> ops[j].oid != o
    ensures HeldBefore(objects, ops, i, o) == Current(objects, o)
  {
    if i > 0 {
      UntouchedBefore(objects, ops, i - 1, o);
    }
  }

  /** A delta whose ops on an object all claim a prior the consumer does not hold is refused. */
  lemma {:induction false} WrongPrior(a: ApplierState, d: Delta, k: nat, o: Oid)
    requires k < |d.ops| && d.ops[k].oid == o
    requires forall j :: 0 <= j <= k && d.ops[j].oid == o ==> d.ops[j].prior != Current(a.objects, o)
    ensures ApplierStep(a, d).1 != Advanced
    decreases k
  {
    if j :| 0 <= j < k && d.ops[j].oid == o {
      WrongPrior(a, d, j, o);
    } else {
      var types := AddTypes(a.types, d.types);
      UntouchedBefore(a.objects, d.ops, k, o);
      assert !Acceptable(a.objects, types, d.ops, k);
      FoldsWhenAcceptable(a.objects, types, d.ops);
      hide FoldOps, AddTypes, HeldBefore;
    }
  }

  lemma CapturedOp(s: StoreState, e: Encoded, objects: map<Oid, StoredRecord>, actor: nat, at: int, i: nat)
    requires forall o :: o in Pending(s) ==> o in s.live
    requires PriorsReadable(objects, Pending(s), s.inserts, s.deleted)
    requires |e.records| == |Pending(s)| && i < |e.records| && e.records[i].0 == Pending(s)[i]
    requires Pending(s)[i] !in s.inserts
    ensures var d := MakeCapture(s, e, objects, true, actor, at).delta.value;
      && i < |d.ops| && d.ops[i].oid == Pending(s)[i]
      && Pending(s)[i] in objects && d.ops[i].prior == Some(objects[Pending(s)[i]].payload)
  {
    assert Pending(s)[i] in Pending(s);
    hide Pending, Flips;
  }

  /** After the landing, the retry of an update claims as its prior what the orphan stored. A consumer that
      holds anything else refuses it and is detached. */
  lemma RetryDetaches(y: System, o: Oid, veto: bool, actor: nat, at: int)
    requires y.flight.None? && y.watched && Enabled(y, DoP1(veto, actor, at))
    requires o in Pending(y.store) && o !in y.store.inserts
    requires o in y.backend.objects && Current(y.applier.objects, o) != Some(y.backend.objects[o].payload)
    ensures var z := Exec(y, DoP1(veto, actor, at));
      z.flight.Some? ==> !Lands(z).watched
  {
    var s := y.store;
    var e := Encode(s.lineage, s.live, Pending(s));
    var z := Exec(y, DoP1(veto, actor, at));
    P1Cases(y, veto, actor, at);
    CapturesNext(y, veto, actor, at);
    hide Exec, Pending, Encode, AfterCapture, PriorsReadable, HoldsDeleted;
    if z.flight.Some? {
      EncodedOids(s.lineage, s.live, Pending(s));
      RetryRefused(y, e, o, actor, at);
      assert z == AfterCapture(y, e, actor, at);
      RefusedDetaches(z);
    }
  }

  lemma RetryRefused(y: System, e: Encoded, o: Oid, actor: nat, at: int)
    requires (forall x :: x in Pending(y.store) ==> x in y.store.live) && y.watched
    requires PriorsReadable(y.backend.objects, Pending(y.store), y.store.inserts, y.store.deleted)
    requires |e.records| == |Pending(y.store)| && forall i :: 0 <= i < |e.records| ==> e.records[i].0 == Pending(y.store)[i]
    requires o in Pending(y.store) && o !in y.store.inserts
    requires o in y.backend.objects && Current(y.applier.objects, o) != Some(y.backend.objects[o].payload)
    ensures var z := AfterCapture(y, e, actor, at);
      && z.flight.Some? && z.watched && z.flight.value.delta.Some?
      && ApplierStep(z.applier, z.flight.value.delta.value).1 != Advanced
  {
    var d := MakeCapture(y.store, e, y.backend.objects, true, actor, at).delta.value;
    assert AfterCapture(y, e, actor, at).flight.value.delta == Some(d);
    hide AfterCapture, MakeCapture, Pending, PriorsReadable;
    var k :| 0 <= k < |Pending(y.store)| && Pending(y.store)[k] == o;
    CapturedOp(y.store, e, y.backend.objects, actor, at, k);
    forall j | 0 <= j <= k && d.ops[j].oid == o
      ensures d.ops[j].prior != Current(y.applier.objects, o)
    {
      OpAt(y.store, e, y.backend.objects, actor, at, j);
      CapturedOp(y.store, e, y.backend.objects, actor, at, j);
    }
    WrongPrior(y.applier, d, k, o);
  }

  lemma OpAt(s: StoreState, e: Encoded, objects: map<Oid, StoredRecord>, actor: nat, at: int, i: nat)
    requires forall o :: o in Pending(s) ==> o in s.live
    requires PriorsReadable(objects, Pending(s), s.inserts, s.deleted)
    requires |e.records| == |Pending(s)| && i < |e.records| && e.records[i].0 == Pending(s)[i]
    ensures var d := MakeCapture(s, e, objects, true, actor, at).delta.value;
      i < |d.ops| && d.ops[i].oid == Pending(s)[i]
  {
    hide Pending, Flips;
  }

  lemma RefusedDetaches(z: System)
    requires z.flight.Some? && !z.applied && z.watched && z.flight.value.delta.Some?
    requires ApplierStep(z.applier, z.flight.value.delta.value).1 != Advanced
    ensures !Lands(z).watched
  {
    hide ApplierStep, ApplyBatch, P3;
  }

  // ------------------------------------------------------------- both are real

  function Insert(shape: Shape, bytes: Bytes): Event {
    Plain(DoStore(shape, Value(bytes, true)))
  }

  /** Cancelled after the worker took the batch up and before it was applied; it lands, and the commit is retried. */
  function OrphanRun(shape: Shape, bytes: Bytes): seq<Event> {
    [Insert(shape, bytes), Plain(COMMIT), Cancel(true), OrphanLands, Plain(COMMIT), Plain(DoP2)]
  }

  /** Cancelled after the worker applied the batch, and retried. */
  function LateCancelRun(shape: Shape, bytes: Bytes): seq<Event> {
    [Insert(shape, bytes), Plain(COMMIT), Plain(DoP2), Cancel(false), Plain(COMMIT), Plain(DoP2)]
  }

  lemma EndsAppend(es: seq<Event>, e: Event)
    ensures Ends(es + [e]) == Happen(Ends(es), e)
  {
    hide Happen;
    assert (es + [e])[..|es|] == es;
  }

  /** One new entity is buffered, and nothing else. */
  ghost predicate OneNew(y: System) {
    && y.flight.None? && y.store.inserts == [OID_BASE] && y.store.dirty == [] == y.store.deleted
    && OID_BASE in y.store.live && y.store.live[OID_BASE].life == New && y.store.live[OID_BASE].value.encodable
  }

  /** It is in flight, and nothing else is buffered. */
  ghost predicate OneInFlight(y: System) {
    && y.flight.Some? && y.flight.value.flipped == [(OID_BASE, New)] && y.flight.value.deletes == []
    && y.store.inserts == [] == y.store.dirty == y.store.deleted
    && OID_BASE in y.store.live && y.store.live[OID_BASE].value.encodable
  }

  lemma OnePending(s: StoreState)
    requires s.inserts == [OID_BASE] && s.dirty == [] == s.deleted
    ensures Pending(s) == [OID_BASE]
  {
    assert PutEach(s.inserts, s.dirty) == [OID_BASE] && ToSet(s.deleted) == {};
    assert Without([], {}) == [];
    assert [OID_BASE][..0] == [];
  }

  /** The captured insert. */
  lemma Captures(y: System)
    requires OneNew(y)
    ensures var z := Exec(y, COMMIT);
      && Enabled(y, COMMIT) && OneInFlight(z) && !z.applied
      && z.flight.value.tid == y.store.nextTid && z.history == y.history
  {
    OnePending(y.store);
    EncodeSucceeds(y.store.lineage, y.store.live, Pending(y.store));
    P1Cases(y, false, 0, 0);
    hide Encode, Pending, BuildDelta;
  }

  lemma OneFlipped()
    ensures PriorNew([(OID_BASE, New)]) == [OID_BASE] && PriorOther([(OID_BASE, New)]) == []
    ensures PutEach([], [OID_BASE]) == [OID_BASE] && PutEach([], []) == [] && Without([], {OID_BASE}) == []
  {
    var one := [(OID_BASE, New)];
    assert one[..0] == [] && PriorNew([]) == [] && PriorOther([]) == [];
    assert [OID_BASE][..0] == [];
  }

  /** What is buffered once its rollback has run. */
  lemma Rebuffers(y: System)
    requires OneInFlight(y)
    ensures var z := Cancelled(y);
      OneNew(z) && z.store.nextTid == y.flight.value.tid && z.history == y.history
  {
    OneFlipped();
    assert ToSet([OID_BASE]) == {OID_BASE} && OID_BASE !in ToSet<Oid>([]);
    hide PriorNew, PriorOther, PutEach, Without, ToSet;
  }

  lemma FirstInsert(shape: Shape, bytes: Bytes)
    ensures var y := Exec(FRESH_SYSTEM, DoStore(shape, Value(bytes, true)));
      OneNew(y) && y.store.nextTid == 1 && y.history == []
  {
  }

  /** The first commit of the run, captured. */
  lemma FirstTwo(shape: Shape, bytes: Bytes)
    ensures var w := Ends([Insert(shape, bytes), Plain(COMMIT)]);
      && w.orphan.None? && OneInFlight(w.sys) && !w.sys.applied && w.sys.flight.value.tid == 1 && w.sys.history == []
  {
    var steps := [DoStore(shape, Value(bytes, true)), COMMIT];
    var es := seq(|steps|, i requires 0 <= i < |steps| => Plain(steps[i]));
    hide Exec, Ends, Run, After, OneNew, OneInFlight, Enabled;
    UncancelledRuns(steps);
    assert [Insert(shape, bytes), Plain(COMMIT)] == es;
    FreshRun(steps);
    RunTwo(FRESH_SYSTEM, DoStore(shape, Value(bytes, true)), COMMIT);
    FirstInsert(shape, bytes);
    Captures(Exec(FRESH_SYSTEM, DoStore(shape, Value(bytes, true))));
  }

  lemma AppliesIt(w: Awaited)
    requires w.orphan.None? && OneInFlight(w.sys) && !w.sys.applied
    ensures var z := Happen(w, Plain(DoP2));
      && z.orphan.None? && OneInFlight(z.sys) && z.sys.applied && z.sys.flight == w.sys.flight
      && z.sys.history == w.sys.history + [w.sys.flight.value.tid]
  {
    hide ApplyBatch;
  }

  /** The retry of a commit that became durable behind the store's back applies its TID again. */
  lemma RetryRepeats(w: Awaited)
    requires OneNew(w.sys) && w.sys.store.nextTid == 1 && w.sys.history == [1] && w.orphan.None?
    ensures Happen(Happen(w, Plain(COMMIT)), Plain(DoP2)).sys.history == [1, 1]
  {
    Captures(w.sys);
    hide Exec, Enabled, OneNew, OneInFlight;
    assert Happen(w, Plain(COMMIT)) == Awaited(Exec(w.sys, COMMIT), None);
    hide Happen;
    AppliesIt(Happen(w, Plain(COMMIT)));
  }

  lemma LandsBehind(y: System, c: Capture)
    requires OneNew(y)
    ensures var z := Landed(y, c); OneNew(z) && z.store == y.store && z.history == y.history + [c.tid]
  {
    hide ApplyBatch;
  }

  lemma CancelledTaken(w: Awaited)
    requires w.orphan.None? && OneInFlight(w.sys) && !w.sys.applied && w.sys.flight.value.tid == 1 && w.sys.history == []
    ensures var z := Happen(Happen(w, Cancel(true)), OrphanLands);
      OneNew(z.sys) && z.sys.store.nextTid == 1 && z.sys.history == [1] && z.orphan.None?
  {
    hide Cancelled, Landed, OneNew, Happen;
    Rebuffers(w.sys);
    TakenThenLands(w);
    LandsBehind(Cancelled(w.sys), w.sys.flight.value);
  }

  lemma TakenThenLands(w: Awaited)
    requires w.orphan.None? && w.sys.flight.Some? && !w.sys.applied
    ensures Happen(Happen(w, Cancel(true)), OrphanLands) == Awaited(Landed(Cancelled(w.sys), w.sys.flight.value), None)
  {
    hide Cancelled, Landed, Exec, Enabled;
    assert Happen(w, Cancel(true)) == Awaited(Cancelled(w.sys), w.sys.flight);
  }

  lemma CancelledApplied(w: Awaited)
    requires w.orphan.None? && OneInFlight(w.sys) && w.sys.applied && w.sys.flight.value.tid == 1 && w.sys.history == [1]
    ensures var z := Happen(w, Cancel(false));
      OneNew(z.sys) && z.sys.store.nextTid == 1 && z.sys.history == [1] && z.orphan.None?
  {
    Rebuffers(w.sys);
    hide Cancelled;
  }

  lemma EndsTwo(es: seq<Event>, a: Event, b: Event)
    ensures Ends(es + [a, b]) == Happen(Happen(Ends(es), a), b)
  {
    hide Happen, Ends;
    var front := es + [a];
    assert es + [a, b] == front + [b];
    EndsAppend(es, a);
    EndsAppend(front, b);
  }

  lemma OrphanReusesTid(shape: Shape, bytes: Bytes)
    ensures Ends(OrphanRun(shape, bytes)).sys.history == [1, 1]
  {
    var a := [Insert(shape, bytes), Plain(COMMIT)];
    hide Ends, Happen, OneNew, OneInFlight;
    FirstTwo(shape, bytes);
    CancelledTaken(Ends(a));
    EndsTwo(a, Cancel(true), OrphanLands);
    EndsTwo(a + [Cancel(true), OrphanLands], Plain(COMMIT), Plain(DoP2));
    RetryRepeats(Ends(a + [Cancel(true), OrphanLands]));
    assert OrphanRun(shape, bytes) == a + [Cancel(true), OrphanLands] + [Plain(COMMIT), Plain(DoP2)];
  }

  lemma LateCancelReusesTid(shape: Shape, bytes: Bytes)
    ensures Ends(LateCancelRun(shape, bytes)).sys.history == [1, 1]
  {
    var a := [Insert(shape, bytes), Plain(COMMIT)];
    hide Ends, Happen, OneNew, OneInFlight;
    FirstTwo(shape, bytes);
    AppliesIt(Ends(a));
    CancelledApplied(Happen(Ends(a), Plain(DoP2)));
    EndsTwo(a, Plain(DoP2), Cancel(false));
    EndsTwo(a + [Plain(DoP2), Cancel(false)], Plain(COMMIT), Plain(DoP2));
    RetryRepeats(Ends(a + [Plain(DoP2), Cancel(false)]));
    assert LateCancelRun(shape, bytes) == a + [Plain(DoP2), Cancel(false)] + [Plain(COMMIT), Plain(DoP2)];
  }
}
