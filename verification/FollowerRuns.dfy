/**
 A follower fed by a live coordinator: whatever the run, deltas that miss no commit rebuild the
 coordinator's records exactly, class ids and TIDs included.
 */
module FollowerRuns {
  import opened Wire
  import opened Replication
  import opened Commit
  import opened CommitRuns
  import opened Follower

  /** The delta a step hands to the attached consumer, whatever that makes of it. */
  ghost function EmittedBy(y: System, step: Step): seq<Delta> {
    if step == DoP3 && Enabled(y, step) && y.watched && y.flight.value.delta.Some? then [y.flight.value.delta.value] else []
  }

  ghost function Emitted(steps: seq<Step>): seq<Delta> {
    if steps == [] then []
    else Emitted(steps[..|steps| - 1]) + EmittedBy(After(steps[..|steps| - 1]), steps[|steps| - 1])
  }

  /** Same records, types, root and watermark; the id counters may differ. */
  ghost predicate Follows(f: BackendState, b: BackendState) {
    f.objects == b.objects && f.types == b.types && f.meta.root == b.meta.root && f.meta.nextTid == b.meta.nextTid
  }

  /** One delta was handed over per finalized commit. */
  ghost predicate Complete(y: System, ds: seq<Delta>) {
    |ds| + 1 == Finalized(y).meta.nextTid
  }

  /** No commit hands over two deltas. While none was missed, the stream is recorded from genesis, bootstraps
      without a refusal, and its result follows. */
  ghost predicate StreamOk(y: System, ds: seq<Delta>) {
    && |ds| + 1 <= Finalized(y).meta.nextTid
    && (Complete(y, ds) ==> Rebuilds(ds, Image(Finalized(y)), Finalized(y)))
  }

  /** The stream rebuilt `b` and ends at watermark `a`. */
  ghost predicate Rebuilds(ds: seq<Delta>, a: ApplierState, b: BackendState) {
    var (applier, f, v) := BootAll(FRESH_APPLIER, FRESH_BACKEND, ds);
    !Stops(v) && applier == a && Follows(f, b) && FromGenesis(ds) && |ds| == a.watermark
  }

  /** One more delta that the applier accepts and that carries the next batch. */
  lemma RebuildsNext(ds: seq<Delta>, a: ApplierState, b: BackendState, d: Delta, batch: Batch)
    requires Rebuilds(ds, a, b) && Carries(d, batch) && batch.meta.nextTid == d.tid + 1
    requires ApplierStep(a, d).1 == Advanced && (batch.meta.root.None? ==> b.meta.root.None?)
    ensures Rebuilds(ds + [d], ApplierStep(a, d).0, ApplyBatch(b, batch))
  {
    hide ApplierStep, RecordsOf, RemovalsOf, PutAll, HeaderOk;
    var f := BootAll(FRESH_APPLIER, FRESH_BACKEND, ds).1;
    BootAllAppend(FRESH_APPLIER, FRESH_BACKEND, ds, [d]);
    BootOne(a, f, d);
    AcceptedTid(a, d);
    var g := ApplyBatch(f, BatchOf(MarksOf(f.meta), d));
    MarksAfterRoot(MarksOf(f.meta), d);
    assert Follows(g, ApplyBatch(b, batch));
  }

  lemma BootOne(a: ApplierState, f: BackendState, d: Delta)
    requires ApplierStep(a, d).1 == Advanced
    ensures BootAll(a, f, [d]) == (ApplierStep(a, d).0, ApplyBatch(f, BatchOf(MarksOf(f.meta), d)), Advanced)
  {
    hide ApplierStep, ApplyBatch, BatchOf;
    assert [d][1..] == [];
  }

  lemma AcceptedTid(a: ApplierState, d: Delta)
    requires ApplierStep(a, d).1 == Advanced
    ensures d.tid == a.watermark + 1 == ApplierStep(a, d).0.watermark
  {
    hide FoldOps, AddTypes;
  }

  lemma MarksAfterRoot(m: Marks, d: Delta)
    ensures MarksAfter(m, d).root == if d.root.Some? then d.root else m.root
  {
    MarkOpsBound(m, d.ops, d.tid);
    MarkTypesBound(MarkOps(m, d.ops), d.types);
  }

  lemma DeliveryFacts(y: System)
    requires Inv(y) && Enabled(y, DoP3) && y.flight.value.delta.Some?
    ensures var c, z := y.flight.value, Exec(y, DoP3);
      var d := c.delta.value;
      && Carries(d, c.batch) && c.batch.meta.nextTid == d.tid + 1 && ApplierStep(Image(y.base), d).1 == Advanced
      && (c.batch.meta.root.None? ==> y.base.meta.root.None?)
      && ApplierStep(Image(y.base), d).0 == Image(ApplyBatch(y.base, c.batch))
  {
    MirrorsIsImage(ApplierStep(Image(y.base), y.flight.value.delta.value).0, ApplyBatch(y.base, y.flight.value.batch));
    hide ApplierStep, RecordsOf, RemovalsOf, PutAll, P3, BuffersOk, ValuesOk, TypesOk, Payloads, AddTypes, Image, Mirrors;
  }

  lemma P3Backend(y: System)
    requires FlightOk(y) && TidsOk(y) && Enabled(y, DoP3)
    ensures var z := Exec(y, DoP3);
      && z.flight.None? && z.backend == ApplyBatch(y.base, y.flight.value.batch)
      && z.backend.meta.nextTid == y.base.meta.nextTid + 1
  {
    hide ApplierStep, P3, FlipsOk;
  }

  /** A stream that misses nothing after P3 missed nothing before, and heard the commit. */
  lemma CompleteAfterP3(y: System, ds: seq<Delta>)
    requires FlightOk(y) && TidsOk(y) && Enabled(y, DoP3) && |ds| + 1 <= y.base.meta.nextTid
    ensures var z, after := Exec(y, DoP3), ds + EmittedBy(y, DoP3);
      && Finalized(z) == ApplyBatch(y.base, y.flight.value.batch) && |after| + 1 <= Finalized(z).meta.nextTid
      && (Complete(z, after) ==> y.flight.value.delta.Some? && Complete(y, ds) && after == ds + [y.flight.value.delta.value])
  {
    P3Backend(y);
    hide Exec, FlightOk, TidsOk, ApplyBatch;
  }

  lemma DeliveryFollows(y: System, ds: seq<Delta>)
    requires Inv(y) && StreamOk(y, ds) && Enabled(y, DoP3)
    ensures StreamOk(Exec(y, DoP3), ds + EmittedBy(y, DoP3))
  {
    assert FlightOk(y) && TidsOk(y);
    assert Finalized(y) == y.base;
    hide Inv, Exec, Rebuilds, FlightOk, TidsOk, EmittedBy, ApplyBatch, Complete, Finalized;
    CompleteAfterP3(y, ds);
    if Complete(Exec(y, DoP3), ds + EmittedBy(y, DoP3)) {
      DeliveryFacts(y);
      RebuildsNext(ds, Image(y.base), y.base, y.flight.value.delta.value, y.flight.value.batch);
    }
  }

  lemma StepFollows(y: System, step: Step, ds: seq<Delta>)
    requires Inv(y) && StreamOk(y, ds)
    ensures StreamOk(Exec(y, step), ds + EmittedBy(y, step))
  {
    if step == DoP3 && Enabled(y, step) {
      DeliveryFollows(y, ds);
    } else {
      assert ds + [] == ds;
      QuietStep(y, step, ds);
    }
  }

  /** Every step but P3 leaves the finalized backend where it was; a restart between P2 and P3 finalizes a
      commit whose delta nobody will hear. */
  lemma FinalizedStays(y: System, step: Step)
    requires FlightOk(y) && TidsOk(y) && !(step == DoP3 && Enabled(y, step))
    ensures var a, b := Finalized(y), Finalized(Exec(y, step)); Follows(a, b) || a.meta.nextTid < b.meta.nextTid
  {
    if y.flight.Some? {
      NextFinalized(y);
    }
    hide P1, P3, Rollback, Boot, FlightOk, TidsOk, Mirrors, ApplyBatch;
  }

  lemma NextFinalized(y: System)
    requires FlightOk(y) && TidsOk(y) && y.flight.Some?
    ensures if y.applied then y.backend.meta.nextTid == y.base.meta.nextTid + 1 else y.backend == y.base
  {
    hide FlipsOk, PutAll;
  }

  lemma QuietStep(y: System, step: Step, ds: seq<Delta>)
    requires Inv(y) && StreamOk(y, ds) && !(step == DoP3 && Enabled(y, step))
    ensures StreamOk(Exec(y, step), ds)
  {
    assert FlightOk(y) && TidsOk(y);
    hide Inv, Exec, FlightOk, TidsOk, Finalized;
    FinalizedStays(y, step);
    var a, b := Finalized(y), Finalized(Exec(y, step));
    if Complete(Exec(y, step), ds) {
      SameImage(a, b);
      assert Rebuilds(ds, Image(a), a);
    }
  }

  lemma SameImage(a: BackendState, b: BackendState)
    requires Follows(a, b)
    ensures Image(a) == Image(b)
  {
  }

  lemma {:induction false} RunFollows(steps: seq<Step>)
    ensures StreamOk(After(steps), Emitted(steps))
  {
    hide Inv, Exec, StreamOk;
    if steps == [] {
      FreshStream();
    } else {
      var front, step := steps[..|steps| - 1], steps[|steps| - 1];
      RunFollows(front);
      Reached(front);
      StepFollows(After(front), step, Emitted(front));
    }
  }

  lemma FreshStream()
    ensures StreamOk(FRESH_SYSTEM, [])
  {
  }

  /** While the first consumer is attached, and no other took its place, no delta was missed. */
  lemma {:induction false} FirstConsumerHearsAll(steps: seq<Step>)
    requires forall s :: s in steps ==> !s.DoAttach?
    ensures After(steps).watched ==> OnTime(After(steps)) && Complete(After(steps), Emitted(steps))
  {
    hide Inv, Exec, OnTime, Complete, EmittedBy;
    if steps == [] {
      FreshHears();
    } else {
      var front, step := steps[..|steps| - 1], steps[|steps| - 1];
      assert steps == front + [step];
      FirstConsumerHearsAll(front);
      Reached(front);
      if After(front).watched {
        HearsStep(After(front), step, Emitted(front));
      } else {
        StaysUnwatched(After(front), step);
      }
    }
  }

  lemma FreshHears()
    ensures OnTime(FRESH_SYSTEM) && Complete(FRESH_SYSTEM, [])
  {
  }

  lemma StaysUnwatched(y: System, step: Step)
    requires !y.watched && !step.DoAttach?
    ensures !Exec(y, step).watched
  {
    hide P1, P3, Rollback, Boot, ApplyBatch;
  }

  lemma HearsStep(y: System, step: Step, ds: seq<Delta>)
    requires Inv(y) && OnTime(y) && Complete(y, ds) && !step.DoAttach?
    ensures var z := Exec(y, step);
      z.watched ==> OnTime(z) && Complete(z, ds + EmittedBy(y, step))
  {
    assert FlightOk(y) && TidsOk(y);
    StepKeeps(y, step);
    StepStaysOnTime(y, step);
    assert y.watched && (y.flight.Some? ==> y.flight.value.delta.Some?) && y.applier.watermark == y.store.lastTid;
    if step == DoP3 && Enabled(y, step) {
      P3Backend(y);
      hide Inv, Exec, FlightOk, TidsOk, OnTime;
    } else {
      WatermarkStays(y, step);
    }
  }

  /** A consumer that is still attached after such a step has heard what it had heard before. */
  lemma WatermarkStays(y: System, step: Step)
    requires Inv(y) && Inv(Exec(y, step)) && UpToDate(y) && !step.DoAttach? && !(step == DoP3 && Enabled(y, step))
    ensures var z := Exec(y, step);
      z.watched && UpToDate(z) ==> Finalized(z).meta.nextTid == Finalized(y).meta.nextTid
  {
    KeptApplier(y, step);
    hide BuffersOk, ValuesOk, IdsOk, TypesOk, FlightOk, DeltaFits, Exec, Payloads, AddTypes;
  }

  lemma KeptApplier(y: System, step: Step)
    requires !step.DoAttach? && !(step == DoP3 && Enabled(y, step))
    ensures Exec(y, step).applier == y.applier
  {
    hide P1, Rollback, Boot, ApplyBatch, P3;
  }

  /** Bootstrap any prefix of a stream that missed nothing, catch up with any overlapping suffix: between
      commits the follower's records, types, root and watermark equal the coordinator's. */
  lemma FollowerEqualsCoordinator(steps: seq<Step>, j: nat, k: nat)
    requires Complete(After(steps), Emitted(steps)) && After(steps).flight.None?
    requires j <= k <= |Emitted(steps)|
    ensures var ds := Emitted(steps);
      var (follower, verdict) := CatchAll(BootAll(FRESH_APPLIER, FRESH_BACKEND, ds[..k]).1, ds[j..]);
      verdict == Advanced && Follows(follower, After(steps).backend)
  {
    RunFollows(steps);
    BootstrapThenCatchUp(Emitted(steps), j, k);
  }
}
