/**
 Every run of the commit machine: user steps at any moment, P1 captures and rejections, P2
 successes and failures, P3 folds and restarts. The invariant below holds in every reachable
 state, and the theorems at the end are read off it. What a racing step may leave in the buffers,
 and what that does to the next commit, is in `CommitRaces.dfy`.
 */
module CommitRuns {
  import opened Wire
  import opened Replication
  import opened Commit

  /** `base` remembers the backend as the capture in flight found it; `history` the applied TIDs. */
  datatype System = System(
    store: StoreState, backend: BackendState, base: BackendState,
    flight: Option<Capture>, applied: bool,
    watched: bool, applier: ApplierState, history: seq<Tid>)

  datatype Step =
    | DoStore(shape: Shape, value: Value)
    | DoStoreRoot(shape: Shape, value: Value)
    | DoWrite(o: Oid, value: Value)
    | DoDelete(o: Oid)
    | DoDeleteByKey(o: Oid)
    | DoHydrate(o: Oid, shape: Shape)
    | DoForget(o: Oid)
    | DoP1(veto: bool, actor: nat, at: int)
    | DoP2
    | DoFail
    | DoP3
    | DoDiscard
    | DoRestart
    | DoAttach(consumer: ApplierState)
    | DoDetach

  const FRESH_SYSTEM := System(Boot(FRESH_BACKEND), FRESH_BACKEND, FRESH_BACKEND, None, false, true, FRESH_APPLIER, [])

  predicate FlightRecord(flight: Option<Capture>, o: Oid) {
    flight.Some? && o in OidsOf(flight.value.batch.records)
  }

  predicate FlightDelete(flight: Option<Capture>, o: Oid) {
    flight.Some? && o in flight.value.batch.deletes
  }

  /** What a key lookup may find: the unique index follows the backend only in P3, and an index built
      during the flight may see the batch already. */
  predicate Findable(y: System, o: Oid) {
    o in y.backend.objects || (y.flight.Some? && o in y.base.objects)
  }

  /** What the last finalized commit left durable. */
  function Finalized(y: System): BackendState {
    if y.flight.Some? then y.base else y.backend
  }

  /** The steps a run may take. */
  predicate Enabled(y: System, step: Step) {
    match step
    case DoStore(_, _) => true
    case DoStoreRoot(_, _) => y.store.root.None?
    case DoWrite(o, _) => o in y.store.live
    case DoDelete(o) => o in y.store.live
    case DoDeleteByKey(o) => Findable(y, o)
    // The type name of the record's class id names the class that is loaded; its fields may have changed.
    case DoHydrate(o, shape) =>
      && o !in y.store.live && o in y.backend.objects && y.backend.objects[o].cid in y.store.lineage.shapeOf
      && y.store.lineage.shapeOf[y.backend.objects[o].cid].typename == shape.typename
    // The registry holds clean entities weakly; a capture holds what it took.
    case DoForget(o) => o in y.store.live && y.store.live[o].life == Clean && !FlightRecord(y.flight, o)
    case DoP1(_, _, _) => y.flight.None? && forall o :: o in Pending(y.store) ==> o in y.store.live
    case DoP2 => y.flight.Some? && !y.applied
    case DoFail => y.flight.Some? && !y.applied
    case DoP3 => y.flight.Some? && y.applied
    case DoDiscard => y.flight.None?
    case DoRestart => true
    // Attaching asks for the store's watermark; a consumer that is there was rebuilt from a snapshot of it.
    case DoAttach(a) => !y.watched && a.watermark == y.store.lastTid && Mirrors(a, Finalized(y))
    case DoDetach => y.watched
  }

  /** P3 delivers the delta; a consumer that does not advance is detached. */
  function Deliver(y: System, c: Capture): System {
    match c.delta
    case Some(d) =>
      if !y.watched then y
      else
        var (a, verdict) := ApplierStep(y.applier, d);
        y.(applier := a, watched := verdict == Advanced && a.watermark == d.tid)
    case None => y
  }

  function Exec(y: System, step: Step): System
  {
    if !Enabled(y, step) then y
    else
      match step
      case DoStore(shape, value) => y.(store := StoreNew(y.store, shape, value))
      case DoStoreRoot(shape, value) =>
        y.(store := StoreNew(y.store, shape, value).(root := Some(y.store.nextOid)))
      case DoWrite(o, value) => y.(store := Write(y.store, o, value))
      case DoDelete(o) => y.(store := DeleteInstance(y.store, o))
      case DoDeleteByKey(o) => y.(store := DeleteByKey(y.store, o))
      case DoHydrate(o, shape) => y.(store := Hydrate(y.store, o, shape, y.backend.objects[o]))
      case DoForget(o) => y.(store := Forget(y.store, o))
      case DoP1(veto, actor, at) =>
        var (s, result) := P1(y.store, y.backend.objects, y.watched, veto, actor, at);
        (match result
         case Captured(c) => y.(store := s, flight := Some(c), applied := false, base := y.backend)
         case _ => y.(store := s))
      case DoP2 =>
        y.(backend := ApplyBatch(y.backend, y.flight.value.batch), applied := true,
           history := y.history + [y.flight.value.tid])
      case DoFail => y.(store := Rollback(y.store, y.flight.value), flight := None)
      case DoP3 =>
        Deliver(y.(store := P3(y.store, y.flight.value), flight := None), y.flight.value)
      case DoDiscard => y.(store := Boot(y.backend))
      case DoRestart =>
        var s := Boot(y.backend);
        y.(store := s, flight := None, watched := y.watched && y.applier.watermark == s.lastTid)
      case DoAttach(a) => y.(applier := a, watched := true)
      case DoDetach => y.(watched := false)
  }

  function Run(y: System, steps: seq<Step>): System
  {
    if steps == [] then y else Exec(Run(y, steps[..|steps| - 1]), steps[|steps| - 1])
  }

  // ---------------------------------------------------------------- invariant

  ghost predicate BuffersOk(y: System) {
    var s := y.store;
    && NoDup(s.inserts) && NoDup(s.dirty) && NoDup(s.deleted)
    && (forall o :: o in s.inserts ==>
          && o in s.live && s.live[o].life == New
          && o !in y.backend.objects && !FlightRecord(y.flight, o) && !FlightDelete(y.flight, o))
    && (forall o :: o in s.dirty ==> o in s.live && s.live[o].life in {Dirty, Deleted})
    && (forall o :: Persisted(y, o) ==> o in Finalized(y).objects || FlightRecord(y.flight, o))
  }

  /** An instance of a record, neither deleted nor waiting for its first commit. */
  ghost predicate Persisted(y: System, o: Oid) {
    o in y.store.live && y.store.live[o].life in {Clean, Dirty}
  }

  ghost predicate Gone(y: System, o: Oid) {
    || o in y.store.deleted || FlightDelete(y.flight, o)
    || (o in y.store.live && y.store.live[o].life == Deleted)
  }

  /** What the record of an entity says, or will say once the batch in flight is durable. */
  ghost function Target(y: System): map<Oid, StoredRecord> {
    if y.flight.Some? then PutAll(y.backend.objects, y.flight.value.batch.records) else y.backend.objects
  }

  ghost predicate InSync(y: System, o: Oid)
    requires o in y.store.live
  {
    o in Target(y) && y.store.live[o].value == Value(Target(y)[o].payload, true)
  }

  ghost predicate ValuesOk(y: System) {
    forall o :: o in y.store.live && !Gone(y, o) ==>
      match y.store.live[o].life
      case New => o in y.store.inserts
      case Dirty => o in y.store.dirty
      case Clean => InSync(y, o)
      case Deleted => true
  }

  ghost predicate IdsOk(y: System) {
    && (forall o :: o in y.store.live || o in y.store.deleted ==> o < y.store.nextOid)
    && (forall o :: o in y.backend.objects ==> o < y.backend.meta.nextOid && y.backend.objects[o].oid == o)
    && y.backend.meta.nextOid <= y.store.nextOid
    && (forall o :: o in y.store.inserts ==>
          o >= y.backend.meta.nextOid && (y.flight.Some? ==> o >= y.flight.value.batch.meta.nextOid))
    && (y.backend.meta.root.Some? ==> y.store.root.Some?)
    && (y.flight.Some? ==>
          && (y.base.meta.root.Some? ==> y.flight.value.batch.meta.root.Some?)
          && (y.flight.value.batch.meta.root.Some? ==> y.store.root.Some?))
    && (y.flight.Some? ==>
          && y.flight.value.batch.meta.nextOid <= y.store.nextOid
          && y.base.meta.nextOid <= y.flight.value.batch.meta.nextOid
          && (forall o: Oid :: FlightDelete(y.flight, o) ==> o < y.store.nextOid)
          && forall o: Oid :: FlightRecord(y.flight, o) ==> o < y.flight.value.batch.meta.nextOid)
  }

  ghost predicate DistinctRows(rows: seq<TypeRow>) {
    forall i, j :: 0 <= i < j < |rows| ==> rows[i].cid != rows[j].cid
  }

  /** The lineage knows these rows, and the persisted counter is past them. */
  ghost predicate RowsKnown(l: Lineage, rows: seq<TypeRow>, nextCid: nat) {
    forall i :: 0 <= i < |rows| ==>
      rows[i].cid in l.shapeOf && l.shapeOf[rows[i].cid] == rows[i].shape && rows[i].cid < nextCid
  }

  ghost predicate TypesOk(y: System) {
    && LineageOk(y.store.lineage)
    && y.store.lineage.durable == CidsOf(if y.flight.Some? then y.base.types else y.backend.types)
    && DistinctRows(y.backend.types)
    && RowsKnown(y.store.lineage, y.backend.types, y.backend.meta.nextCid)
    && (forall o :: o in y.backend.objects ==> y.backend.objects[o].cid in CidsOf(y.backend.types))
    && y.backend.meta.nextCid <= y.store.lineage.nextCid
  }

  ghost predicate TidsOk(y: System) {
    && y.backend.meta.nextTid >= 1
    && |y.history| == y.backend.meta.nextTid - 1
    && (forall i :: 0 <= i < |y.history| ==> y.history[i] == i + 1)
    && (y.flight.None? ==> y.store.lastTid + 1 == y.store.nextTid == y.backend.meta.nextTid)
    && (y.flight.Some? ==>
          && y.store.lastTid + 1 == y.flight.value.tid == y.base.meta.nextTid
          && y.store.nextTid == y.flight.value.tid + 1)
  }

  ghost predicate FlipsOk(y: System, c: Capture) {
    && |c.flipped| == |c.batch.records|
    && (forall i :: 0 <= i < |c.flipped| ==>
          var (o, prior) := c.flipped[i];
          && o == c.batch.records[i].oid
          && (prior == New <==> o !in y.base.objects) && (prior == New ==> o >= y.base.meta.nextOid)
          && o in y.store.live && y.store.live[o].life != New)
  }

  ghost predicate FlightOk(y: System) {
    y.flight.Some? ==>
      var c := y.flight.value;
      && y.backend == (if y.applied then ApplyBatch(y.base, c.batch) else y.base)
      && BatchShaped(y.base, c.batch)
      && c.tid == c.batch.tid && c.deletes == c.batch.deletes
      && FlipsOk(y, c)
      && (forall o :: o in y.base.objects ==> y.base.objects[o].oid == o)
      && DistinctRows(y.base.types + c.batch.newTypes)
      && RowsKnown(y.store.lineage, y.base.types + c.batch.newTypes, c.batch.meta.nextCid)
      && c.batch.meta.nextCid <= y.store.lineage.nextCid
  }

  /** The consumer that holds exactly what the backend says. */
  ghost function Image(b: BackendState): ApplierState {
    ApplierState(Payloads(b.objects), AddTypes(map[], b.types), b.meta.root, if b.meta.nextTid > 0 then b.meta.nextTid - 1 else 0)
  }

  /** A delta in flight says what its batch does, and a consumer that mirrors the base takes it. */
  ghost predicate DeltaFits(y: System) {
    y.flight.Some? && y.flight.value.delta.Some? ==>
      var c := y.flight.value;
      && Carries(c.delta.value, c.batch) && c.delta.value.tid == c.tid
      && var (a, verdict) := ApplierStep(Image(y.base), c.delta.value);
         verdict == Advanced && Mirrors(a, ApplyBatch(y.base, c.batch))
  }

  /** The attached consumer has heard every commit so far. */
  predicate UpToDate(y: System) {
    y.watched && y.applier.watermark == y.store.lastTid
  }

  /** An attached consumer is never ahead of the store, and mirrors it when it is not behind. */
  ghost predicate ConsumerOk(y: System) {
    && DeltaFits(y)
    && (y.watched ==> y.applier.watermark <= y.store.lastTid)
    && (UpToDate(y) ==> Mirrors(y.applier, Finalized(y)))
  }

  ghost predicate Inv(y: System) {
    && BuffersOk(y) && ValuesOk(y) && IdsOk(y) && TypesOk(y) && TidsOk(y) && FlightOk(y) && ConsumerOk(y)
  }

  // ------------------------------------------------------- steps keep the invariant

  lemma FreshOk()
    ensures Inv(FRESH_SYSTEM)
  {
  }

  ghost predicate MemoryOk(y: System) {
    BuffersOk(y) && ValuesOk(y) && IdsOk(y)
  }

  /** A user step leaves the lineage, the TID counters and the capture in flight alone, so only the
      buffers, the values and the ids are left to check. */
  lemma UserStepKeeps(y: System, s: StoreState)
    requires Inv(y) && MemoryOk(y.(store := s))
    requires s.lineage == y.store.lineage && s.nextTid == y.store.nextTid && s.lastTid == y.store.lastTid
    requires forall o :: o in y.store.live && y.store.live[o].life != New && (o in s.live || FlightRecord(y.flight, o)) ==>
      o in s.live && s.live[o].life != New
    ensures Inv(y.(store := s))
  {
    hide BuffersOk, ValuesOk, IdsOk, BatchShaped, RowsKnown, DistinctRows, Mirrors, Carries, ApplierStep, ApplyBatch;
    var z := y.(store := s);
    assert TypesOk(z) && TidsOk(z) && FlightOk(z) && ConsumerOk(z);
  }

  lemma StoreKeeps(y: System, shape: Shape, value: Value)
    requires Inv(y)
    ensures Inv(y.(store := StoreNew(y.store, shape, value)))
    ensures Inv(y.(store := StoreNew(y.store, shape, value).(root := Some(y.store.nextOid))))
  {
    var s := StoreNew(y.store, shape, value);
    StoreMemory(y, shape, value);
    assert forall o :: o in y.store.live ==> o != y.store.nextOid;
    hide Inv, MemoryOk;
    UserStepKeeps(y, s);
    UserStepKeeps(y, s.(root := Some(y.store.nextOid)));
  }

  lemma StoreMemory(y: System, shape: Shape, value: Value)
    requires MemoryOk(y)
    ensures MemoryOk(y.(store := StoreNew(y.store, shape, value)))
    ensures MemoryOk(y.(store := StoreNew(y.store, shape, value).(root := Some(y.store.nextOid))))
  {
    FreshOid(y);
    StoreBuffers(y, shape, value);
    StoreValues(y, shape, value);
    hide BuffersOk, ValuesOk, Target, Gone;
    var z := y.(store := StoreNew(y.store, shape, value));
    RootDoesNotMatter(z, Some(y.store.nextOid));
    assert IdsOk(z) && IdsOk(z.(store := z.store.(root := Some(y.store.nextOid))));
  }

  /** The OID handed to a new entity is one nobody has seen. */
  lemma FreshOid(y: System)
    requires MemoryOk(y)
    ensures var o := y.store.nextOid;
      && o !in y.store.live && o !in y.backend.objects && !FlightRecord(y.flight, o) && !FlightDelete(y.flight, o)
      && o !in y.store.inserts && o !in y.store.dirty && o !in y.store.deleted
  {
  }

  lemma RootDoesNotMatter(y: System, root: Option<Oid>)
    requires BuffersOk(y) && ValuesOk(y)
    ensures var z := y.(store := y.store.(root := root)); BuffersOk(z) && ValuesOk(z)
  {
    var z := y.(store := y.store.(root := root));
    assert Target(z) == Target(y);
    assert forall o :: Gone(z, o) <==> Gone(y, o);
    assert forall o :: Persisted(z, o) <==> Persisted(y, o);
    hide Target, Gone, FlightRecord, FlightDelete;
  }

  lemma StoreBuffers(y: System, shape: Shape, value: Value)
    requires BuffersOk(y)
    requires var o := y.store.nextOid;
      o !in y.store.live && o !in y.backend.objects && !FlightRecord(y.flight, o) && !FlightDelete(y.flight, o)
    ensures BuffersOk(y.(store := StoreNew(y.store, shape, value)))
  {
    hide FlightRecord, FlightDelete;
    var z := y.(store := StoreNew(y.store, shape, value));
    assert forall o :: Persisted(z, o) ==> Persisted(y, o);
  }

  lemma StoreValues(y: System, shape: Shape, value: Value)
    requires ValuesOk(y) && y.store.nextOid !in y.store.live
    ensures ValuesOk(y.(store := StoreNew(y.store, shape, value)))
  {
    var z := y.(store := StoreNew(y.store, shape, value));
    assert Target(z) == Target(y);
    assert forall x :: x != y.store.nextOid ==> (Gone(z, x) <==> Gone(y, x));
    hide Target, Gone;
  }

  lemma WriteKeeps(y: System, o: Oid, value: Value)
    requires Inv(y) && Enabled(y, DoWrite(o, value))
    ensures Inv(Exec(y, DoWrite(o, value)))
  {
    WriteMemory(y, o, value);
    hide Inv, MemoryOk;
    UserStepKeeps(y, Write(y.store, o, value));
  }

  lemma WriteMemory(y: System, o: Oid, value: Value)
    requires MemoryOk(y) && o in y.store.live
    ensures MemoryOk(y.(store := Write(y.store, o, value)))
  {
    WriteBuffers(y, o, value);
    WriteValues(y, o, value);
    hide BuffersOk, ValuesOk;
  }

  lemma WriteBuffers(y: System, o: Oid, value: Value)
    requires BuffersOk(y) && o in y.store.live
    ensures BuffersOk(y.(store := Write(y.store, o, value)))
  {
  }

  lemma WriteValues(y: System, o: Oid, value: Value)
    requires ValuesOk(y) && o in y.store.live
    ensures ValuesOk(y.(store := Write(y.store, o, value)))
  {
    var z := y.(store := Write(y.store, o, value));
    assert Target(z) == Target(y);
    assert forall x :: Gone(z, x) <==> Gone(y, x);
  }

  lemma InvMemory(y: System)
    requires Inv(y)
    ensures MemoryOk(y) && IdsOk(y) && FlightOk(y)
  {
  }

  lemma DeleteKeeps(y: System, o: Oid)
    requires Inv(y) && (o in y.store.live || Findable(y, o))
    ensures Inv(y.(store := DeleteOid(y.store, o)))
  {
    hide Inv, MemoryOk, IdsOk, FlightOk, Findable, Without, Put;
    InvMemory(y);
    FindableIsOld(y, o);
    DeleteMemory(y, o);
    UserStepKeeps(y, DeleteOid(y.store, o));
  }

  lemma DeleteMemory(y: System, o: Oid)
    requires MemoryOk(y) && o < y.store.nextOid
    ensures MemoryOk(y.(store := DeleteOid(y.store, o)))
  {
    DeleteBuffers(y, o);
    DeleteValues(y, o);
    hide BuffersOk, ValuesOk;
  }

  /** A backend without `o` whose batch in flight is applied lost it to that batch. */
  lemma FindableIsOld(y: System, o: Oid)
    requires IdsOk(y) && FlightOk(y) && (o in y.store.live || Findable(y, o))
    ensures o < y.store.nextOid
  {
    if y.flight.Some? {
      PutAllLookup(y.base.objects, y.flight.value.batch.records);
      assert o in y.base.objects && o !in y.backend.objects ==> FlightDelete(y.flight, o);
    }
  }

  lemma DeleteBuffers(y: System, o: Oid)
    requires BuffersOk(y)
    ensures BuffersOk(y.(store := DeleteOid(y.store, o)))
  {
  }

  lemma DeleteValues(y: System, o: Oid)
    requires ValuesOk(y)
    ensures ValuesOk(y.(store := DeleteOid(y.store, o)))
  {
    var z := y.(store := DeleteOid(y.store, o));
    assert Target(z) == Target(y);
    assert z.store == y.store || forall x :: x in z.store.live && !Gone(z, x) ==> !Gone(y, x) && x != o;
    assert forall x :: x != o && x in y.store.live ==> z.store.live[x] == y.store.live[x];
  }

  lemma HydrateKeeps(y: System, o: Oid, shape: Shape)
    requires Inv(y) && Enabled(y, DoHydrate(o, shape))
    ensures Inv(Exec(y, DoHydrate(o, shape)))
  {
    FlightRecordsAreLive(y);
    if y.flight.Some? {
      PutAllLookup(y.backend.objects, y.flight.value.batch.records);
      PutAllLookup(y.base.objects, y.flight.value.batch.records);
    }
    HydrateMemory(y, o, shape);
    hide Inv, MemoryOk;
    UserStepKeeps(y, Hydrate(y.store, o, shape, y.backend.objects[o]));
  }

  lemma ForgetKeeps(y: System, o: Oid)
    requires Inv(y) && Enabled(y, DoForget(o))
    ensures Inv(Exec(y, DoForget(o)))
  {
    ForgetMemory(y, o);
    hide Inv, MemoryOk;
    UserStepKeeps(y, Forget(y.store, o));
  }

  lemma ForgetMemory(y: System, o: Oid)
    requires MemoryOk(y) && o in y.store.live && y.store.live[o].life == Clean
    ensures MemoryOk(y.(store := Forget(y.store, o)))
  {
    var z := y.(store := Forget(y.store, o));
    assert Target(z) == Target(y);
    assert forall x :: x in z.store.live ==> (Gone(z, x) <==> Gone(y, x));
    hide Target, Gone;
  }

  /** No record in flight is missing from memory: a capture holds live entities only. */
  lemma FlightRecordsAreLive(y: System)
    requires FlightOk(y)
    ensures forall o :: FlightRecord(y.flight, o) ==> o in y.store.live
    ensures y.flight.Some? ==> DistinctOids(y.flight.value.batch.records)
  {
    forall o | FlightRecord(y.flight, o)
      ensures o in y.store.live
    {
      var c := y.flight.value;
      var r :| r in c.batch.records && r.oid == o;
      var i :| 0 <= i < |c.batch.records| && c.batch.records[i] == r;
      assert c.flipped[i].0 == o;
    }
  }

  lemma HydrateMemory(y: System, o: Oid, shape: Shape)
    requires MemoryOk(y) && Enabled(y, DoHydrate(o, shape))
    requires o in Target(y) && Target(y)[o] == y.backend.objects[o]
    requires o in Finalized(y).objects || FlightRecord(y.flight, o)
    ensures MemoryOk(y.(store := Hydrate(y.store, o, shape, y.backend.objects[o])))
  {
    var z := y.(store := Hydrate(y.store, o, shape, y.backend.objects[o]));
    assert Target(z) == Target(y);
    assert forall x :: x != o ==> (Gone(z, x) <==> Gone(y, x));
  }

  // P2 -------------------------------------------------------------------------

  lemma CidsMatchKeys(rows: seq<TypeRow>)
    ensures AddTypes(map[], rows).Keys == CidsOf(rows)
  {
    AddTypesKeys(map[], rows);
    forall c
      ensures c in AddTypes(map[], rows).Keys <==> c in CidsOf(rows)
    {
      if c in CidsOf(rows) {
        var r :| r in rows && r.cid == c;
        var i :| 0 <= i < |rows| && rows[i] == r;
        assert rows[i].cid == c;
      }
    }
  }

  lemma P2Keeps(y: System)
    requires Inv(y) && Enabled(y, DoP2)
    ensures Inv(Exec(y, DoP2))
  {
    var c := y.flight.value;
    var z := Exec(y, DoP2);
    PutAllLookup(y.base.objects, c.batch.records);
    P2Memory(y);
    assert TypesOk(z) by {
      P2Types(y);
    }
    assert TidsOk(z) && FlightOk(z) && ConsumerOk(z);
  }

  lemma P2Types(y: System)
    requires TypesOk(y) && FlightOk(y) && Enabled(y, DoP2)
    ensures TypesOk(Exec(y, DoP2))
  {
    var c := y.flight.value;
    var z := Exec(y, DoP2);
    PutAllLookup(y.base.objects, c.batch.records);
    CidsMatchKeys(y.base.types + c.batch.newTypes);
    CidsMatchKeys(y.base.types);
    forall o | o in z.backend.objects
      ensures z.backend.objects[o].cid in CidsOf(z.backend.types)
    {
      if o in OidsOf(c.batch.records) {
        var r :| r in c.batch.records && r.oid == o;
        var i :| 0 <= i < |c.batch.records| && c.batch.records[i] == r;
        assert z.backend.objects[o] == c.batch.records[i];
      } else {
        var row :| row in y.base.types && row.cid == y.base.objects[o].cid;
        assert row in z.backend.types;
      }
    }
  }

  lemma P2Memory(y: System)
    requires MemoryOk(y) && FlightOk(y) && Enabled(y, DoP2)
    ensures MemoryOk(Exec(y, DoP2))
  {
    P2Buffers(y);
    P2Values(y);
    P2Ids(y);
  }

  lemma P2Buffers(y: System)
    requires BuffersOk(y) && Enabled(y, DoP2) && y.backend == y.base && DistinctOids(y.flight.value.batch.records)
    requires OidsOf(y.flight.value.batch.records) !! ToSet(y.flight.value.batch.deletes)
    ensures BuffersOk(Exec(y, DoP2))
  {
    PutAllLookup(y.base.objects, y.flight.value.batch.records);
  }

  lemma P2Values(y: System)
    requires ValuesOk(y) && FlightOk(y) && Enabled(y, DoP2)
    ensures ValuesOk(Exec(y, DoP2))
  {
    var z := Exec(y, DoP2);
    forall o | o in z.store.live && !Gone(z, o)
      ensures z.store.live[o].life == Clean ==> InSync(z, o)
      ensures z.store.live[o].life == New ==> o in z.store.inserts
      ensures z.store.live[o].life == Dirty ==> o in z.store.dirty
    {
      assert !Gone(y, o);
      SameTarget(y, o);
    }
  }

  lemma P2Ids(y: System)
    requires IdsOk(y) && FlightOk(y) && Enabled(y, DoP2)
    ensures IdsOk(Exec(y, DoP2))
  {
    var z := Exec(y, DoP2);
    var recs := y.flight.value.batch.records;
    PutAllLookup(y.base.objects, recs);
    forall o | o in z.backend.objects
      ensures o < z.backend.meta.nextOid && z.backend.objects[o].oid == o
    {
      if o in OidsOf(recs) {
        assert FlightRecord(y.flight, o);
        var r :| r in recs && r.oid == o;
        var i :| 0 <= i < |recs| && recs[i] == r;
        assert z.backend.objects[o] == recs[i];
      }
    }
  }

  /** Applying the batch does not change what a surviving entity's record will say. */
  lemma SameTarget(y: System, o: Oid)
    requires FlightOk(y) && Enabled(y, DoP2) && !FlightDelete(y.flight, o)
    ensures o in Target(y) <==> o in Target(Exec(y, DoP2))
    ensures o in Target(y) ==> Target(y)[o] == Target(Exec(y, DoP2))[o]
  {
    var recs := y.flight.value.batch.records;
    PutAllLookup(y.base.objects, recs);
    PutAllLookup(ApplyBatch(y.base, y.flight.value.batch).objects, recs);
    if o in OidsOf(recs) {
      var r :| r in recs && r.oid == o;
      var i :| 0 <= i < |recs| && recs[i] == r;
      assert PutAll(y.base.objects, recs)[o] == recs[i];
    }
  }

  // Rollback ---------------------------------------------------------------------

  lemma {:induction false} PriorSplit(flipped: seq<(Oid, Life)>)
    ensures forall o :: o in PriorNew(flipped) <==> exists i :: 0 <= i < |flipped| && flipped[i] == (o, New)
    ensures forall o :: o in PriorOther(flipped) <==> exists i :: 0 <= i < |flipped| && flipped[i].0 == o && flipped[i].1 != New
  {
    if flipped != [] {
      var front, last := flipped[..|flipped| - 1], flipped[|flipped| - 1];
      PriorSplit(front);
      assert flipped == front + [last];
      forall o | o in PriorNew(flipped)
        ensures exists i :: 0 <= i < |flipped| && flipped[i] == (o, New)
      {
        if o in PriorNew(front) {
          var i :| 0 <= i < |front| && front[i] == (o, New);
          assert flipped[i] == (o, New);
        }
      }
      forall o | o in PriorOther(flipped)
        ensures exists i :: 0 <= i < |flipped| && flipped[i].0 == o && flipped[i].1 != New
      {
        if o in PriorOther(front) {
          var i :| 0 <= i < |front| && front[i].0 == o && front[i].1 != New;
          assert flipped[i] == front[i];
        }
      }
    }
  }

  /** The capture in flight took this entity from the inserts. */
  ghost predicate CapturedNew(flight: Option<Capture>, o: Oid) {
    flight.Some? && exists i :: 0 <= i < |flight.value.flipped| && flight.value.flipped[i] == (o, New)
  }

  /** Which captured entities go back to which buffer: those taken from the inserts go back there. */
  lemma CapturedSplit(y: System)
    requires FlightOk(y) && y.flight.Some?
    ensures forall o :: o in PriorNew(y.flight.value.flipped) <==> CapturedNew(y.flight, o)
    ensures forall o :: o in PriorOther(y.flight.value.flipped) <==> FlightRecord(y.flight, o) && !CapturedNew(y.flight, o)
    ensures forall o :: CapturedNew(y.flight, o) <==> FlightRecord(y.flight, o) && o !in y.base.objects
    ensures forall o :: FlightRecord(y.flight, o) ==> o in y.store.live && y.store.live[o].life != New
    ensures forall o: Oid :: CapturedNew(y.flight, o) ==> o >= y.base.meta.nextOid
  {
    PriorSplit(y.flight.value.flipped);
    forall o: Oid
      ensures o in PriorOther(y.flight.value.flipped) <==> FlightRecord(y.flight, o) && !CapturedNew(y.flight, o)
      ensures CapturedNew(y.flight, o) <==> FlightRecord(y.flight, o) && o !in y.base.objects
      ensures FlightRecord(y.flight, o) ==> o in y.store.live && y.store.live[o].life != New
      ensures CapturedNew(y.flight, o) ==> o >= y.base.meta.nextOid
    {
      CapturedSplitAt(y, o);
    }
  }

  lemma CapturedSplitAt(y: System, o: Oid)
    requires FlightOk(y) && y.flight.Some?
    ensures CapturedNew(y.flight, o) <==> FlightRecord(y.flight, o) && o !in y.base.objects
    ensures CapturedNew(y.flight, o) ==> o >= y.base.meta.nextOid
    ensures FlightRecord(y.flight, o) ==> o in y.store.live && y.store.live[o].life != New
    ensures var f := y.flight.value.flipped;
      (exists i :: 0 <= i < |f| && f[i].0 == o && f[i].1 != New) <==> FlightRecord(y.flight, o) && !CapturedNew(y.flight, o)
  {
    var c := y.flight.value;
    if FlightRecord(y.flight, o) {
      var r :| r in c.batch.records && r.oid == o;
      var i :| 0 <= i < |c.batch.records| && c.batch.records[i] == r;
      assert c.flipped[i].0 == o;
      if c.flipped[i].1 == New {
        assert c.flipped[i] == (o, New);
      }
    }
    if i :| 0 <= i < |c.flipped| && c.flipped[i].0 == o {
      assert c.batch.records[i] in c.batch.records;
    }
  }

  lemma FailKeeps(y: System)
    requires Inv(y) && Enabled(y, DoFail)
    ensures Inv(Exec(y, DoFail))
  {
    var z := Exec(y, DoFail);
    CapturedSplit(y);
    FlightRecordsAreLive(y);
    FailMemory(y);
    assert TypesOk(z) && TidsOk(z) && FlightOk(z) && ConsumerOk(z);
  }

  /** The facts of a capture that its rollback rests on. */
  ghost predicate RollbackReady(y: System) {
    && Enabled(y, DoFail) && y.backend == y.base
    && var c := y.flight.value;
    && c.deletes == c.batch.deletes && OidsOf(c.batch.records) !! ToSet(c.deletes)
    && DistinctOids(c.batch.records)
    && (forall o :: o in PriorNew(c.flipped) <==> CapturedNew(y.flight, o))
    && (forall o :: o in PriorOther(c.flipped) <==> FlightRecord(y.flight, o) && !CapturedNew(y.flight, o))
    && (forall o :: CapturedNew(y.flight, o) <==> FlightRecord(y.flight, o) && o !in y.base.objects)
    && (forall o: Oid :: CapturedNew(y.flight, o) ==> o >= y.base.meta.nextOid)
    && (forall o :: FlightRecord(y.flight, o) ==> o in y.store.live && y.store.live[o].life != New)
  }

  lemma FailMemory(y: System)
    requires MemoryOk(y) && RollbackReady(y)
    ensures MemoryOk(Exec(y, DoFail))
  {
    FailBuffers(y);
    FailValues(y);
    FailIds(y);
  }

  /** The buffers after a rollback, by membership. */
  lemma RollbackMembers(s: StoreState, c: Capture)
    ensures forall o :: o in Rollback(s, c).inserts <==> o in s.inserts || o in PriorNew(c.flipped)
    ensures forall o :: o in Rollback(s, c).dirty <==> (o in s.dirty && o !in PriorNew(c.flipped)) || o in PriorOther(c.flipped)
    ensures forall o :: o in Rollback(s, c).deleted <==> o in s.deleted || o in c.deletes
    ensures NoDup(s.inserts) ==> NoDup(Rollback(s, c).inserts)
    ensures NoDup(s.dirty) ==> NoDup(Rollback(s, c).dirty)
    ensures NoDup(s.deleted) ==> NoDup(Rollback(s, c).deleted)
  {
    hide PriorNew, PriorOther, SetLife, NoDup;
  }

  /** The lives after a rollback. */
  lemma RollbackLives(s: StoreState, c: Capture)
    ensures Rollback(s, c).live.Keys == s.live.Keys
    ensures forall o :: o in s.live ==>
      Rollback(s, c).live[o].life == if o in PriorOther(c.flipped) then Dirty else if o in PriorNew(c.flipped) then New else s.live[o].life
  {
    hide PriorNew, PriorOther, PutEach, Without;
  }

  lemma FailBuffers(y: System)
    requires BuffersOk(y) && RollbackReady(y)
    ensures BuffersOk(Exec(y, DoFail))
  {
    hide BuffersOk, Rollback, PriorNew, PriorOther, NoDup, CapturedNew;
    var c, z := y.flight.value, Exec(y, DoFail);
    BufferedOnce(y);
    RollbackMembers(y.store, c);
    RollbackLives(y.store, c);
    assert z.store == Rollback(y.store, c) && z.flight.None? && z.backend == y.base;
    hide RollbackReady, Exec;
    FailBuffersFrom(y, z, PriorNew(c.flipped), PriorOther(c.flipped));
  }

  lemma BufferedOnce(y: System)
    requires BuffersOk(y)
    ensures NoDup(y.store.inserts) && NoDup(y.store.dirty) && NoDup(y.store.deleted)
  {
  }

  lemma FailBuffersFrom(y: System, z: System, wasNew: seq<Oid>, wasOther: seq<Oid>)
    requires BuffersOk(y) && y.flight.Some? && z.flight.None? && z.backend == y.base == y.backend
    requires NoDup(z.store.inserts) && NoDup(z.store.dirty) && NoDup(z.store.deleted)
    requires forall o :: o in wasNew ==> FlightRecord(y.flight, o) && o !in y.base.objects && o !in wasOther
    requires forall o :: o in wasOther ==> FlightRecord(y.flight, o) && o in y.base.objects
    requires forall o :: FlightRecord(y.flight, o) ==> o in y.store.live && (o in wasNew || o in wasOther)
    requires forall o :: o in z.store.inserts <==> o in y.store.inserts || o in wasNew
    requires forall o :: o in z.store.dirty <==> (o in y.store.dirty && o !in wasNew) || o in wasOther
    requires z.store.live.Keys == y.store.live.Keys
    requires forall o :: o in y.store.live ==>
      z.store.live[o].life == if o in wasOther then Dirty else if o in wasNew then New else y.store.live[o].life
    ensures BuffersOk(z)
  {
    assert forall o :: !FlightRecord(z.flight, o);
    hide NoDup, FlightRecord;
    forall o | Persisted(z, o)
      ensures o in z.backend.objects
    {
      assert o in wasOther || Persisted(y, o);
    }
  }

  lemma FailValues(y: System)
    requires ValuesOk(y) && RollbackReady(y)
    ensures ValuesOk(Exec(y, DoFail))
  {
    var c := y.flight.value;
    var z := Exec(y, DoFail);
    PutAllLookup(y.base.objects, c.batch.records);
    forall o | o in z.store.live && !Gone(z, o)
      ensures z.store.live[o].life == Clean ==> InSync(z, o)
      ensures z.store.live[o].life == New ==> o in z.store.inserts
      ensures z.store.live[o].life == Dirty ==> o in z.store.dirty
    {
      if !FlightRecord(y.flight, o) {
        assert !Gone(y, o);
      }
    }
  }

  lemma FailIds(y: System)
    requires IdsOk(y) && RollbackReady(y)
    ensures IdsOk(Exec(y, DoFail))
  {
    hide IdsOk, Rollback, PriorNew, PriorOther, CapturedNew;
    var c, z := y.flight.value, Exec(y, DoFail);
    RollbackMembers(y.store, c);
    RollbackLives(y.store, c);
    RollbackFrame(y.store, c);
    assert z.store == Rollback(y.store, c) && z.backend == y.backend && z.flight.None?;
    assert forall o :: o in c.deletes ==> FlightDelete(y.flight, o);
    hide RollbackReady, Exec;
    FailIdsFrom(y, z);
  }

  lemma RollbackFrame(s: StoreState, c: Capture)
    ensures Rollback(s, c).nextOid == s.nextOid && Rollback(s, c).root == s.root
  {
  }

  lemma FailIdsFrom(y: System, z: System)
    requires IdsOk(y) && y.flight.Some? && z.flight.None? && z.backend == y.backend == y.base
    requires z.store.nextOid == y.store.nextOid && z.store.root == y.store.root && z.store.live.Keys == y.store.live.Keys
    requires forall o :: o in z.store.deleted ==> o in y.store.deleted || FlightDelete(y.flight, o)
    requires forall o: Oid :: o in z.store.inserts ==> o in y.store.inserts || o >= y.base.meta.nextOid
    ensures IdsOk(z)
  {
    hide FlightDelete, FlightRecord;
  }

  // P3 ---------------------------------------------------------------------------

  lemma P3Keeps(y: System)
    requires Inv(y) && Enabled(y, DoP3)
    ensures Inv(Exec(y, DoP3))
  {
    var z := y.(store := P3(y.store, y.flight.value), flight := None);
    P3Memory(y);
    P3Settles(y);
    P3Consumer(y);
    assert Exec(y, DoP3) == z.(applier := Exec(y, DoP3).applier, watched := Exec(y, DoP3).watched);
    hide MemoryOk, TypesOk, TidsOk, ConsumerOk, P3, Deliver, Exec;
    DeliveryFrame(z, Exec(y, DoP3).applier, Exec(y, DoP3).watched);
    InvFromParts(Exec(y, DoP3));
  }

  lemma InvFromParts(y: System)
    requires MemoryOk(y) && TypesOk(y) && TidsOk(y) && FlightOk(y) && ConsumerOk(y)
    ensures Inv(y)
  {
  }

  lemma P3Settles(y: System)
    requires TypesOk(y) && TidsOk(y) && FlightOk(y) && Enabled(y, DoP3)
    ensures var z := y.(store := P3(y.store, y.flight.value), flight := None); TypesOk(z) && TidsOk(z) && FlightOk(z)
  {
    hide PutAll, SetLife, FlipsOk;
    var c := y.flight.value;
    assert CidsOf(y.base.types + c.batch.newTypes) == CidsOf(y.base.types) + CidsOf(c.batch.newTypes);
  }

  /** Between commits the memory of the store does not look at the consumer. */
  lemma DeliveryFrame(z: System, a: ApplierState, watched: bool)
    requires z.flight.None? && MemoryOk(z) && TypesOk(z) && TidsOk(z)
    ensures var w := z.(applier := a, watched := watched); MemoryOk(w) && TypesOk(w) && TidsOk(w) && FlightOk(w)
  {
    var w := z.(applier := a, watched := watched);
    assert Target(w) == Target(z);
    assert forall o :: Gone(w, o) <==> Gone(z, o);
    hide Target, Gone;
  }

  /** Exactly one consumer mirrors a backend. */
  lemma MirrorsIsImage(a: ApplierState, b: BackendState)
    requires b.meta.nextTid >= 1
    ensures Mirrors(a, b) <==> a == Image(b)
  {
    hide Payloads, AddTypes;
  }

  /** A finalized commit's delta moves a consumer that is up to date and detaches one that is behind; a
      commit without a delta leaves the consumer where it was. */
  lemma P3Consumer(y: System)
    requires FlightOk(y) && ConsumerOk(y) && TidsOk(y) && Enabled(y, DoP3)
    ensures ConsumerOk(Exec(y, DoP3))
    ensures y.flight.value.delta.Some? ==> (Exec(y, DoP3).watched <==> UpToDate(y)) && (UpToDate(y) ==> UpToDate(Exec(y, DoP3)))
    ensures y.flight.value.delta.None? ==> Exec(y, DoP3).applier == y.applier && Exec(y, DoP3).watched == y.watched
    ensures Exec(y, DoP3).store.lastTid == y.store.lastTid + 1
  {
    if UpToDate(y) {
      MirrorsIsImage(y.applier, y.base);
    }
    hide FoldOps, AddTypes, Payloads, RecordsOf, RemovalsOf, BatchShaped, FlipsOk, Image;
  }

  lemma P3Memory(y: System)
    requires MemoryOk(y) && FlightOk(y) && Enabled(y, DoP3)
    ensures MemoryOk(y.(store := P3(y.store, y.flight.value), flight := None))
  {
    P3Buffers(y);
    P3Values(y);
    assert IdsOk(y.(store := P3(y.store, y.flight.value), flight := None));
  }

  lemma P3Buffers(y: System)
    requires BuffersOk(y) && Enabled(y, DoP3)
    requires var c := y.flight.value; c.deletes == c.batch.deletes && DistinctOids(c.batch.records)
    requires var c := y.flight.value; OidsOf(c.batch.records) !! ToSet(c.deletes)
    requires y.backend == ApplyBatch(y.base, y.flight.value.batch)
    ensures BuffersOk(y.(store := P3(y.store, y.flight.value), flight := None))
  {
    hide PutAll;
    PutAllLookup(y.base.objects, y.flight.value.batch.records);
    var z := y.(store := P3(y.store, y.flight.value), flight := None);
    forall o | Persisted(z, o)
      ensures o in z.backend.objects
    {
      assert Persisted(y, o) && o !in ToSet(y.flight.value.deletes);
    }
  }

  lemma P3Values(y: System)
    requires ValuesOk(y) && FlightOk(y) && Enabled(y, DoP3)
    ensures ValuesOk(y.(store := P3(y.store, y.flight.value), flight := None))
  {
    var c := y.flight.value;
    var z := y.(store := P3(y.store, c), flight := None);
    forall o | o in z.store.live && !Gone(z, o)
      ensures z.store.live[o].life == Clean ==> InSync(z, o)
      ensures z.store.live[o].life == New ==> o in z.store.inserts
      ensures z.store.live[o].life == Dirty ==> o in z.store.dirty
    {
      assert o !in ToSet(c.deletes);
      assert !Gone(y, o);
      TargetIsDurable(y, o);
    }
  }

  /** Once the batch is applied, what a surviving entity's record will say is what it says. */
  lemma TargetIsDurable(y: System, o: Oid)
    requires FlightOk(y) && Enabled(y, DoP3) && !FlightDelete(y.flight, o)
    ensures o in Target(y) <==> o in y.backend.objects
    ensures o in Target(y) ==> Target(y)[o] == y.backend.objects[o]
  {
    var recs := y.flight.value.batch.records;
    PutAllLookup(y.base.objects, recs);
    PutAllLookup(y.backend.objects, recs);
    if o in OidsOf(recs) {
      var r :| r in recs && r.oid == o;
      var i :| 0 <= i < |recs| && recs[i] == r;
      assert Target(y)[o] == recs[i] == y.backend.objects[o];
    }
  }

  // Restart ------------------------------------------------------------------------

  lemma {:induction false} BootLineageFacts(rows: seq<TypeRow>, nextCid: nat)
    requires DistinctRows(rows)
    requires forall i :: 0 <= i < |rows| ==> rows[i].cid < nextCid
    ensures var l := BootLineage(rows, nextCid);
            LineageOk(l) && l.durable == CidsOf(rows) == l.shapeOf.Keys && l.nextCid == nextCid && RowsKnown(l, rows, nextCid)
  {
    if rows != [] {
      var front, last := rows[..|rows| - 1], rows[|rows| - 1];
      assert rows == front + [last];
      forall i | 0 <= i < |front|
        ensures front[i].cid < nextCid && front[i].cid != last.cid
      {
        assert front[i] == rows[i] && last == rows[|front|];
      }
      assert DistinctRows(front) by {
        forall i, j | 0 <= i < j < |front| ensures front[i].cid != front[j].cid {
          assert front[i] == rows[i] && front[j] == rows[j];
        }
      }
      BootLineageFacts(front, nextCid);
      assert last == rows[|rows| - 1] && last.cid < nextCid;
      var l0, l := BootLineage(front, nextCid), BootLineage(rows, nextCid);
      assert l == l0.(latest := l0.latest[last.shape.typename := last.cid], shapeOf := l0.shapeOf[last.cid := last.shape],
                      durable := l0.durable + {last.cid});
      hide BootLineage, DistinctRows;
      OneMoreRow(l0, l, front, last, nextCid);
    }
  }

  lemma OneMoreRow(l0: Lineage, l: Lineage, front: seq<TypeRow>, last: TypeRow, nextCid: nat)
    requires LineageOk(l0) && l0.durable == CidsOf(front) == l0.shapeOf.Keys && l0.nextCid == nextCid && RowsKnown(l0, front, nextCid)
    requires last.cid < nextCid && forall i :: 0 <= i < |front| ==> front[i].cid != last.cid
    requires l == l0.(latest := l0.latest[last.shape.typename := last.cid], shapeOf := l0.shapeOf[last.cid := last.shape],
                      durable := l0.durable + {last.cid})
    ensures var rows := front + [last];
      LineageOk(l) && l.durable == CidsOf(rows) == l.shapeOf.Keys && l.nextCid == nextCid && RowsKnown(l, rows, nextCid)
  {
    assert forall r :: r in front + [last] <==> r in front || r == last;
    assert CidsOf(front + [last]) == CidsOf(front) + {last.cid};
  }

  lemma RestartKeeps(y: System)
    requires Inv(y)
    ensures Inv(Exec(y, DoRestart))
  {
    RestartMemory(y);
    RestartTypes(y);
    RestartConsumer(y);
    RestartTids(y);
    hide MemoryOk, TypesOk, TidsOk, FlightOk, ConsumerOk, Exec;
    InvFromParts(Exec(y, DoRestart));
  }

  lemma RestartTids(y: System)
    requires TidsOk(y)
    ensures TidsOk(Exec(y, DoRestart)) && FlightOk(Exec(y, DoRestart))
  {
    hide BootLineage;
  }

  lemma DiscardKeeps(y: System)
    requires Inv(y) && Enabled(y, DoDiscard)
    ensures Inv(Exec(y, DoDiscard))
  {
    DiscardMemory(y);
    DiscardTypes(y);
    hide BuffersOk, ValuesOk, IdsOk, TypesOk, Boot, Mirrors;
    var z := Exec(y, DoDiscard);
    BootTids(y.backend);
    assert TidsOk(z) && FlightOk(z) && ConsumerOk(z);
  }

  lemma BootTids(b: BackendState)
    requires b.meta.nextTid >= 1
    ensures Boot(b).nextTid == b.meta.nextTid && Boot(b).lastTid == b.meta.nextTid - 1
  {
  }

  lemma DiscardMemory(y: System)
    requires IdsOk(y) && y.flight.None?
    ensures MemoryOk(Exec(y, DoDiscard))
  {
    hide BootLineage;
  }

  lemma DiscardTypes(y: System)
    requires TypesOk(y) && y.flight.None?
    ensures TypesOk(Exec(y, DoDiscard))
  {
    BootLineageFacts(y.backend.types, y.backend.meta.nextCid);
  }

  lemma RestartMemory(y: System)
    requires IdsOk(y)
    ensures MemoryOk(Exec(y, DoRestart))
  {
  }

  lemma RestartTypes(y: System)
    requires TypesOk(y)
    ensures TypesOk(Exec(y, DoRestart))
  {
    BootLineageFacts(y.backend.types, y.backend.meta.nextCid);
  }

  lemma RestartConsumer(y: System)
    requires ConsumerOk(y) && FlightOk(y) && TidsOk(y)
    ensures ConsumerOk(Exec(y, DoRestart))
  {
  }

  /** Attaching and detaching leave the store alone. */
  lemma ConsumerStepsKeep(y: System, step: Step)
    requires Inv(y) && Enabled(y, step) && (step.DoAttach? || step == DoDetach)
    ensures Inv(Exec(y, step))
  {
    var z := Exec(y, step);
    assert z == y.(applier := z.applier, watched := z.watched);
    WatchFrame(y, z.applier, z.watched);
    assert ConsumerOk(z) by {
      assert DeltaFits(z);
    }
    hide MemoryOk, TypesOk, TidsOk, FlightOk, ConsumerOk;
    InvFromParts(z);
  }

  lemma WatchFrame(y: System, a: ApplierState, watched: bool)
    requires Inv(y)
    ensures var z := y.(applier := a, watched := watched); MemoryOk(z) && TypesOk(z) && TidsOk(z) && FlightOk(z)
  {
    var z := y.(applier := a, watched := watched);
    assert MemoryOk(y) && TypesOk(z) && TidsOk(z) && FlightOk(z);
    hide Inv, TypesOk, TidsOk, FlightOk;
    WatchMemory(y, z);
  }

  lemma WatchMemory(y: System, z: System)
    requires MemoryOk(y) && z.store == y.store && z.backend == y.backend && z.base == y.base && z.flight == y.flight
    ensures MemoryOk(z)
  {
    assert Target(z) == Target(y) && Finalized(z) == Finalized(y);
    assert forall o :: Gone(z, o) <==> Gone(y, o);
    assert forall o :: Persisted(z, o) <==> Persisted(y, o);
    assert IdsOk(z);
    hide Target, Gone, Persisted, IdsOk, NoDup, FlightRecord, FlightDelete, Finalized;
  }

  // P1 -------------------------------------------------------------------------

  lemma PendingMembers(s: StoreState)
    ensures forall o :: o in Pending(s) <==> (o in s.inserts || o in s.dirty) && o !in s.deleted
    ensures NoDup(s.inserts) ==> NoDup(Pending(s))
  {
  }

  /** Every later lineage still knows what an earlier one knew. */
  ghost predicate Extends(l: Lineage, l': Lineage) {
    && LineageOk(l') && l'.durable == l.durable && l.nextCid <= l'.nextCid
    && forall c :: c in l.shapeOf ==> c in l'.shapeOf && l'.shapeOf[c] == l.shapeOf[c]
  }

  /** The types rows a batch carries: one per class id, none already durable, shapes as allocated. */
  ghost predicate RowsOk(l: Lineage, rows: seq<TypeRow>) {
    && DistinctRows(rows)
    && RowsKnown(l, rows, l.nextCid)
    && forall i :: 0 <= i < |rows| ==> rows[i].cid !in l.durable
  }

  /** Each encoded record carries its entity's bytes under a class id that is durable or in the rows,
      and whose shape is the entity's. */
  ghost predicate RecordsOk(e: Encoded, live: map<Oid, Entity>, oids: seq<Oid>)
    requires forall o :: o in oids ==> o in live
  {
    && |e.records| == |oids|
    && forall i :: 0 <= i < |oids| ==>
         var (o, c, bytes) := e.records[i];
         && oids[i] in oids && o == oids[i] && live[o].value == Value(bytes, true)
         && c in e.lineage.durable + CidsOf(e.rows)
         && c in e.lineage.shapeOf && e.lineage.shapeOf[c] == live[o].shape
  }

  lemma CidForOk(l: Lineage, shape: Shape)
    requires LineageOk(l)
    ensures var (l', c) := CidFor(l, shape); Extends(l, l') && c in l'.shapeOf && l'.shapeOf[c] == shape
  {
  }

  lemma AddRowOk(l: Lineage, rows: seq<TypeRow>, c: Cid, shape: Shape)
    requires LineageOk(l) && RowsOk(l, rows) && c in l.shapeOf && l.shapeOf[c] == shape
    ensures var rows' := AddRow(rows, l.durable, c, shape);
            RowsOk(l, rows') && c in l.durable + CidsOf(rows') && CidsOf(rows) <= CidsOf(rows')
  {
    var rows' := AddRow(rows, l.durable, c, shape);
    if rows' != rows {
      assert rows'[|rows|] == TypeRow(c, shape) && TypeRow(c, shape) in rows';
    } else if c !in l.durable {
      var i :| 0 <= i < |rows| && rows[i].cid == c;
      assert rows[i] in rows;
    }
  }

  lemma {:induction false} EncodeOk(l: Lineage, live: map<Oid, Entity>, oids: seq<Oid>)
    requires LineageOk(l) && forall o :: o in oids ==> o in live
    ensures var e := Encode(l, live, oids);
            Extends(l, e.lineage) && RowsOk(e.lineage, e.rows) && (e.ok ==> RecordsOk(e, live, oids))
  {
    if oids != [] {
      var front, o := oids[..|oids| - 1], oids[|oids| - 1];
      assert oids == front + [o];
      EncodeOk(l, live, front);
      var d := Encode(l, live, front);
      if d.ok {
        CidForOk(d.lineage, live[o].shape);
        var (l', c) := CidFor(d.lineage, live[o].shape);
        assert RowsOk(l', d.rows);
        AddRowOk(l', d.rows, c, live[o].shape);
        var e := Encode(l, live, oids);
        if e.ok {
          forall i | 0 <= i < |oids|
            ensures oids[i] in oids
            ensures e.records[i].0 == oids[i] && live[oids[i]].value == Value(e.records[i].2, true)
            ensures e.records[i].1 in l'.durable + CidsOf(e.rows)
            ensures e.records[i].1 in l'.shapeOf && l'.shapeOf[e.records[i].1] == live[oids[i]].shape
          {
            if i < |front| {
              assert front[i] == oids[i];
            }
          }
        }
      }
    }
  }

  /** The three verdicts of P1, and the state each leaves. */
  lemma P1Cases(y: System, veto: bool, actor: nat, at: int)
    requires forall o :: o in Pending(y.store) ==> o in y.store.live
    requires y.flight.None?
    ensures var s := y.store;
      var e := Encode(s.lineage, s.live, Pending(s));
      var z := Exec(y, DoP1(veto, actor, at));
      if HoldsDeleted(s) || (Pending(s) == [] && s.deleted == []) || veto then z == y
      else if !e.ok || (y.watched && !PriorsReadable(y.backend.objects, Pending(s), s.inserts, s.deleted))
      then z == y.(store := s.(lineage := e.lineage))
      else z == AfterCapture(y, e, actor, at)
  {
    hide Encode, PriorsReadable, Pending, SetLife, MakeCapture;
  }

  lemma P1Keeps(y: System, veto: bool, actor: nat, at: int)
    requires Inv(y) && Enabled(y, DoP1(veto, actor, at))
    ensures Inv(Exec(y, DoP1(veto, actor, at)))
  {
    var e := Encode(y.store.lineage, y.store.live, Pending(y.store));
    assert LineageOk(y.store.lineage);
    EncodeOk(y.store.lineage, y.store.live, Pending(y.store));
    P1Cases(y, veto, actor, at);
    hide Inv, Exec, Encode, Pending, PriorsReadable, RecordsOk, RowsOk, Extends, AfterCapture;
    var z := Exec(y, DoP1(veto, actor, at));
    if z == y.(store := y.store.(lineage := e.lineage)) {
      P1RejectKeeps(y, e.lineage);
    } else if z != y {
      P1CaptureKeeps(y, e, actor, at);
    }
  }

  /** A rejected P1 may have allocated class ids, and nothing else. */
  lemma P1RejectKeeps(y: System, l: Lineage)
    requires Inv(y) && y.flight.None? && Extends(y.store.lineage, l)
    ensures Inv(y.(store := y.store.(lineage := l)))
  {
    var z := y.(store := y.store.(lineage := l));
    assert Target(z) == Target(y);
    assert forall o :: Gone(z, o) <==> Gone(y, o);
    assert MemoryOk(z);
  }

  /** The encode result of a successful P1, with the pending set it was made from. */
  ghost predicate Encodes(y: System, e: Encoded) {
    && y.flight.None?
    && (forall o :: o in Pending(y.store) ==> o in y.store.live)
    && !HoldsDeleted(y.store) && e.ok && Extends(y.store.lineage, e.lineage) && RowsOk(e.lineage, e.rows)
    && RecordsOk(e, y.store.live, Pending(y.store))
    && (y.watched ==> PriorsReadable(y.backend.objects, Pending(y.store), y.store.inserts, y.store.deleted))
  }

  ghost function AfterCapture(y: System, e: Encoded, actor: nat, at: int): System
    requires forall o :: o in Pending(y.store) ==> o in y.store.live
    requires y.watched ==> PriorsReadable(y.backend.objects, Pending(y.store), y.store.inserts, y.store.deleted)
  {
    var s := y.store;
    y.(store := s.(lineage := e.lineage, nextTid := s.nextTid + 1,
                   live := SetLife(s.live, ToSet(Pending(s)), Clean), inserts := [], dirty := [], deleted := []),
       flight := Some(MakeCapture(s, e, y.backend.objects, y.watched, actor, at)), applied := false, base := y.backend)
  }

  lemma P1CaptureKeeps(y: System, e: Encoded, actor: nat, at: int)
    requires Inv(y) && Encodes(y, e)
    ensures Inv(AfterCapture(y, e, actor, at))
  {
    var z := AfterCapture(y, e, actor, at);
    CapturedRecords(y, e, actor, at);
    CaptureMemory(y, e, actor, at);
    CaptureTypes(y, e, actor, at);
    assert TidsOk(z);
    CaptureFlight(y, e, actor, at);
    CaptureConsumer(y, e, actor, at);
  }

  lemma CapturedRecords(y: System, e: Encoded, actor: nat, at: int)
    requires Encodes(y, e) && BuffersOk(y)
    ensures var recs := AfterCapture(y, e, actor, at).flight.value.batch.records;
            && DistinctOids(recs) && |recs| == |Pending(y.store)|
            && (forall i :: 0 <= i < |recs| ==> recs[i].oid == Pending(y.store)[i])
            && (forall o :: o in OidsOf(recs) <==> o in Pending(y.store))
  {
    PendingMembers(y.store);
    StampedRecords(e.records, Pending(y.store), y.store.nextTid);
  }

  lemma StampedRecords(records: seq<(Oid, Cid, Bytes)>, pending: seq<Oid>, tid: Tid)
    requires |records| == |pending| && (forall i :: 0 <= i < |records| ==> records[i].0 == pending[i]) && NoDup(pending)
    ensures var recs := Stamp(records, tid);
      DistinctOids(recs) && forall o :: o in OidsOf(recs) <==> o in pending
  {
    var recs := Stamp(records, tid);
    forall o
      ensures o in OidsOf(recs) <==> o in pending
    {
      if o in pending {
        var i :| 0 <= i < |pending| && pending[i] == o;
        assert recs[i].oid == o && recs[i] in recs;
      }
    }
  }

  lemma CaptureMemory(y: System, e: Encoded, actor: nat, at: int)
    requires Encodes(y, e) && MemoryOk(y)
    ensures MemoryOk(AfterCapture(y, e, actor, at))
  {
    CaptureBuffers(y, e, actor, at);
    CaptureValues(y, e, actor, at);
    CaptureIds(y, e, actor, at);
  }

  lemma CaptureBuffers(y: System, e: Encoded, actor: nat, at: int)
    requires Encodes(y, e) && BuffersOk(y)
    ensures BuffersOk(AfterCapture(y, e, actor, at))
  {
    PendingMembers(y.store);
    CapturedRecords(y, e, actor, at);
    var z := AfterCapture(y, e, actor, at);
    forall o | Persisted(z, o)
      ensures o in z.base.objects || FlightRecord(z.flight, o)
    {
      assert o in Pending(y.store) || Persisted(y, o);
    }
    hide RecordsOk, RowsOk, Extends, Pending;
  }

  lemma CaptureIds(y: System, e: Encoded, actor: nat, at: int)
    requires Encodes(y, e) && BuffersOk(y) && IdsOk(y)
    ensures IdsOk(AfterCapture(y, e, actor, at))
  {
    CapturedRecords(y, e, actor, at);
  }

  lemma CaptureValues(y: System, e: Encoded, actor: nat, at: int)
    requires Encodes(y, e) && BuffersOk(y) && ValuesOk(y)
    ensures ValuesOk(AfterCapture(y, e, actor, at))
  {
    var z := AfterCapture(y, e, actor, at);
    var recs := z.flight.value.batch.records;
    CapturedRecords(y, e, actor, at);
    PendingMembers(y.store);
    PutAllLookup(y.backend.objects, recs);
    forall o | o in z.store.live && !Gone(z, o)
      ensures z.store.live[o].life == Clean ==> InSync(z, o)
      ensures z.store.live[o].life !in {New, Dirty}
    {
      if o in Pending(y.store) {
        var i :| 0 <= i < |recs| && Pending(y.store)[i] == o;
        assert Target(z)[o] == recs[i];
      } else {
        assert !Gone(y, o);
      }
    }
  }

  lemma CaptureTypes(y: System, e: Encoded, actor: nat, at: int)
    requires Encodes(y, e) && TypesOk(y)
    ensures TypesOk(AfterCapture(y, e, actor, at))
  {
  }

  lemma CaptureFlight(y: System, e: Encoded, actor: nat, at: int)
    requires Encodes(y, e) && BuffersOk(y) && IdsOk(y) && TypesOk(y) && TidsOk(y)
    ensures FlightOk(AfterCapture(y, e, actor, at))
  {
    var z := AfterCapture(y, e, actor, at);
    var c := z.flight.value;
    CapturedRecords(y, e, actor, at);
    CaptureFits(y, e, actor, at);
    CaptureFlips(y, e, actor, at);
    CaptureRows(y, e, actor, at);
  }

  lemma CaptureRows(y: System, e: Encoded, actor: nat, at: int)
    requires Encodes(y, e) && TypesOk(y)
    ensures DistinctRows(y.backend.types + e.rows) && RowsKnown(e.lineage, y.backend.types + e.rows, e.lineage.nextCid)
  {
    var all := y.backend.types + e.rows;
    forall i, j | 0 <= i < j < |all|
      ensures all[i].cid != all[j].cid
    {
      if i < |y.backend.types| <= j {
        assert all[i] in y.backend.types;
        assert all[j] == e.rows[j - |y.backend.types|];
      }
    }
  }

  /** Nothing deleted is pending, so an insert is new and every other one updates a durable record. */
  lemma PendingLife(y: System, o: Oid)
    requires BuffersOk(y) && IdsOk(y) && y.flight.None? && !HoldsDeleted(y.store) && o in Pending(y.store)
    ensures o in y.store.live
    ensures y.store.live[o].life == New ==> o !in y.backend.objects && o >= y.backend.meta.nextOid
    ensures y.store.live[o].life != New ==> o in y.backend.objects && o in y.store.dirty && o !in y.store.inserts
  {
    PendingMembers(y.store);
    if o in y.store.dirty {
      assert o in y.store.inserts + y.store.dirty;
      assert y.store.live[o].life == Dirty && Persisted(y, o);
    }
  }

  lemma FlipAt(y: System, e: Encoded, actor: nat, at: int, i: nat)
    requires Encodes(y, e) && i < |Pending(y.store)|
    ensures var z := AfterCapture(y, e, actor, at);
      var o := Pending(y.store)[i];
      && o in Pending(y.store) && o in y.store.live
      && |z.flight.value.flipped| == |Pending(y.store)| && z.flight.value.flipped[i] == (o, y.store.live[o].life)
      && o in z.store.live && z.store.live[o].life == Clean
  {
    assert Pending(y.store)[i] in Pending(y.store);
    hide RecordsOk, RowsOk, Extends, Pending;
  }

  lemma CaptureFlips(y: System, e: Encoded, actor: nat, at: int)
    requires Encodes(y, e) && BuffersOk(y) && IdsOk(y)
    ensures FlipsOk(AfterCapture(y, e, actor, at), AfterCapture(y, e, actor, at).flight.value)
  {
    CapturedRecords(y, e, actor, at);
    var z := AfterCapture(y, e, actor, at);
    var c := z.flight.value;
    assert |c.flipped| == |Pending(y.store)| && z.base == y.backend;
    hide AfterCapture, BuffersOk, IdsOk, HoldsDeleted, Pending, RecordsOk, RowsOk, Extends;
    forall i | 0 <= i < |c.flipped|
      ensures var (o, prior) := c.flipped[i];
        && o == c.batch.records[i].oid && (prior == New <==> o !in y.backend.objects)
        && (prior == New ==> o >= y.backend.meta.nextOid)
        && o in z.store.live && z.store.live[o].life != New
    {
      FlipAt(y, e, actor, at, i);
      PendingLife(y, Pending(y.store)[i]);
    }
  }

  lemma CaptureFits(y: System, e: Encoded, actor: nat, at: int)
    requires Encodes(y, e) && BuffersOk(y) && TypesOk(y) && TidsOk(y)
    ensures BatchShaped(y.backend, AfterCapture(y, e, actor, at).flight.value.batch)
  {
    CapturedRecords(y, e, actor, at);
    PendingMembers(y.store);
    var batch := AfterCapture(y, e, actor, at).flight.value.batch;
    CidsMatchKeys(y.backend.types + batch.newTypes);
    CidsMatchKeys(y.backend.types);
    assert CidsOf(y.backend.types + e.rows) == CidsOf(y.backend.types) + CidsOf(e.rows);
    forall i | 0 <= i < |batch.records|
      ensures batch.records[i].cid in AddTypes(map[], y.backend.types + batch.newTypes)
    {
      assert batch.records[i].cid == e.records[i].1;
    }
  }

  /** A watched P1 read every prior and tombstone it needs, so the batch fits and so do they. */
  lemma CapturePriors(y: System, e: Encoded, actor: nat, at: int)
    requires Encodes(y, e) && BuffersOk(y) && y.watched
    ensures PriorsFit(y.backend, AfterCapture(y, e, actor, at).flight.value.batch,
                      Priors(y.backend.objects, Pending(y.store), y.store.inserts), Tombstones(y.backend.objects, y.store.deleted))
    ensures ToSet(y.store.deleted) <= y.backend.objects.Keys
  {
    var batch := AfterCapture(y, e, actor, at).flight.value.batch;
    var priors := Priors(y.backend.objects, Pending(y.store), y.store.inserts);
    CapturedRecords(y, e, actor, at);
    hide AfterCapture, RecordsOk, RowsOk, Extends, Pending;
    forall i | 0 <= i < |batch.records|
      ensures var o := batch.records[i].oid;
        (o in priors <==> o in y.backend.objects) && (o in priors ==> priors[o] == y.backend.objects[o].payload)
    {
      assert batch.records[i].oid in Pending(y.store);
    }
    forall i | 0 <= i < |y.store.deleted|
      ensures y.store.deleted[i] in y.backend.objects
    {
      assert y.store.deleted[i] in y.store.deleted;
    }
  }

  lemma CaptureDelta(y: System, e: Encoded, actor: nat, at: int)
    requires Encodes(y, e) && BuffersOk(y) && y.watched
    ensures var c := AfterCapture(y, e, actor, at).flight.value;
      && c.delta == Some(BuildDelta(c.batch.tid, c.batch.records, c.batch.newTypes, c.batch.meta.root,
                                    Priors(y.backend.objects, Pending(y.store), y.store.inserts),
                                    Tombstones(y.backend.objects, y.store.deleted), actor, at))
      && c.tid == c.batch.tid && c.batch.deletes == y.store.deleted
      && forall i :: 0 <= i < |c.batch.records| ==> c.batch.records[i].tid == c.batch.tid
  {
    hide RecordsOk, RowsOk, Extends, Pending, BuffersOk, BuildDelta;
  }

  /** A delta is built exactly when somebody is attached to hear it. */
  lemma CaptureDeltaIff(y: System, e: Encoded, actor: nat, at: int)
    requires Encodes(y, e)
    ensures var z := AfterCapture(y, e, actor, at);
      && z.flight.Some? && (z.flight.value.delta.Some? <==> y.watched)
      && z.watched == y.watched && z.applier == y.applier && z.base == y.backend && z.store.lastTid == y.store.lastTid
  {
    hide RecordsOk, RowsOk, Extends, Pending, BuildDelta;
  }

  lemma CaptureConsumer(y: System, e: Encoded, actor: nat, at: int)
    requires Encodes(y, e) && BuffersOk(y) && TypesOk(y) && TidsOk(y) && ConsumerOk(y)
    ensures ConsumerOk(AfterCapture(y, e, actor, at))
  {
    CaptureDeltaIff(y, e, actor, at);
    if y.watched {
      var z := AfterCapture(y, e, actor, at);
      var batch := z.flight.value.batch;
      var priors := Priors(y.backend.objects, Pending(y.store), y.store.inserts);
      var tombstones := Tombstones(y.backend.objects, y.store.deleted);
      CaptureFits(y, e, actor, at);
      CapturePriors(y, e, actor, at);
      CaptureDelta(y, e, actor, at);
      MirrorsIsImage(Image(y.backend), y.backend);
      assert z.applier == y.applier && z.base == y.backend && z.store.lastTid == y.store.lastTid;
      hide AfterCapture, Encodes, BuffersOk, TypesOk, TidsOk, BuildDelta, Carries, ApplierStep, Mirrors, BatchShaped, ApplyBatch, Image;
      CommitDeltaAccepted(Image(y.backend), y.backend, batch, priors, tombstones, actor, at);
      BuildDeltaCarries(batch, priors, tombstones, actor, at);
    }
  }

  // ---------------------------------------------------------------- every run

  lemma DeleteStepsKeep(y: System, o: Oid)
    requires Inv(y)
    ensures Inv(Exec(y, DoDelete(o))) && Inv(Exec(y, DoDeleteByKey(o)))
  {
    hide Inv;
    if o in y.store.live || Findable(y, o) {
      DeleteKeeps(y, o);
    }
  }

  lemma StoreStepsKeep(y: System, shape: Shape, value: Value)
    requires Inv(y)
    ensures Inv(Exec(y, DoStore(shape, value))) && Inv(Exec(y, DoStoreRoot(shape, value)))
  {
    hide Inv;
    StoreKeeps(y, shape, value);
  }

  lemma DisabledStays(y: System, step: Step)
    requires !Enabled(y, step)
    ensures Exec(y, step) == y
  {
  }

  lemma StepKeeps(y: System, step: Step)
    requires Inv(y)
    ensures Inv(Exec(y, step))
  {
    hide Inv, Exec;
    if !Enabled(y, step) {
      DisabledStays(y, step);
    } else {
      match step
      case DoStore(shape, value) => StoreStepsKeep(y, shape, value);
      case DoStoreRoot(shape, value) => StoreStepsKeep(y, shape, value);
      case DoWrite(o, value) => WriteKeeps(y, o, value);
      case DoDelete(o) => DeleteStepsKeep(y, o);
      case DoDeleteByKey(o) => DeleteStepsKeep(y, o);
      case DoHydrate(o, shape) => HydrateKeeps(y, o, shape);
      case DoForget(o) => ForgetKeeps(y, o);
      case DoP1(veto, actor, at) => P1Keeps(y, veto, actor, at);
      case DoP2 => P2Keeps(y);
      case DoFail => FailKeeps(y);
      case DoP3 => P3Keeps(y);
      case DoDiscard => DiscardKeeps(y);
      case DoRestart => RestartKeeps(y);
      case DoAttach(_) => ConsumerStepsKeep(y, step);
      case DoDetach => ConsumerStepsKeep(y, step);
    }
  }

  lemma {:induction false} RunKeeps(y: System, steps: seq<Step>)
    requires Inv(y)
    ensures Inv(Run(y, steps))
  {
    if steps != [] {
      RunKeeps(y, steps[..|steps| - 1]);
      StepKeeps(Run(y, steps[..|steps| - 1]), steps[|steps| - 1]);
    }
  }

  /** The state a run of these steps ends in, from an empty store with one consumer attached. */
  ghost function After(steps: seq<Step>): System {
    Run(FRESH_SYSTEM, steps)
  }

  lemma Reached(steps: seq<Step>)
    ensures Inv(After(steps))
  {
    FreshOk();
    RunKeeps(FRESH_SYSTEM, steps);
  }

  ghost predicate Buffered(y: System, o: Oid) {
    o in y.store.inserts || o in y.store.dirty
  }

  /** The captured payload of an entity in flight. */
  ghost predicate HoldsCaptured(y: System, o: Oid) {
    && y.flight.Some? && o in y.store.live
    && exists i :: 0 <= i < |y.flight.value.batch.records| && y.flight.value.batch.records[i].oid == o
         && y.store.live[o].value == Value(y.flight.value.batch.records[i].payload, true)
  }

  ghost predicate HoldsDurable(y: System, o: Oid) {
    o in y.store.live && o in y.backend.objects && y.store.live[o].value == Value(y.backend.objects[o].payload, true)
  }

  /** No lost write. In every run, whatever races the commit in flight, each live entity that was not
      deleted is buffered, or holds what was captured of it, or holds what is durable. */
  lemma NoLostWrite(steps: seq<Step>, o: Oid)
    requires o in After(steps).store.live && !Gone(After(steps), o)
    ensures var y := After(steps);
      Buffered(y, o) || (if FlightRecord(y.flight, o) then HoldsCaptured(y, o) else HoldsDurable(y, o))
  {
    Reached(steps);
    NothingLost(After(steps), o);
  }

  lemma NothingLost(y: System, o: Oid)
    requires Inv(y) && o in y.store.live && !Gone(y, o)
    ensures Buffered(y, o) || (if FlightRecord(y.flight, o) then HoldsCaptured(y, o) else HoldsDurable(y, o))
  {
    FlightRecordsAreLive(y);
    if !Buffered(y, o) && y.flight.Some? {
      var recs := y.flight.value.batch.records;
      PutAllLookup(y.backend.objects, recs);
      if FlightRecord(y.flight, o) {
        var r :| r in recs && r.oid == o;
        var i :| 0 <= i < |recs| && recs[i] == r;
        assert Target(y)[o] == recs[i];
      }
    }
  }

  /** After a failed P2 everything captured is buffered again, a never-durable entity among the
      inserts only; the TID is reused and no value written meanwhile is touched. */
  lemma RollbackRebuffers(steps: seq<Step>)
    requires Enabled(After(steps), DoFail)
    ensures var y, z := After(steps), Exec(After(steps), DoFail);
      && (forall o :: FlightRecord(y.flight, o) ==>
            if o in y.backend.objects then o in z.store.dirty else o in z.store.inserts && o !in z.store.dirty)
      && (forall o :: FlightDelete(y.flight, o) ==> o in z.store.deleted)
      && (forall o :: Buffered(y, o) ==> Buffered(z, o))
      && z.store.nextTid == y.flight.value.tid == y.store.lastTid + 1 && z.backend == y.backend
      && z.store.live.Keys == y.store.live.Keys
      && forall o :: o in y.store.live ==> z.store.live[o].value == y.store.live[o].value
  {
    Reached(steps);
    CapturedSplit(After(steps));
    FailKeeps(After(steps));
  }

  /** TIDs survive failures: the applied ones are exactly 1, 2, ... without a gap, and between commits
      the next one to hand out is the successor of the last. */
  lemma TidsAreGapless(steps: seq<Step>)
    ensures var y := After(steps);
      && (forall i :: 0 <= i < |y.history| ==> y.history[i] == i + 1)
      && y.backend.meta.nextTid == |y.history| + 1
      && (y.flight.None? ==> y.store.lastTid == |y.history| && y.store.nextTid == y.store.lastTid + 1)
  {
    Reached(steps);
  }

  /** Every durable record's class id has exactly one durable types row, also when the first commit
      that carried the id failed, and the store knows the shape that row names. */
  lemma OneTypesRowPerRecord(steps: seq<Step>, o: Oid)
    requires o in After(steps).backend.objects
    ensures var y := After(steps);
      exists i :: 0 <= i < |y.backend.types| && y.backend.types[i].cid == y.backend.objects[o].cid
        && (forall j :: 0 <= j < |y.backend.types| && y.backend.types[j].cid == y.backend.objects[o].cid ==> j == i)
        && y.backend.types[i].cid in y.store.lineage.shapeOf
        && y.store.lineage.shapeOf[y.backend.types[i].cid] == y.backend.types[i].shape
  {
    Reached(steps);
    var y := After(steps);
    var row :| row in y.backend.types && row.cid == y.backend.objects[o].cid;
    var i :| 0 <= i < |y.backend.types| && y.backend.types[i] == row;
    assert y.backend.types[i].cid == y.backend.objects[o].cid;
  }

  /** The attached consumer has heard every commit and will hear the one in flight. */
  predicate OnTime(y: System) {
    UpToDate(y) && (y.flight.Some? ==> y.flight.value.delta.Some?)
  }

  /** Attached while a commit is in flight whose capture found nobody attached and built no delta. */
  predicate AttachedLate(y: System, step: Step) {
    step.DoAttach? && Enabled(y, step) && y.flight.Some? && y.flight.value.delta.None?
  }

  ghost predicate Timely(steps: seq<Step>) {
    forall i :: 0 <= i < |steps| ==> !AttachedLate(After(steps[..i]), steps[i])
  }

  /** The delta stream is faithful. A consumer that has heard every commit holds the backend's payloads,
      types, root and watermark, and takes every delta delivered to it. In a run without a late attach an
      attached consumer always has, and only detaching or a restart that loses a delivery takes it away. */
  lemma FaithfulDeltaStream(steps: seq<Step>)
    ensures var y := After(steps);
      && (UpToDate(y) ==> Mirrors(y.applier, Finalized(y)))
      && (OnTime(y) && Enabled(y, DoP3) ==> UpToDate(Exec(y, DoP3)) && Mirrors(Exec(y, DoP3).applier, Exec(y, DoP3).backend))
      && (Timely(steps) && y.watched ==> OnTime(y))
      && (Timely(steps) && DoRestart !in steps && DoDetach !in steps ==> y.watched)
  {
    Reached(steps);
    var y := After(steps);
    DeliveredFaithfully(y);
    hide Inv, Exec, After, Timely, Mirrors;
    if Timely(steps) {
      TimelyStays(steps);
    }
  }

  lemma DeliveredFaithfully(y: System)
    requires Inv(y)
    ensures UpToDate(y) ==> Mirrors(y.applier, Finalized(y))
    ensures OnTime(y) && Enabled(y, DoP3) ==> UpToDate(Exec(y, DoP3)) && Mirrors(Exec(y, DoP3).applier, Exec(y, DoP3).backend)
  {
    if OnTime(y) && Enabled(y, DoP3) {
      P3Consumer(y);
      P3Settled(y);
    }
    hide BuffersOk, ValuesOk, IdsOk, TypesOk, FlightOk, DeltaFits, Exec, Mirrors;
  }

  lemma P3Settled(y: System)
    requires Enabled(y, DoP3)
    ensures Exec(y, DoP3).flight.None? && Exec(y, DoP3).backend == y.backend
  {
    hide P3, ApplierStep;
  }

  lemma {:induction false} TimelyStays(steps: seq<Step>)
    requires Timely(steps)
    ensures After(steps).watched ==> OnTime(After(steps))
    ensures DoRestart !in steps && DoDetach !in steps ==> After(steps).watched
  {
    hide Inv, Exec, OnTime, AttachedLate;
    if steps == [] {
      FreshOnTime();
    } else {
      var front, step := steps[..|steps| - 1], steps[|steps| - 1];
      assert steps == front + [step];
      assert Timely(front) by {
        forall i | 0 <= i < |front| ensures !AttachedLate(After(front[..i]), front[i]) {
          assert front[..i] == steps[..i] && front[i] == steps[i];
        }
      }
      TimelyStays(front);
      Reached(front);
      assert !AttachedLate(After(steps[..|front|]), steps[|front|]);
      StepStaysOnTime(After(front), step);
    }
  }

  lemma FreshOnTime()
    ensures OnTime(FRESH_SYSTEM)
  {
  }

  /** What each step does to a consumer that is on time, or not attached. */
  lemma StepStaysOnTime(y: System, step: Step)
    requires Inv(y) && (y.watched ==> OnTime(y)) && !AttachedLate(y, step)
    ensures Exec(y, step).watched ==> OnTime(Exec(y, step))
    ensures step != DoRestart && step != DoDetach && y.watched ==> Exec(y, step).watched
  {
    if !Enabled(y, step) {
      DisabledStays(y, step);
    } else if step == DoP3 {
      P3Consumer(y);
    } else if step.DoP1? {
      P1Watch(y, step.veto, step.actor, step.at);
    } else {
      OtherWatch(y, step);
    }
  }

  /** P1 leaves the consumer alone, and a capture it makes carries a delta exactly when one is attached. */
  lemma P1Watch(y: System, veto: bool, actor: nat, at: int)
    requires Inv(y) && Enabled(y, DoP1(veto, actor, at))
    ensures var z := Exec(y, DoP1(veto, actor, at));
      && z.watched == y.watched && z.applier == y.applier && z.store.lastTid == y.store.lastTid && z.backend == y.backend
      && Finalized(z) == Finalized(y)
      && (z.flight.Some? ==> (z.flight.value.delta.Some? <==> y.watched))
  {
    var e := Encode(y.store.lineage, y.store.live, Pending(y.store));
    assert LineageOk(y.store.lineage);
    EncodeOk(y.store.lineage, y.store.live, Pending(y.store));
    P1Cases(y, veto, actor, at);
    hide Inv, Exec, Encode, Pending, PriorsReadable, RecordsOk, RowsOk, Extends;
    var z := Exec(y, DoP1(veto, actor, at));
    if z.flight.Some? {
      assert Encodes(y, e);
      CaptureDeltaIff(y, e, actor, at);
    }
  }

  lemma OtherWatch(y: System, step: Step)
    requires Inv(y) && Enabled(y, step) && step != DoP3 && !step.DoP1?
    ensures var z := Exec(y, step);
      && (step != DoRestart && step != DoDetach && !step.DoAttach? ==>
            z.watched == y.watched && z.applier == y.applier && z.store.lastTid == y.store.lastTid)
      && (z.flight.Some? ==> z.flight == y.flight)
      && (step == DoRestart ==> z.flight.None? && (z.watched ==> UpToDate(z)))
      && (step.DoAttach? ==> UpToDate(z) && z.flight == y.flight)
      && (step == DoDetach ==> !z.watched)
  {
    hide BuffersOk, ValuesOk, IdsOk, TypesOk, FlightOk, ConsumerOk, Put, Without, SetLife, PutEach, ApplyBatch, BootLineage;
  }

  /** From the start, until it is detached or the store restarted, the first consumer hears everything. */
  lemma {:induction false} StaysAttached(steps: seq<Step>)
    requires DoRestart !in steps && DoDetach !in steps
    ensures After(steps).watched && OnTime(After(steps))
  {
    hide Inv, Exec, OnTime;
    if steps == [] {
      FreshOnTime();
    } else {
      var front, step := steps[..|steps| - 1], steps[|steps| - 1];
      assert steps == front + [step];
      StaysAttached(front);
      Reached(front);
      StepStaysOnTime(After(front), step);
    }
  }
}
