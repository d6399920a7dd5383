/**
 Class ids over whole runs: while a program declares every type with one field list, each type gets one class
 id and one durable types row, through commits, failures, discards and crashes alike.
 */
module ShapeRuns {
  import opened Wire
  import opened Commit
  import opened CommitRuns

  /** The field list a program declares for each of its types. */
  type Program = map<string, Shape>

  ghost predicate Declared(program: Program, shape: Shape) {
    shape.typename in program && program[shape.typename] == shape
  }

  /** What the step stores or loads is an instance of a declared class. */
  ghost predicate Uses(program: Program, step: Step) {
    match step
    case DoStore(shape, _) => Declared(program, shape)
    case DoStoreRoot(shape, _) => Declared(program, shape)
    case DoHydrate(_, shape) => Declared(program, shape)
    case _ => true
  }

  /** Every class id is its type's latest, with the declared fields. */
  ghost predicate OneEach(l: Lineage, program: Program) {
    forall c :: c in l.shapeOf ==>
      && Declared(program, l.shapeOf[c])
      && l.shapeOf[c].typename in l.latest && l.latest[l.shapeOf[c].typename] == c
  }

  ghost predicate ShapesOk(y: System, program: Program) {
    OneEach(y.store.lineage, program) && forall o :: o in y.store.live ==> Declared(program, y.store.live[o].shape)
  }

  // ----------------------------------------------------------------- one lineage

  /** A shape that is its type's latest keeps its class id; any other takes the next one and becomes the latest.
      No other type, and no class id handed out before, is touched. */
  lemma ClassIdMeans(l: Lineage, shape: Shape)
    requires LineageOk(l)
    ensures var (m, c) := CidFor(l, shape);
      var known := shape.typename in l.latest && l.shapeOf[l.latest[shape.typename]] == shape;
      && (known ==> m == l && c == l.latest[shape.typename])
      && (!known ==> c == l.nextCid && m.nextCid == c + 1 && c !in l.shapeOf)
      && shape.typename in m.latest && m.latest[shape.typename] == c && c in m.shapeOf && m.shapeOf[c] == shape
      && (forall t :: t != shape.typename ==> (t in m.latest <==> t in l.latest) && (t in l.latest ==> m.latest[t] == l.latest[t]))
      && (forall d :: d != c ==> (d in m.shapeOf <==> d in l.shapeOf) && (d in l.shapeOf ==> m.shapeOf[d] == l.shapeOf[d]))
      && m.durable == l.durable
  {
  }

  lemma CidForKeepsOne(l: Lineage, shape: Shape, program: Program)
    requires LineageOk(l) && OneEach(l, program) && Declared(program, shape)
    ensures OneEach(CidFor(l, shape).0, program)
  {
  }

  lemma {:induction false} EncodeKeepsOne(l: Lineage, live: map<Oid, Entity>, oids: seq<Oid>, program: Program)
    requires LineageOk(l) && OneEach(l, program)
    requires forall o :: o in oids ==> o in live && Declared(program, live[o].shape)
    ensures OneEach(Encode(l, live, oids).lineage, program)
  {
    hide CidFor, AddRow, OneEach, LineageOk, RowsOk, RecordsOk;
    if oids != [] {
      var front, o := oids[..|oids| - 1], oids[|oids| - 1];
      assert oids == front + [o];
      EncodeKeepsOne(l, live, front, program);
      EncodeOk(l, live, front);
      CidForKeepsOne(Encode(l, live, front).lineage, live[o].shape, program);
    }
  }

  /** A reopened store knows no class id that was not known before, and each with the same fields. */
  ghost predicate Within(l: Lineage, known: Lineage, rows: seq<TypeRow>) {
    forall c :: c in l.shapeOf ==> c in known.shapeOf && l.shapeOf[c] == known.shapeOf[c] && exists i :: 0 <= i < |rows| && rows[i].cid == c
  }

  lemma OneMoreKnown(known: Lineage, l: Lineage, rows: seq<TypeRow>, program: Program)
    requires rows != [] && OneEach(known, program) && OneEach(l, program) && Within(l, known, rows[..|rows| - 1])
    requires DistinctRows(rows) && rows[|rows| - 1].cid in known.shapeOf && known.shapeOf[rows[|rows| - 1].cid] == rows[|rows| - 1].shape
    ensures var last := rows[|rows| - 1];
      var next := l.(latest := l.latest[last.shape.typename := last.cid], shapeOf := l.shapeOf[last.cid := last.shape],
                     durable := l.durable + {last.cid});
      OneEach(next, program) && Within(next, known, rows)
  {
    var front, n := rows[..|rows| - 1], |rows| - 1;
    hide Declared;
    forall c | c in l.shapeOf
      ensures c != rows[n].cid && exists i :: 0 <= i < |rows| && rows[i].cid == c
    {
      var i :| 0 <= i < |front| && front[i].cid == c;
      assert rows[i].cid == c;
    }
  }

  lemma {:induction false} BootIsOne(known: Lineage, rows: seq<TypeRow>, nextCid: nat, program: Program)
    requires OneEach(known, program) && DistinctRows(rows) && RowsKnown(known, rows, nextCid)
    ensures OneEach(BootLineage(rows, nextCid), program) && Within(BootLineage(rows, nextCid), known, rows)
  {
    if rows == [] {
      NothingBooted(known, nextCid, program);
    } else {
      var front := rows[..|rows| - 1];
      assert RowsKnown(known, front, nextCid) && DistinctRows(front) by {
        assert forall i :: 0 <= i < |front| ==> front[i] == rows[i];
      }
      hide OneEach, Within, DistinctRows;
      BootIsOne(known, front, nextCid, program);
      OneMoreKnown(known, BootLineage(front, nextCid), rows, program);
    }
  }

  lemma NothingBooted(known: Lineage, nextCid: nat, program: Program)
    ensures OneEach(BootLineage([], nextCid), program) && Within(BootLineage([], nextCid), known, [])
  {
  }

  /** The row is the last one of its type. */
  ghost predicate LatestOf(rows: seq<TypeRow>, i: nat, t: string)
    requires i < |rows|
  {
    rows[i].shape.typename == t && forall j :: i < j < |rows| ==> rows[j].shape.typename != t
  }

  lemma OneMoreRow(rows: seq<TypeRow>, nextCid: nat)
    ensures if rows == [] then BootLineage(rows, nextCid) == NO_LINEAGE.(nextCid := nextCid)
      else
        var l, row := BootLineage(rows[..|rows| - 1], nextCid), rows[|rows| - 1];
        BootLineage(rows, nextCid) == Lineage(l.latest[row.shape.typename := row.cid], l.shapeOf[row.cid := row.shape],
                                              l.durable + {row.cid}, l.nextCid)
  {
  }

  lemma {:induction false} ReopenedLatest(rows: seq<TypeRow>, nextCid: nat)
    ensures var l := BootLineage(rows, nextCid);
      && (forall i: nat, t :: i < |rows| && LatestOf(rows, i, t) ==> t in l.latest && l.latest[t] == rows[i].cid)
      && (forall t :: t in l.latest ==> exists i: nat :: i < |rows| && LatestOf(rows, i, t))
  {
    OneMoreRow(rows, nextCid);
    hide BootLineage;
    if rows != [] {
      var front, n := rows[..|rows| - 1], |rows| - 1;
      ReopenedLatest(front, nextCid);
      forall i: nat, t | i < |rows| && LatestOf(rows, i, t)
        ensures t in BootLineage(rows, nextCid).latest && BootLineage(rows, nextCid).latest[t] == rows[i].cid
      {
        if i < n {
          assert rows[n].shape.typename != t;
          assert LatestOf(front, i, t);
        }
      }
      forall t | t in BootLineage(rows, nextCid).latest
        ensures exists i: nat :: i < |rows| && LatestOf(rows, i, t)
      {
        if t == rows[n].shape.typename {
          assert LatestOf(rows, n, t);
        } else {
          var i: nat :| i < |front| && LatestOf(front, i, t);
          assert LatestOf(rows, i, t);
        }
      }
    }
  }

  ghost predicate HasCid(rows: seq<TypeRow>, c: Cid) {
    exists i :: 0 <= i < |rows| && rows[i].cid == c
  }

  ghost predicate KnowsRows(l: Lineage, rows: seq<TypeRow>) {
    && (forall c :: c in l.shapeOf <==> HasCid(rows, c))
    && (forall i :: 0 <= i < |rows| ==> rows[i].cid in l.shapeOf && l.shapeOf[rows[i].cid] == rows[i].shape)
  }

  lemma CidInFront(rows: seq<TypeRow>, c: Cid)
    requires rows != []
    ensures HasCid(rows, c) <==> HasCid(rows[..|rows| - 1], c) || c == rows[|rows| - 1].cid
  {
    var front := rows[..|rows| - 1];
    if HasCid(front, c) {
      var i :| 0 <= i < |front| && front[i].cid == c;
      assert rows[i].cid == c;
    }
    if HasCid(rows, c) {
      var i :| 0 <= i < |rows| && rows[i].cid == c;
      assert i < |front| ==> front[i].cid == c;
    }
  }

  lemma KnowsOneMore(shapeOf: map<Cid, Shape>, l: Lineage, rows: seq<TypeRow>)
    requires rows != [] && DistinctRows(rows) && KnowsRows(l, rows[..|rows| - 1])
    requires shapeOf == l.shapeOf[rows[|rows| - 1].cid := rows[|rows| - 1].shape]
    ensures KnowsRows(l.(shapeOf := shapeOf), rows)
  {
    hide HasCid;
    var front, n := rows[..|rows| - 1], |rows| - 1;
    forall c
      ensures c in shapeOf <==> HasCid(rows, c)
    {
      CidInFront(rows, c);
    }
    forall i | 0 <= i < |rows|
      ensures rows[i].cid in shapeOf && shapeOf[rows[i].cid] == rows[i].shape
    {
      if i < n {
        assert front[i] == rows[i] && rows[i].cid != rows[n].cid;
      }
    }
  }

  lemma {:induction false} ReopenedShapes(rows: seq<TypeRow>, nextCid: nat)
    requires DistinctRows(rows)
    ensures var l := BootLineage(rows, nextCid); l.nextCid == nextCid && l.durable == l.shapeOf.Keys && KnowsRows(l, rows)
  {
    OneMoreRow(rows, nextCid);
    if rows == [] {
      hide BootLineage;
    } else {
      var front := rows[..|rows| - 1];
      assert DistinctRows(front) by {
        assert forall i :: 0 <= i < |front| ==> front[i] == rows[i];
      }
      hide BootLineage, DistinctRows, HasCid;
      ReopenedShapes(front, nextCid);
      KnowsOneMore(BootLineage(rows, nextCid).shapeOf, BootLineage(front, nextCid), rows);
    }
  }

  /** A reopened store knows the fields of every durable class id, all of them durable, and for each type name
      the class id of the row written last. */
  lemma ReopenedTypes(rows: seq<TypeRow>, nextCid: nat)
    requires DistinctRows(rows)
    ensures var l := BootLineage(rows, nextCid);
      && l.nextCid == nextCid && l.durable == l.shapeOf.Keys && KnowsRows(l, rows)
      && (forall i: nat, t :: i < |rows| && LatestOf(rows, i, t) ==> t in l.latest && l.latest[t] == rows[i].cid)
      && (forall t :: t in l.latest ==> exists i: nat :: i < |rows| && LatestOf(rows, i, t))
  {
    ReopenedLatest(rows, nextCid);
    ReopenedShapes(rows, nextCid);
    hide BootLineage;
  }

  /** Reopening takes up the persisted counters and root, with nothing in memory and nothing buffered. */
  lemma ReopenedStore(steps: seq<Step>)
    ensures var b, s := After(steps).backend, Exec(After(steps), DoRestart).store;
      && s.live == map[] && s.inserts == s.dirty == s.deleted == [] && s.root == b.meta.root
      && s.nextOid == b.meta.nextOid && s.nextTid == b.meta.nextTid == s.lastTid + 1
      && s.lineage == BootLineage(b.types, b.meta.nextCid) && DistinctRows(b.types)
  {
    Reached(steps);
    var y := After(steps);
    assert TypesOk(y) && TidsOk(y);
    hide Inv, After, BootLineage, LineageOk;
  }

  // ----------------------------------------------------------------------- runs

  lemma SameShapes(live: map<Oid, Entity>, oids: set<Oid>, life: Life)
    ensures SetLife(live, oids, life).Keys == live.Keys
    ensures forall o :: o in live ==> SetLife(live, oids, life)[o].shape == live[o].shape
  {
  }

  lemma P1KeepsOne(y: System, veto: bool, actor: nat, at: int, program: Program)
    requires Inv(y) && ShapesOk(y, program) && Enabled(y, DoP1(veto, actor, at))
    ensures ShapesOk(Exec(y, DoP1(veto, actor, at)), program)
  {
    assert LineageOk(y.store.lineage);
    hide Inv, Exec, Encode, Pending, PriorsReadable, OneEach, MakeCapture, HoldsDeleted, SetLife, Declared;
    EncodeKeepsOne(y.store.lineage, y.store.live, Pending(y.store), program);
    P1Cases(y, veto, actor, at);
    SameShapes(y.store.live, ToSet(Pending(y.store)), Clean);
  }

  lemma BootKeepsOne(y: System, program: Program)
    requires TypesOk(y) && ShapesOk(y, program)
    ensures OneEach(Boot(y.backend).lineage, program)
  {
    BootIsOne(y.store.lineage, y.backend.types, y.backend.meta.nextCid, program);
  }

  lemma UserKeepsOne(y: System, step: Step, program: Program)
    requires ShapesOk(y, program) && Uses(program, step) && Enabled(y, step)
    requires step.DoStore? || step.DoStoreRoot? || step.DoWrite? || step.DoHydrate? || step.DoForget?
    ensures ShapesOk(Exec(y, step), program)
  {
    hide Put, OneEach, Declared;
  }

  lemma DeletesKeepOne(y: System, step: Step, program: Program)
    requires ShapesOk(y, program) && Enabled(y, step) && (step.DoDelete? || step.DoDeleteByKey?)
    ensures ShapesOk(Exec(y, step), program)
  {
    hide Put, Without, OneEach, Declared;
  }

  lemma SettledKeepsOne(y: System, step: Step, program: Program)
    requires ShapesOk(y, program) && Enabled(y, step) && step in {DoP2, DoFail, DoP3}
    ensures ShapesOk(Exec(y, step), program)
  {
    hide PutEach, Without, PriorNew, PriorOther, ApplyBatch, ApplierStep, Declared;
  }

  lemma ReopenedKeepsOne(y: System, step: Step, program: Program)
    requires TypesOk(y) && ShapesOk(y, program) && Enabled(y, step) && step in {DoDiscard, DoRestart}
    ensures ShapesOk(Exec(y, step), program)
  {
    BootKeepsOne(y, program);
    BootForgets(y.backend);
    hide TypesOk, OneEach, Boot;
  }

  lemma BootForgets(b: BackendState)
    ensures Boot(b).live == map[]
  {
  }

  lemma StepKeepsOne(y: System, step: Step, program: Program)
    requires Inv(y) && ShapesOk(y, program) && Uses(program, step)
    ensures ShapesOk(Exec(y, step), program)
  {
    assert TypesOk(y);
    hide Inv, TypesOk, Exec, Enabled, Uses, ShapesOk;
    if !Enabled(y, step) {
      DisabledStays(y, step);
    } else {
      match step
      case DoP1(veto, actor, at) => P1KeepsOne(y, veto, actor, at, program);
      case DoDelete(_) => DeletesKeepOne(y, step, program);
      case DoDeleteByKey(_) => DeletesKeepOne(y, step, program);
      case DoP2 => SettledKeepsOne(y, step, program);
      case DoFail => SettledKeepsOne(y, step, program);
      case DoP3 => SettledKeepsOne(y, step, program);
      case DoDiscard => ReopenedKeepsOne(y, step, program);
      case DoRestart => ReopenedKeepsOne(y, step, program);
      case DoAttach(_) => WatchKeepsOne(y, step, program);
      case DoDetach => WatchKeepsOne(y, step, program);
      case _ => UserKeepsOne(y, step, program);
    }
  }

  lemma WatchKeepsOne(y: System, step: Step, program: Program)
    requires ShapesOk(y, program) && Enabled(y, step) && (step.DoAttach? || step.DoDetach?)
    ensures ShapesOk(Exec(y, step), program)
  {
    hide OneEach, Declared;
  }

  lemma {:induction false} ReachedShapes(steps: seq<Step>, program: Program)
    requires forall s :: s in steps ==> Uses(program, s)
    ensures Inv(After(steps)) && ShapesOk(After(steps), program)
  {
    hide Inv, Exec, Uses;
    Reached(steps);
    if steps == [] {
      NothingShaped(program);
    } else {
      var front, step := steps[..|steps| - 1], steps[|steps| - 1];
      assert steps == front + [step];
      ReachedShapes(front, program);
      StepKeepsOne(After(front), step, program);
    }
  }

  lemma NothingShaped(program: Program)
    ensures ShapesOk(FRESH_SYSTEM, program)
  {
  }

  /** Each type has one types row in the backend, which holds its declared fields, and so all records of a
      type share one class id. */
  lemma OneClassPerType(steps: seq<Step>, program: Program)
    requires forall s :: s in steps ==> Uses(program, s)
    ensures var b := After(steps).backend;
      && (forall i :: 0 <= i < |b.types| ==> b.types[i].shape.typename in program && b.types[i].shape == program[b.types[i].shape.typename])
      && (forall i, j :: 0 <= i < |b.types| && 0 <= j < |b.types| && b.types[i].shape.typename == b.types[j].shape.typename ==> i == j)
  {
    ReachedShapes(steps, program);
    var y := After(steps);
    assert TypesOk(y);
    hide Inv, After, LineageOk;
  }
}
