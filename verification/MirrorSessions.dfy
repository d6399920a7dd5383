/**
 Sessions of a columnar mirror over the stream of a live coordinator: the mirror refuses none of its deltas,
 so delivering the stream in order brings it to the end, where it shows the coordinator's records.
 */
module MirrorSessions {
  import opened Wire
  import opened Replication
  import opened Commit
  import opened CommitRuns
  import opened Follower
  import opened FollowerRuns
  import opened ArrowFold
  import opened ArrowMirrors
  import MirrorOfBackend
  import MirrorRuns

  // ------------------------------------------------------------- what is taken

  ghost predicate Mirrors(only: Option<set<string>>, typename: string) {
    only == None || exists names :: only == Some(names) && typename in names
  }

  /** An operation a mirror can read: all keys, a known kind and class, and, for a type it mirrors, the bytes
      the operation's kind needs. */
  ghost predicate Readable(op: Op, types: map<Cid, Shape>, only: Option<set<string>>) {
    && op.complete && (op.kind == Upsert || op.kind == Delete) && op.cid in types
    && (Mirrors(only, types[op.cid].typename) ==> if op.kind == Upsert then op.payload.Some? else op.prior.Some?)
  }

  lemma ReadableDecodes(op: Op, types: map<Cid, Shape>, only: Option<set<string>>)
    ensures Readable(op, types, only) <==> DecodeOp(op, types, only).Some?
  {
  }

  lemma {:induction false} AllReadable(ops: seq<Op>, types: map<Cid, Shape>, only: Option<set<string>>)
    ensures Decode(ops, types, only).Some? <==> forall i :: 0 <= i < |ops| ==> Readable(ops[i], types, only)
  {
    hide DecodeOp, Readable;
    if ops != [] {
      var front, last := ops[..|ops| - 1], ops[|ops| - 1];
      AllReadable(front, types, only);
      ReadableDecodes(last, types, only);
      assert forall i :: 0 <= i < |front| ==> front[i] == ops[i];
    }
  }

  /** The verdict of a mirror at a watermark: of well-marked deltas an older one is skipped, one further ahead
      is a gap, and the next one is taken exactly when every key is there and every operation readable under
      the type rows known by then. */
  lemma VerdictMeans(w: Tid, types: map<Cid, Shape>, d: Delta, only: Option<set<string>>)
    ensures var v, marked := Verdicts(w, types, d, only), d.marker == "datacrystal-delta" && d.version == 2;
      var whole := d.complete && forall i :: 0 <= i < |d.ops| ==> Readable(d.ops[i], AddTypes(types, d.types), only);
      && (v == Skipped <==> marked && d.tid <= w)
      && (v == GapError <==> marked && d.tid > w + 1)
      && (v == Advanced <==> marked && d.tid == w + 1 && whole)
      && (v == FormatError <==> !marked || (d.tid == w + 1 && !whole))
  {
    AllReadable(d.ops, AddTypes(types, d.types), only);
    hide Decode, Readable, AddTypes;
  }

  // ---------------------------------------------------- the deltas of a coordinator

  /** What the reference applier takes, a mirror can read. */
  lemma AcceptedIsReadable(a: ApplierState, d: Delta, only: Option<set<string>>)
    requires ApplierStep(a, d).1 == Advanced
    ensures Verdicts(a.watermark, a.types, d, only) == Advanced
    ensures ApplierStep(a, d).0.types == AddTypes(a.types, d.types) && ApplierStep(a, d).0.watermark == d.tid
  {
    var types := AddTypes(a.types, d.types);
    FoldsWhenAcceptable(a.objects, types, d.ops);
    VerdictMeans(a.watermark, a.types, d, only);
    hide FoldOps, AddTypes, HeldBefore, Verdicts;
    forall i | 0 <= i < |d.ops|
      ensures Readable(d.ops[i], types, only)
    {
      assert Acceptable(a.objects, types, d.ops, i);
    }
  }

  /** A stream that bootstraps without a refusal is one a mirror takes delta by delta. */
  lemma {:induction false} BootedIsReadable(ds: seq<Delta>, only: Option<set<string>>)
    requires FromGenesis(ds) && !Stops(BootAll(FRESH_APPLIER, FRESH_BACKEND, ds).2)
    ensures var a := BootAll(FRESH_APPLIER, FRESH_BACKEND, ds).0; a.watermark == |ds| && a.types == TypesAt(ds, |ds|)
    ensures forall w: nat :: w < |ds| ==> Verdicts(w, TypesAt(ds, w), ds[w], only) == Advanced
  {
    hide Verdicts, AddTypes, ApplierStep;
    if ds != [] {
      var front, last := ds[..|ds| - 1], ds[|ds| - 1];
      assert ds == front + [last] && [last][1..] == [];
      BootAllAppend(FRESH_APPLIER, FRESH_BACKEND, front, [last]);
      BootedIsReadable(front, only);
      var (a, b, _) := BootAll(FRESH_APPLIER, FRESH_BACKEND, front);
      TakenNext(a, last);
      AcceptedIsReadable(a, last, only);
      MirrorRuns.StreamPrefix(front, [last], |front|, only);
      forall w: nat | w < |ds|
        ensures Verdicts(w, TypesAt(ds, w), ds[w], only) == Advanced
      {
        MirrorRuns.StreamPrefix(front, [last], if w < |front| then w else |front|, only);
      }
    }
  }

  lemma TakenNext(a: ApplierState, d: Delta)
    requires d.tid == a.watermark + 1 && !Stops(ApplierStep(a, d).1)
    ensures ApplierStep(a, d).1 == Advanced
  {
    hide FoldOps, AddTypes;
  }

  /** A mirror takes every delta of a coordinator's stream that missed no commit, each when it is next. */
  lemma StreamIsTaken(steps: seq<Step>, only: Option<set<string>>)
    requires Complete(After(steps), Emitted(steps))
    ensures var ds := Emitted(steps);
      forall w: nat :: w < |ds| ==> Verdicts(w, TypesAt(ds, w), ds[w], only) == Advanced
  {
    RunFollows(steps);
    BootedIsReadable(Emitted(steps), only);
  }

  // -------------------------------------------------------------------- sessions

  /** From step `from` on, nothing crashes, and the stream past the mark there is delivered in order: delta
      `mark + n` at step `at[n]`, whatever else happens between. */
  ghost predicate DeliversRest(ss: seq<SessionStep>, from: nat, mark: nat, length: nat, at: seq<nat>) {
    && from <= |ss| && mark + |at| == length
    && (forall i :: from <= i < |ss| ==> !ss[i].Crash?)
    && (forall n :: 0 <= n < |at| ==> from <= at[n] < |ss| && ss[at[n]] == Deliver(mark + n))
    && (forall m, n :: 0 <= m < n < |at| ==> at[m] < at[n])
  }

  ghost predicate Taken(ds: seq<Delta>, only: Option<set<string>>) {
    forall w: nat :: w < |ds| ==> Verdicts(w, TypesAt(ds, w), ds[w], only) == Advanced
  }

  /** Without a crash no mark falls, and the step that delivers the next delta raises it. */
  lemma {:induction false} MarksRise(ds: seq<Delta>, ss: seq<SessionStep>, only: Option<set<string>>, marks: seq<nat>, settled: seq<nat>,
                                     i: nat, j: nat)
    requires Settles(ds, ss, only, marks, settled) && i <= j <= |ss| && forall k :: i <= k < j ==> !ss[k].Crash?
    ensures marks[i] <= marks[j]
    decreases j
  {
    hide Verdicts, TypesAt, FlushesSettle;
    if i < j {
      MarksRise(ds, ss, only, marks, settled, i, j - 1);
      assert marks[j] == MarkAfter(ds, only, marks[j - 1], ss[j - 1]);
    }
  }

  /** The delta that is next, once delivered, has been taken; a later mark has it behind it already. */
  lemma NextTaken(ds: seq<Delta>, ss: seq<SessionStep>, only: Option<set<string>>, marks: seq<nat>, settled: seq<nat>, k: nat, i: nat)
    requires Settles(ds, ss, only, marks, settled) && Taken(ds, only)
    requires k < |ss| && ss[k] == Deliver(i) && i < |ds| && marks[k] >= i
    ensures marks[k + 1] >= i + 1
  {
    hide Verdicts, TypesAt, FlushesSettle;
    assert marks[k + 1] == MarkAfter(ds, only, marks[k], ss[k]);
  }

  lemma {:induction false} Delivered(ds: seq<Delta>, ss: seq<SessionStep>, only: Option<set<string>>, marks: seq<nat>, settled: seq<nat>,
                                     from: nat, at: seq<nat>, n: nat)
    requires Settles(ds, ss, only, marks, settled) && Taken(ds, only)
    requires from <= |ss| && DeliversRest(ss, from, marks[from], |ds|, at) && n < |at|
    ensures marks[at[n] + 1] >= marks[from] + n + 1
    decreases n
  {
    hide Taken, Bounded, FlushesSettle, MarkAfter;
    if n == 0 {
      MarksRise(ds, ss, only, marks, settled, from, at[n]);
    } else {
      Delivered(ds, ss, only, marks, settled, from, at, n - 1);
      MarksRise(ds, ss, only, marks, settled, at[n - 1] + 1, at[n]);
    }
    NextTaken(ds, ss, only, marks, settled, at[n], marks[from] + n);
  }

  /** A session that ends by delivering the rest of the stream ends at the end of the stream. */
  lemma RestIsTaken(ds: seq<Delta>, ss: seq<SessionStep>, only: Option<set<string>>, marks: seq<nat>, settled: seq<nat>, from: nat, at: seq<nat>)
    requires Settles(ds, ss, only, marks, settled) && Taken(ds, only)
    requires from <= |ss| && DeliversRest(ss, from, marks[from], |ds|, at)
    ensures marks[|ss|] == |ds|
  {
    if at == [] {
      MarksRise(ds, ss, only, marks, settled, from, |ss|);
    } else {
      var n := |at| - 1;
      Delivered(ds, ss, only, marks, settled, from, at, n);
      MarksRise(ds, ss, only, marks, settled, at[n] + 1, |ss|);
    }
  }

  // ------------------------------------------------------------------ what is shown

  /** Under a type name, the rows of exactly the records of that type, when the type is mirrored: each the
      payload the coordinator holds, with the shape of the record's own type row. */
  ghost predicate ShowsRecords(rows: Rows, b: BackendState, only: Option<set<string>>, t: string) {
    && (forall o :: o in rows ==> Mirrors(only, t) && o in b.objects && StoredAs(b, o, t, rows[o]))
    && (forall o :: o in b.objects && Mirrors(only, t) && (exists i :: 0 <= i < |b.types| && TypedAs(b, o, t, i)) ==> o in rows)
  }

  ghost predicate TypedAs(b: BackendState, o: Oid, t: string, i: nat)
    requires o in b.objects && i < |b.types|
  {
    b.types[i].cid == b.objects[o].cid && b.types[i].shape.typename == t
  }

  ghost predicate StoredAs(b: BackendState, o: Oid, t: string, row: Row)
    requires o in b.objects
  {
    exists i :: 0 <= i < |b.types| && TypedAs(b, o, t, i) && row.shape == b.types[i].shape && row.payload == b.objects[o].payload
  }

  lemma {:induction false} TypeRowKnown(rows: seq<TypeRow>, i: nat)
    requires i < |rows| && forall j :: 0 <= j < |rows| && rows[j].cid == rows[i].cid ==> j == i
    ensures rows[i].cid in AddTypes(map[], rows) && AddTypes(map[], rows)[rows[i].cid] == rows[i].shape
  {
    var front, n := rows[..|rows| - 1], |rows| - 1;
    if i < n {
      assert forall j :: 0 <= j < n ==> front[j] == rows[j];
      TypeRowKnown(front, i);
      assert rows[n].cid != rows[i].cid;
    }
  }

  /** The record's one type row is what the mirror knows its class by. */
  lemma OneType(steps: seq<Step>, o: Oid) returns (i: nat)
    requires o in After(steps).backend.objects
    ensures var b := After(steps).backend; var types := AddTypes(map[], b.types);
      && i < |b.types| && b.types[i].cid == b.objects[o].cid
      && (forall j :: 0 <= j < |b.types| && b.types[j].cid == b.objects[o].cid ==> j == i)
      && b.objects[o].cid in types && types[b.objects[o].cid] == b.types[i].shape
  {
    hide After, AddTypes;
    OneTypesRowPerRecord(steps, o);
    var b := After(steps).backend;
    i :| 0 <= i < |b.types| && b.types[i].cid == b.objects[o].cid
      && (forall j :: 0 <= j < |b.types| && b.types[j].cid == b.objects[o].cid ==> j == i);
    TypeRowKnown(b.types, i);
  }

  /** Between commits, at the end of a stream that missed nothing, a read of any type shows exactly the
      coordinator's records of that type. */
  lemma MirrorShowsRecords(steps: seq<Step>, only: Option<set<string>>, t: string)
    requires Complete(After(steps), Emitted(steps)) && After(steps).flight.None?
    ensures var ds := Emitted(steps); ShowsRecords(RowsOf(PlainAt(ds, |ds|, only), t), After(steps).backend, only, t)
  {
    MirrorRuns.MirrorEqualsCoordinator(steps, only);
    hide After, Emitted, PlainAt, Complete, AddTypes;
    var b, plain := After(steps).backend, PlainAt(Emitted(steps), |Emitted(steps)|, only);
    var types, rows := AddTypes(map[], b.types), RowsOf(plain, t);
    forall o
      ensures o in rows ==> Mirrors(only, t) && o in b.objects && StoredAs(b, o, t, rows[o])
      ensures o in b.objects && Mirrors(only, t) && (exists i :: 0 <= i < |b.types| && TypedAs(b, o, t, i)) ==> o in rows
    {
      assert MirrorOfBackend.AgreesAt(plain, b, types, only, t, o);
      if o in b.objects {
        var i := OneType(steps, o);
        assert o in rows ==> TypedAs(b, o, t, i);
      }
    }
  }

  /** However a session went before, once the rest of a coordinator's stream is delivered in order a read of
      any type shows exactly the coordinator's records of that type. */
  lemma SessionShowsRecords(steps: seq<Step>, ss: seq<SessionStep>, only: Option<set<string>>, marks: seq<nat>, settled: seq<nat>,
                            from: nat, at: seq<nat>, t: string)
    requires Complete(After(steps), Emitted(steps)) && After(steps).flight.None?
    requires Settles(Emitted(steps), ss, only, marks, settled) && from <= |ss|
    requires DeliversRest(ss, from, marks[from], |Emitted(steps)|, at)
    ensures ShowsRecords(RowsOf(PlainAt(Emitted(steps), marks[|ss|], only), t), After(steps).backend, only, t)
  {
    hide After, Emitted, Verdicts, Settles, PlainAt, ShowsRecords, Complete;
    StreamIsTaken(steps, only);
    assert Taken(Emitted(steps), only);
    SessionEnds(steps, ss, only, marks, settled, from, at);
    MirrorShowsRecords(steps, only, t);
  }

  lemma SessionEnds(steps: seq<Step>, ss: seq<SessionStep>, only: Option<set<string>>, marks: seq<nat>, settled: seq<nat>, from: nat, at: seq<nat>)
    requires Settles(Emitted(steps), ss, only, marks, settled) && Taken(Emitted(steps), only) && from <= |ss|
    requires DeliversRest(ss, from, marks[from], |Emitted(steps)|, at)
    ensures |marks| == |ss| + 1 && marks[|ss|] == |Emitted(steps)|
  {
    hide Emitted, Verdicts;
    RestIsTaken(Emitted(steps), ss, only, marks, settled, from, at);
  }
}
