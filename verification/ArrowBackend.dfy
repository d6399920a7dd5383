/**
 The columnar mirror against the backend: the delta of a commit moves the plain rows to what the
 backend holds after it, type by type.
 */
module MirrorOfBackend {
  import opened Wire
  import opened Replication
  import opened ArrowFold

  function Lookup(plain: map<string, Rows>, t: string, o: Oid): Option<Row> {
    if o in RowsOf(plain, t) then Some(RowsOf(plain, t)[o]) else None
  }

  /** The row of `o` in type `t`, as the backend stores it. */
  function BackendRow(b: BackendState, types: map<Cid, Shape>, only: Option<set<string>>, t: string, o: Oid): Option<Row> {
    if o in b.objects && b.objects[o].cid in types && types[b.objects[o].cid].typename == t && Covers(only, t)
    then Some(Row(types[b.objects[o].cid], b.objects[o].payload))
    else None
  }

  ghost predicate Agrees(plain: map<string, Rows>, b: BackendState, types: map<Cid, Shape>, only: Option<set<string>>) {
    forall t, o :: AgreesAt(plain, b, types, only, t, o)
  }

  ghost predicate AgreesAt(plain: map<string, Rows>, b: BackendState, types: map<Cid, Shape>, only: Option<set<string>>, t: string, o: Oid) {
    Lookup(plain, t, o) == BackendRow(b, types, only, t, o)
  }

  // ------------------------------------------------------- what a delta does

  /** What the wire operation makes of its object's row. */
  function RowOfOp(op: Op, types: map<Cid, Shape>): Option<Row>
    requires op.cid in types
  {
    if op.kind.Delete? || op.payload.None? then None else Some(Row(types[op.cid], op.payload.value))
  }

  lemma {:induction false} DecodeSucceeds(ops: seq<Op>, types: map<Cid, Shape>, only: Option<set<string>>)
    requires forall i :: 0 <= i < |ops| ==> DecodeOp(ops[i], types, only).Some?
    ensures Decode(ops, types, only).Some?
  {
    hide DecodeOp;
    if ops != [] {
      var front := ops[..|ops| - 1];
      assert forall i :: 0 <= i < |front| ==> front[i] == ops[i];
      DecodeSucceeds(front, types, only);
    }
  }

  lemma {:induction false} StepsAppend(plain: map<string, Rows>, a: seq<MirrorOp>, b: seq<MirrorOp>)
    requires |b| <= 1
    ensures PlainSteps(plain, a + b) == if b == [] then PlainSteps(plain, a) else PlainStep(PlainSteps(plain, a), b[0])
  {
    hide PlainStep;
    if b == [] {
      assert a + b == a;
    } else {
      assert (a + b)[..|a + b| - 1] == a && (a + b)[|a|] == b[0];
    }
  }

  lemma StepLookup(plain: map<string, Rows>, op: MirrorOp, t: string, o: Oid)
    ensures Lookup(PlainStep(plain, op), t, o) == if op.typename == t && op.oid == o then op.row else Lookup(plain, t, o)
  {
  }

  /** The last operation on the object decides, in its own type and only there. */
  function Effect(op: Op, types: map<Cid, Shape>, only: Option<set<string>>, t: string, before: Option<Row>): Option<Row> {
    if op.cid in types && types[op.cid].typename == t && Covers(only, t) then RowOfOp(op, types) else before
  }

  lemma OneOpLookup(plain: map<string, Rows>, done: seq<MirrorOp>, op: Op, types: map<Cid, Shape>, only: Option<set<string>>, t: string, o: Oid)
    requires DecodeOp(op, types, only).Some?
    ensures var after := PlainSteps(plain, done + DecodeOp(op, types, only).value);
      Lookup(after, t, o) == if op.oid == o then Effect(op, types, only, t, Lookup(PlainSteps(plain, done), t, o))
                             else Lookup(PlainSteps(plain, done), t, o)
  {
    var one := DecodeOp(op, types, only).value;
    StepsAppend(plain, done, one);
    hide PlainSteps, PlainStep, Lookup;
    if one != [] {
      StepLookup(PlainSteps(plain, done), one[0], t, o);
    }
  }

  lemma {:induction false} DeltaLookup(plain: map<string, Rows>, ops: seq<Op>, types: map<Cid, Shape>, only: Option<set<string>>, t: string, o: Oid)
    requires DistinctOps(ops) && forall i :: 0 <= i < |ops| ==> DecodeOp(ops[i], types, only).Some?
    ensures Decode(ops, types, only).Some?
    ensures var after := PlainSteps(plain, Decode(ops, types, only).value);
      && (!TouchedBy(ops, o) ==> Lookup(after, t, o) == Lookup(plain, t, o))
      && (forall i :: 0 <= i < |ops| && ops[i].oid == o ==> Lookup(after, t, o) == Effect(ops[i], types, only, t, Lookup(plain, t, o)))
  {
    hide DecodeOp, Effect, Lookup;
    DecodeSucceeds(ops, types, only);
    if ops != [] {
      var front, op := ops[..|ops| - 1], ops[|ops| - 1];
      assert forall i :: 0 <= i < |front| ==> front[i] == ops[i];
      DeltaLookup(plain, front, types, only, t, o);
      OneOpLookup(plain, Decode(front, types, only).value, op, types, only, t, o);
      assert op.oid == o ==> !TouchedBy(front, o);
      assert !TouchedBy(ops, o) ==> op.oid != o && !TouchedBy(front, o) by {
        if i :| 0 <= i < |front| && front[i].oid == o {
          assert ops[i].oid == o;
        }
      }
    }
  }

  // --------------------------------------------------------- against the backend

  /** The commit stores a mirrored record under another type name than the one it was stored under. */
  ghost predicate ChangesType(b: BackendState, batch: Batch, types: map<Cid, Shape>, only: Option<set<string>>, i: nat)
    requires i < |batch.records|
  {
    var rec := batch.records[i];
    && rec.oid in b.objects && rec.cid in types && b.objects[rec.oid].cid in types
    && types[b.objects[rec.oid].cid].typename != types[rec.cid].typename
    && Covers(only, types[b.objects[rec.oid].cid].typename)
  }

  /** `o` was stored as a `t` and is not one any more. */
  ghost predicate RenamedFrom(b: BackendState, batch: Batch, types: map<Cid, Shape>, only: Option<set<string>>, t: string, o: Oid) {
    exists i :: 0 <= i < |batch.records| && batch.records[i].oid == o && RenamesFrom(b, batch, types, only, t, i)
  }

  ghost predicate RenamesFrom(b: BackendState, batch: Batch, types: map<Cid, Shape>, only: Option<set<string>>, t: string, i: nat)
    requires i < |batch.records|
  {
    ChangesType(b, batch, types, only, i) && types[b.objects[batch.records[i].oid].cid].typename == t
  }

  /** The type rows after the commit rename nothing that is already known. */
  ghost predicate Keeps(known: map<Cid, Shape>, types: map<Cid, Shape>) {
    forall c :: c in known ==> c in types && types[c] == known[c]
  }

  ghost predicate Mirrored(plain: map<string, Rows>, b: BackendState, batch: Batch, before: map<Cid, Shape>, types: map<Cid, Shape>,
                           only: Option<set<string>>, priors: map<Oid, Bytes>, tombstones: seq<(Oid, Cid, Bytes)>) {
    && Agrees(plain, b, before, only) && BatchFits(b, batch) && PriorsFit(b, batch, priors, tombstones)
    && before == AddTypes(map[], b.types) && types == AddTypes(before, batch.newTypes) && Keeps(before, types)
  }

  lemma OpsDecode(b: BackendState, batch: Batch, types: map<Cid, Shape>, only: Option<set<string>>,
                  priors: map<Oid, Bytes>, tombstones: seq<(Oid, Cid, Bytes)>, ops: seq<Op>)
    requires BatchFits(b, batch) && PriorsFit(b, batch, priors, tombstones) && OpsOf(batch, priors, tombstones, ops)
    requires types == AddTypes(map[], b.types + batch.newTypes) && Keeps(AddTypes(map[], b.types), types)
    ensures forall i :: 0 <= i < |ops| ==> DecodeOp(ops[i], types, only).Some?
  {
    hide AddTypes;
    forall i | 0 <= i < |ops|
      ensures DecodeOp(ops[i], types, only).Some?
    {
      if i >= |batch.records| {
        assert ops[i] == DeleteOp(tombstones[i - |batch.records|]);
      }
    }
  }

  /** A touched object's row after the delta, told from the batch. */
  lemma RecordAgrees(plain: map<string, Rows>, b: BackendState, batch: Batch, before: map<Cid, Shape>, types: map<Cid, Shape>,
                     only: Option<set<string>>, priors: map<Oid, Bytes>, i: nat, t: string)
    requires i < |batch.records| && batch.records[i].cid in types && DistinctOids(batch.records)
    requires OidsOf(batch.records) !! ToSet(batch.deletes) && Keeps(before, types)
    requires AgreesAt(plain, b, before, only, t, batch.records[i].oid)
    requires batch.records[i].oid in b.objects ==> b.objects[batch.records[i].oid].cid in before
    ensures var rec := batch.records[i];
      Effect(UpsertOp(rec, priors), types, only, t, Lookup(plain, t, rec.oid)) == BackendRow(ApplyBatch(b, batch), types, only, t, rec.oid)
      <==> !(ChangesType(b, batch, types, only, i) && types[b.objects[rec.oid].cid].typename == t)
  {
    hide Lookup;
    var rec := batch.records[i];
    PutAllLookup(b.objects, batch.records);
    assert rec.oid in OidsOf(batch.records);
    assert rec.oid in ApplyBatch(b, batch).objects && ApplyBatch(b, batch).objects[rec.oid] == rec;
  }

  lemma TombstoneAgrees(plain: map<string, Rows>, b: BackendState, batch: Batch, before: map<Cid, Shape>, types: map<Cid, Shape>,
                        only: Option<set<string>>, o: Oid, t: string)
    requires o in batch.deletes && o in b.objects && b.objects[o].cid in before && Keeps(before, types)
    requires AgreesAt(plain, b, before, only, t, o)
    ensures var op := DeleteOp((o, b.objects[o].cid, b.objects[o].payload));
      Effect(op, types, only, t, Lookup(plain, t, o)) == BackendRow(ApplyBatch(b, batch), types, only, t, o)
  {
    hide Lookup;
    assert o !in ApplyBatch(b, batch).objects;
  }

  lemma UntouchedAgrees(plain: map<string, Rows>, b: BackendState, batch: Batch, before: map<Cid, Shape>, types: map<Cid, Shape>,
                        only: Option<set<string>>, o: Oid, t: string)
    requires o !in OidsOf(batch.records) && o !in batch.deletes && DistinctOids(batch.records) && Keeps(before, types)
    requires o in b.objects ==> b.objects[o].cid in before
    requires AgreesAt(plain, b, before, only, t, o)
    ensures Lookup(plain, t, o) == BackendRow(ApplyBatch(b, batch), types, only, t, o)
  {
    hide Lookup;
    PutAllLookup(b.objects, batch.records);
    assert o in ApplyBatch(b, batch).objects <==> o in b.objects;
  }

  lemma NewTypes(b: BackendState, batch: Batch)
    ensures AddTypes(AddTypes(map[], b.types), batch.newTypes) == AddTypes(map[], b.types + batch.newTypes)
  {
    AddTypesAppend(map[], b.types, batch.newTypes);
  }

  /** The row of any object after the delta: the backend's, unless the commit renames the object's type. */
  lemma RowAfterDelta(plain: map<string, Rows>, b: BackendState, batch: Batch, before: map<Cid, Shape>, types: map<Cid, Shape>,
                      only: Option<set<string>>, priors: map<Oid, Bytes>, tombstones: seq<(Oid, Cid, Bytes)>, ops: seq<Op>, t: string, o: Oid)
    requires Mirrored(plain, b, batch, before, types, only, priors, tombstones) && OpsOf(batch, priors, tombstones, ops)
    ensures Decode(ops, types, only).Some?
    ensures AgreesAt(PlainSteps(plain, Decode(ops, types, only).value), ApplyBatch(b, batch), types, only, t, o)
      <==> !RenamedFrom(b, batch, types, only, t, o)
  {
    hide Lookup, BackendRow, Effect, Decode, DecodeOp, PlainSteps, AddTypes, ApplyBatch, ChangesType, Covers, TouchedBy, DistinctOps;
    NewTypes(b, batch);
    OpsDecode(b, batch, types, only, priors, tombstones, ops);
    OpsAreDistinct(b, batch, priors, tombstones, ops);
    DeltaLookup(plain, ops, types, only, t, o);
    assert AgreesAt(plain, b, before, only, t, o);
    if o in OidsOf(batch.records) {
      var i :| 0 <= i < |batch.records| && batch.records[i].oid == o;
      assert ops[i] == UpsertOp(batch.records[i], priors);
      RecordAgrees(plain, b, batch, before, types, only, priors, i, t);
    } else {
      if o in batch.deletes {
        var k :| 0 <= k < |batch.deletes| && batch.deletes[k] == o;
        assert ops[|batch.records| + k] == DeleteOp(tombstones[k]);
        TombstoneAgrees(plain, b, batch, before, types, only, o, t);
      } else {
        NotTouched(batch, priors, tombstones, ops, o, b);
        UntouchedAgrees(plain, b, batch, before, types, only, o, t);
      }
    }
  }

  lemma NotTouched(batch: Batch, priors: map<Oid, Bytes>, tombstones: seq<(Oid, Cid, Bytes)>, ops: seq<Op>, o: Oid, b: BackendState)
    requires OpsOf(batch, priors, tombstones, ops) && PriorsFit(b, batch, priors, tombstones)
    requires o !in OidsOf(batch.records) && o !in batch.deletes
    ensures !TouchedBy(ops, o)
  {
    forall i | 0 <= i < |ops|
      ensures ops[i].oid != o
    {
      if i < |batch.records| {
        assert ops[i].oid == batch.records[i].oid && batch.records[i].oid in OidsOf(batch.records);
      } else {
        assert ops[i] == DeleteOp(tombstones[i - |batch.records|]);
        assert batch.deletes[i - |batch.records|] in batch.deletes;
      }
    }
  }

  /** A mirror that agrees with the backend agrees again after the next commit's delta, exactly when the
      commit stores no mirrored record under a different type name. */
  lemma MirrorFollowsBackend(plain: map<string, Rows>, b: BackendState, batch: Batch, before: map<Cid, Shape>, types: map<Cid, Shape>,
                             only: Option<set<string>>, priors: map<Oid, Bytes>, tombstones: seq<(Oid, Cid, Bytes)>, actor: nat, at: int)
    requires Mirrored(plain, b, batch, before, types, only, priors, tombstones)
    ensures var d := BuildDelta(batch.tid, batch.records, batch.newTypes, batch.meta.root, priors, tombstones, actor, at);
      && Decode(d.ops, types, only).Some?
      && (Agrees(PlainSteps(plain, Decode(d.ops, types, only).value), ApplyBatch(b, batch), types, only)
          <==> forall i :: 0 <= i < |batch.records| ==> !ChangesType(b, batch, types, only, i))
  {
    hide Decode, PlainSteps, AgreesAt, ApplyBatch, ChangesType, Mirrored;
    var d := BuildDelta(batch.tid, batch.records, batch.newTypes, batch.meta.root, priors, tombstones, actor, at);
    assert OpsOf(batch, priors, tombstones, d.ops) by {
      DeltaOps(batch, priors, tombstones, actor, at);
    }
    RowAfterDelta(plain, b, batch, before, types, only, priors, tombstones, d.ops, "", 0);
    forall t, o
      ensures AgreesAt(PlainSteps(plain, Decode(d.ops, types, only).value), ApplyBatch(b, batch), types, only, t, o)
        <==> !RenamedFrom(b, batch, types, only, t, o)
    {
      RowAfterDelta(plain, b, batch, before, types, only, priors, tombstones, d.ops, t, o);
    }
    forall i | 0 <= i < |batch.records| && ChangesType(b, batch, types, only, i)
      ensures !Agrees(PlainSteps(plain, Decode(d.ops, types, only).value), ApplyBatch(b, batch), types, only)
    {
      var o := batch.records[i].oid;
      RenamedRow(b, batch, types, only, i);
      var t := types[b.objects[o].cid].typename;
      assert !AgreesAt(PlainSteps(plain, Decode(d.ops, types, only).value), ApplyBatch(b, batch), types, only, t, o);
    }
  }

  lemma RenamedRow(b: BackendState, batch: Batch, types: map<Cid, Shape>, only: Option<set<string>>, i: nat)
    requires i < |batch.records| && ChangesType(b, batch, types, only, i)
    ensures batch.records[i].oid in b.objects && b.objects[batch.records[i].oid].cid in types
  {
  }

  lemma DeltaOps(batch: Batch, priors: map<Oid, Bytes>, tombstones: seq<(Oid, Cid, Bytes)>, actor: nat, at: int)
    ensures OpsOf(batch, priors, tombstones, BuildDelta(batch.tid, batch.records, batch.newTypes, batch.meta.root, priors, tombstones, actor, at).ops)
  {
  }
}
