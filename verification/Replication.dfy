/**
 What the wire promises: a delta whose ops touch each object once and carry the
 right prior is accepted by the reference applier, and leaves it holding the
 payloads of the backend the commit was applied to.
 */
module Replication {
  import opened Wire

  function Payloads(objects: map<Oid, StoredRecord>): map<Oid, Bytes> {
    map o | o in objects :: objects[o].payload
  }

  /** The applier holds the backend's payloads, types, root and watermark. */
  predicate Mirrors(a: ApplierState, b: BackendState) {
    && a.objects == Payloads(b.objects)
    && a.types == AddTypes(map[], b.types)
    && a.root == b.meta.root
    && a.watermark + 1 == b.meta.nextTid
  }

  ghost predicate DistinctOps(ops: seq<Op>) {
    forall i, j :: 0 <= i < j < |ops| ==> ops[i].oid != ops[j].oid
  }

  ghost predicate TouchedBy(ops: seq<Op>, oid: Oid) {
    exists i :: 0 <= i < |ops| && ops[i].oid == oid
  }

  function Outcome(op: Op): Option<Bytes> {
    if op.kind == Upsert then op.payload else None
  }

  /** Ops over pairwise distinct objects are judged against the starting state, whatever their order. */
  lemma {:induction false} DistinctOpsAccepted(objects: map<Oid, Bytes>, types: map<Cid, Shape>, ops: seq<Op>)
    requires DistinctOps(ops)
    requires forall i :: 0 <= i < |ops| ==> OpOk(objects, types, ops[i])
    ensures FoldOps(objects, types, ops).1
    ensures forall i :: 0 <= i < |ops| ==> Current(FoldOps(objects, types, ops).0, ops[i].oid) == Outcome(ops[i])
    ensures forall o :: !TouchedBy(ops, o) ==> Current(FoldOps(objects, types, ops).0, o) == Current(objects, o)
  {
    if ops != [] {
      var front, op := ops[..|ops| - 1], ops[|ops| - 1];
      DistinctOpsAccepted(objects, types, front);
      var (before, ok) := FoldOps(objects, types, front);
      assert !TouchedBy(front, op.oid);
      assert Current(before, op.oid) == Current(objects, op.oid);
      assert OpOk(before, types, op);
      forall i | 0 <= i < |ops|
        ensures Current(FoldOps(objects, types, ops).0, ops[i].oid) == Outcome(ops[i])
      {
        if i < |front| {
          assert front[i] == ops[i];
        }
      }
      forall o | !TouchedBy(ops, o)
        ensures Current(FoldOps(objects, types, ops).0, o) == Current(objects, o)
      {
        assert op.oid != o;
        assert !TouchedBy(front, o) by {
          forall i | 0 <= i < |front| ensures front[i].oid != o { assert ops[i] == front[i]; }
        }
      }
    }
  }

  lemma {:induction false} AddTypesAppend(types: map<Cid, Shape>, xs: seq<TypeRow>, ys: seq<TypeRow>)
    ensures AddTypes(AddTypes(types, xs), ys) == AddTypes(types, xs + ys)
  {
    if ys == [] {
      assert xs + ys == xs;
    } else {
      AddTypesAppend(types, xs, ys[..|ys| - 1]);
      assert (xs + ys)[..|xs + ys| - 1] == xs + ys[..|ys| - 1];
    }
  }

  lemma {:induction false} AddTypesKeys(types: map<Cid, Shape>, rows: seq<TypeRow>)
    ensures forall c :: c in AddTypes(types, rows) <==> c in types || exists i :: 0 <= i < |rows| && rows[i].cid == c
  {
    if rows != [] {
      AddTypesKeys(types, rows[..|rows| - 1]);
      forall c
        ensures c in AddTypes(types, rows) <==> c in types || exists i :: 0 <= i < |rows| && rows[i].cid == c
      {
        var front := rows[..|rows| - 1];
        if exists i :: 0 <= i < |rows| && rows[i].cid == c {
          var i :| 0 <= i < |rows| && rows[i].cid == c;
          if i < |front| {
            assert front[i].cid == c;
          }
        }
      }
    }
  }

  ghost predicate DistinctDeletes(deletes: seq<Oid>) {
    forall i, j :: 0 <= i < j < |deletes| ==> deletes[i] != deletes[j]
  }

  /** A batch is well formed over a backend when it writes each object once, deletes none it writes, and
      every record's class is known. */
  ghost predicate BatchShaped(b: BackendState, batch: Batch) {
    && DistinctOids(batch.records) && DistinctDeletes(batch.deletes)
    && OidsOf(batch.records) !! ToSet(batch.deletes)
    && (forall i :: 0 <= i < |batch.records| ==> batch.records[i].cid in AddTypes(map[], b.types + batch.newTypes))
    && (forall o :: o in b.objects ==> b.objects[o].cid in AddTypes(map[], b.types))
    && batch.tid == b.meta.nextTid
    && batch.meta.nextTid == batch.tid + 1
  }

  /** It also deletes only what is stored. */
  ghost predicate BatchFits(b: BackendState, batch: Batch) {
    BatchShaped(b, batch) && ToSet(batch.deletes) <= b.objects.Keys
  }

  /** `priors` and `tombstones` are exactly what the backend holds for the touched objects. */
  ghost predicate PriorsFit(b: BackendState, batch: Batch, priors: map<Oid, Bytes>, tombstones: seq<(Oid, Cid, Bytes)>)
  {
    && (forall i :: 0 <= i < |batch.records| ==>
          var o := batch.records[i].oid;
          (o in priors <==> o in b.objects) && (o in priors ==> priors[o] == b.objects[o].payload))
    && |tombstones| == |batch.deletes|
    && (forall i :: 0 <= i < |tombstones| ==>
          batch.deletes[i] in b.objects &&
          tombstones[i] == (batch.deletes[i], b.objects[batch.deletes[i]].cid, b.objects[batch.deletes[i]].payload))
  }

  ghost predicate OpsOf(batch: Batch, priors: map<Oid, Bytes>, tombstones: seq<(Oid, Cid, Bytes)>, ops: seq<Op>) {
    && |ops| == |batch.records| + |tombstones|
    && (forall i :: 0 <= i < |batch.records| ==> ops[i] == UpsertOp(batch.records[i], priors))
    && (forall i :: |batch.records| <= i < |ops| ==> ops[i] == DeleteOp(tombstones[i - |batch.records|]))
  }

  lemma OpsAreDistinct(b: BackendState, batch: Batch, priors: map<Oid, Bytes>, tombstones: seq<(Oid, Cid, Bytes)>, ops: seq<Op>)
    requires BatchFits(b, batch) && PriorsFit(b, batch, priors, tombstones) && OpsOf(batch, priors, tombstones, ops)
    ensures DistinctOps(ops)
  {
    var n := |batch.records|;
    forall i, j | 0 <= i < j < |ops|
      ensures ops[i].oid != ops[j].oid
    {
      if i < n && n <= j {
        assert batch.records[i] in batch.records;
        assert batch.records[i].oid in OidsOf(batch.records);
        assert batch.deletes[j - n] in ToSet(batch.deletes);
      }
    }
  }

  lemma OneObjectAgrees(b: BackendState, batch: Batch, priors: map<Oid, Bytes>,
                        tombstones: seq<(Oid, Cid, Bytes)>, ops: seq<Op>, folded: map<Oid, Bytes>, o: Oid)
    requires BatchFits(b, batch) && |tombstones| == |batch.deletes| && OpsOf(batch, priors, tombstones, ops)
    requires forall i :: 0 <= i < |tombstones| ==> tombstones[i].0 == batch.deletes[i]
    requires forall i :: 0 <= i < |ops| ==> Current(folded, ops[i].oid) == Outcome(ops[i])
    requires !TouchedBy(ops, o) ==> Current(folded, o) == Current(Payloads(b.objects), o)
    ensures Current(folded, o) == Current(Payloads(ApplyBatch(b, batch).objects), o)
  {
    hide PutAll, AddTypes, BuildDelta;
    PutAllLookup(b.objects, batch.records);
    if o in OidsOf(batch.records) {
      var r :| r in batch.records && r.oid == o;
      var i :| 0 <= i < |batch.records| && batch.records[i] == r;
      assert ops[i].oid == o;
    } else if o in ToSet(batch.deletes) {
      var k :| 0 <= k < |batch.deletes| && batch.deletes[k] == o;
      assert ops[|batch.records| + k].oid == o;
    } else {
      UntouchedOids(batch, priors, tombstones, ops, o);
    }
  }

  lemma UntouchedOids(batch: Batch, priors: map<Oid, Bytes>, tombstones: seq<(Oid, Cid, Bytes)>, ops: seq<Op>, o: Oid)
    requires |tombstones| == |batch.deletes| && OpsOf(batch, priors, tombstones, ops)
    requires forall i :: 0 <= i < |tombstones| ==> tombstones[i].0 == batch.deletes[i]
    requires o !in OidsOf(batch.records) && o !in ToSet(batch.deletes)
    ensures !TouchedBy(ops, o)
  {
    forall i | 0 <= i < |ops|
      ensures ops[i].oid != o
    {
      if i < |batch.records| {
        assert batch.records[i] in batch.records;
      } else {
        assert batch.deletes[i - |batch.records|] in batch.deletes;
      }
    }
  }

  lemma SameLookupsSameMap(m: map<Oid, Bytes>, n: map<Oid, Bytes>)
    requires forall o :: Current(m, o) == Current(n, o)
    ensures m == n
  {
    forall o
      ensures o in m <==> o in n
      ensures o in m ==> m[o] == n[o]
    {
      assert Current(m, o) == Current(n, o);
    }
  }

  lemma EveryOpAccepted(a: ApplierState, b: BackendState, batch: Batch, priors: map<Oid, Bytes>,
                        tombstones: seq<(Oid, Cid, Bytes)>, ops: seq<Op>, types: map<Cid, Shape>)
    requires Mirrors(a, b) && BatchFits(b, batch) && PriorsFit(b, batch, priors, tombstones)
    requires OpsOf(batch, priors, tombstones, ops) && types == AddTypes(a.types, batch.newTypes)
    ensures forall i :: 0 <= i < |ops| ==> OpOk(a.objects, types, ops[i])
  {
    AddTypesAppend(map[], b.types, batch.newTypes);
    AddTypesKeys(a.types, batch.newTypes);
    forall i | 0 <= i < |ops|
      ensures OpOk(a.objects, types, ops[i])
    {
      if i >= |batch.records| {
        assert ops[i] == DeleteOp(tombstones[i - |batch.records|]);
      }
    }
  }

  lemma OpsFoldToBackend(a: ApplierState, b: BackendState, batch: Batch, priors: map<Oid, Bytes>,
                         tombstones: seq<(Oid, Cid, Bytes)>, ops: seq<Op>, types: map<Cid, Shape>)
    requires Mirrors(a, b) && BatchFits(b, batch) && PriorsFit(b, batch, priors, tombstones)
    requires OpsOf(batch, priors, tombstones, ops) && types == AddTypes(a.types, batch.newTypes)
    ensures FoldOps(a.objects, types, ops) == (Payloads(ApplyBatch(b, batch).objects), true)
  {
    EveryOpAccepted(a, b, batch, priors, tombstones, ops, types);
    OpsAreDistinct(b, batch, priors, tombstones, ops);
    DistinctOpsAccepted(a.objects, types, ops);
    forall o
      ensures Current(FoldOps(a.objects, types, ops).0, o) == Current(Payloads(ApplyBatch(b, batch).objects), o)
    {
      OneObjectAgrees(b, batch, priors, tombstones, ops, FoldOps(a.objects, types, ops).0, o);
    }
    SameLookupsSameMap(FoldOps(a.objects, types, ops).0, Payloads(ApplyBatch(b, batch).objects));
  }

  /** The applier accepts the delta of a fitting commit and then mirrors the backend after it. */
  lemma CommitDeltaAccepted(a: ApplierState, b: BackendState, batch: Batch,
                            priors: map<Oid, Bytes>, tombstones: seq<(Oid, Cid, Bytes)>, actor: nat, at: int)
    requires Mirrors(a, b) && BatchFits(b, batch) && PriorsFit(b, batch, priors, tombstones)
    ensures var d := BuildDelta(batch.tid, batch.records, batch.newTypes, batch.meta.root, priors, tombstones, actor, at);
            var (a', verdict) := ApplierStep(a, d);
            verdict == Advanced && Mirrors(a', ApplyBatch(b, batch))
  {
    var d := BuildDelta(batch.tid, batch.records, batch.newTypes, batch.meta.root, priors, tombstones, actor, at);
    assert OpsOf(batch, priors, tombstones, d.ops);
    var types := AddTypes(a.types, batch.newTypes);
    OpsFoldToBackend(a, b, batch, priors, tombstones, d.ops, types);
    assert ApplierStep(a, d) == (ApplierState(Payloads(ApplyBatch(b, batch).objects), types, d.root, d.tid), Advanced);
    assert types == AddTypes(map[], b.types + batch.newTypes) by {
      AddTypesAppend(map[], b.types, batch.newTypes);
    }
  }

  // ------------------------------------------------------ reading a delta back

  /** The records a delta stores, in op order. */
  function RecordsOf(ops: seq<Op>, tid: Tid): seq<StoredRecord> {
    if ops == [] then []
    else
      var rest, op := RecordsOf(ops[..|ops| - 1], tid), ops[|ops| - 1];
      if op.kind == Upsert && op.payload.Some? then rest + [StoredRecord(op.oid, op.cid, tid, op.payload.value)] else rest
  }

  /** Every op that is not an upsert removes its object. */
  function RemovalsOf(ops: seq<Op>): seq<Oid> {
    if ops == [] then []
    else
      var rest, op := RemovalsOf(ops[..|ops| - 1]), ops[|ops| - 1];
      if op.kind != Upsert then rest + [op.oid] else rest
  }

  /** The delta says exactly what the batch did. */
  ghost predicate Carries(d: Delta, batch: Batch) {
    && HeaderOk(d) && d.complete && d.tid == batch.tid && d.types == batch.newTypes && d.root == batch.meta.root
    && RecordsOf(d.ops, d.tid) == batch.records && RemovalsOf(d.ops) == batch.deletes
  }

  lemma {:induction false} UpsertsReadBack(records: seq<StoredRecord>, priors: map<Oid, Bytes>, tid: Tid)
    requires forall i :: 0 <= i < |records| ==> records[i].tid == tid
    ensures var ops := UpsertOps(records, priors);
      RecordsOf(ops, tid) == records && RemovalsOf(ops) == []
  {
    if records != [] {
      var n := |records| - 1;
      var front := records[..n];
      assert UpsertOps(records, priors)[..n] == UpsertOps(front, priors);
      UpsertsReadBack(front, priors, tid);
      assert records == front + [records[n]];
    }
  }

  lemma {:induction false} DeletesReadBack(ups: seq<Op>, tombstones: seq<(Oid, Cid, Bytes)>, deletes: seq<Oid>, tid: Tid)
    requires |tombstones| == |deletes| && forall i :: 0 <= i < |deletes| ==> tombstones[i].0 == deletes[i]
    ensures var ops := ups + DeleteOps(tombstones);
      RecordsOf(ops, tid) == RecordsOf(ups, tid) && RemovalsOf(ops) == RemovalsOf(ups) + deletes
  {
    var ops := ups + DeleteOps(tombstones);
    if tombstones == [] {
      assert ops == ups;
    } else {
      var n := |tombstones| - 1;
      var front := tombstones[..n];
      assert ops[..|ops| - 1] == ups + DeleteOps(front);
      DeletesReadBack(ups, front, deletes[..n], tid);
      assert deletes == deletes[..n] + [deletes[n]];
      assert RemovalsOf(ups) + deletes[..n] + [deletes[n]] == RemovalsOf(ups) + deletes;
    }
  }

  lemma BuildDeltaCarries(batch: Batch, priors: map<Oid, Bytes>, tombstones: seq<(Oid, Cid, Bytes)>, actor: nat, at: int)
    requires forall i :: 0 <= i < |batch.records| ==> batch.records[i].tid == batch.tid
    requires |tombstones| == |batch.deletes| && forall i :: 0 <= i < |batch.deletes| ==> tombstones[i].0 == batch.deletes[i]
    ensures Carries(BuildDelta(batch.tid, batch.records, batch.newTypes, batch.meta.root, priors, tombstones, actor, at), batch)
  {
    UpsertsReadBack(batch.records, priors, batch.tid);
    DeletesReadBack(UpsertOps(batch.records, priors), tombstones, batch.deletes, batch.tid);
    assert [] + batch.deletes == batch.deletes;
  }
}
