/**
 The follower: bootstrapping a backend from genesis through the reference applier, and catching
 up from the backend's own watermark. A delta is turned back into a commit batch whose meta is
 synthesized from high-water marks.
 */
module Follower {
  import opened Wire
  import opened Replication
  import opened Frames

  datatype Marks = Marks(maxOid: nat, maxCid: nat, root: Option<Oid>)

  function Max(a: nat, b: nat): nat {
    if a >= b then a else b
  }

  function MarkOps(m: Marks, ops: seq<Op>): Marks {
    if ops == [] then m
    else
      var n, op := MarkOps(m, ops[..|ops| - 1]), ops[|ops| - 1];
      n.(maxCid := Max(n.maxCid, op.cid), maxOid := if op.kind == Upsert then Max(n.maxOid, op.oid) else n.maxOid)
  }

  function MarkTypes(m: Marks, rows: seq<TypeRow>): Marks {
    if rows == [] then m
    else
      var n := MarkTypes(m, rows[..|rows| - 1]);
      n.(maxCid := Max(n.maxCid, rows[|rows| - 1].cid))
  }

  function MarksAfter(m: Marks, d: Delta): Marks {
    var n := MarkTypes(MarkOps(m, d.ops), d.types);
    if d.root.Some? then n.(root := d.root) else n
  }

  function BatchOf(m: Marks, d: Delta): Batch {
    var n := MarksAfter(m, d);
    Batch(d.tid, RecordsOf(d.ops, d.tid), d.types, RemovalsOf(d.ops), Meta(n.maxOid + 1, n.maxCid + 1, d.tid + 1, n.root))
  }

  /** Every upsert carries a payload, as the reference applier insists. */
  ghost predicate Shaped(d: Delta) {
    forall i :: 0 <= i < |d.ops| && d.ops[i].kind == Upsert ==> d.ops[i].payload.Some?
  }

  method DeltaToBatch(d: Delta, m: Marks) returns (batch: Batch, n: Marks)
    requires Shaped(d)
    ensures batch == BatchOf(m, d) && n == MarksAfter(m, d)
  {
    var records: seq<StoredRecord> := [];
    var deletes: seq<Oid> := [];
    n := m;
    for i := 0 to |d.ops|
      invariant records == RecordsOf(d.ops[..i], d.tid) && deletes == RemovalsOf(d.ops[..i])
      invariant n == MarkOps(m, d.ops[..i])
    {
      assert d.ops[..i + 1][..i] == d.ops[..i];
      var op := d.ops[i];
      n := n.(maxCid := Max(n.maxCid, op.cid));
      if op.kind == Upsert {
        records := records + [StoredRecord(op.oid, op.cid, d.tid, op.payload.value)];
        n := n.(maxOid := Max(n.maxOid, op.oid));
      } else {
        deletes := deletes + [op.oid];
      }
    }
    assert d.ops[..|d.ops|] == d.ops;
    for i := 0 to |d.types|
      invariant n == MarkTypes(MarkOps(m, d.ops), d.types[..i])
    {
      assert d.types[..i + 1][..i] == d.types[..i];
      n := n.(maxCid := Max(n.maxCid, d.types[i].cid));
    }
    assert d.types[..|d.types|] == d.types;
    if d.root.Some? {
      n := n.(root := d.root);
    }
    batch := Batch(d.tid, records, d.types, deletes, Meta(n.maxOid + 1, n.maxCid + 1, d.tid + 1, n.root));
  }

  // ----------------------------------------------------------------- catch-up

  function MarksOf(meta: Meta): Marks {
    Marks(if meta.nextOid > 0 then meta.nextOid - 1 else 0, if meta.nextCid > 0 then meta.nextCid - 1 else 0, meta.root)
  }

  function Watermark(b: BackendState): Tid {
    if b.meta.nextTid > 0 then b.meta.nextTid - 1 else 0
  }

  /** One delta against a follower backend that trusts its coordinator: only the header and the
      order of TIDs are checked. */
  function CatchStep(b: BackendState, d: Delta): (BackendState, Verdict) {
    if !HeaderOk(d) then (b, FormatError)
    else if d.tid <= Watermark(b) then (b, Skipped)
    else if d.tid != Watermark(b) + 1 then (b, GapError)
    else (ApplyBatch(b, BatchOf(MarksOf(b.meta), d)), Advanced)
  }

  predicate Stops(v: Verdict) {
    v == FormatError || v == GapError
  }

  function CatchAll(b: BackendState, ds: seq<Delta>): (BackendState, Verdict)
    decreases |ds|
  {
    if ds == [] then (b, Advanced)
    else
      var (c, v) := CatchStep(b, ds[0]);
      if Stops(v) then (c, v) else CatchAll(c, ds[1..])
  }

  method ApplyCatchup(backend: MemoryBackend, ds: seq<Delta>) returns (watermark: Tid, verdict: Verdict)
    requires forall i :: 0 <= i < |ds| ==> Shaped(ds[i])
    requires backend.meta.nextOid >= 1 && backend.meta.nextCid >= 1 && backend.meta.nextTid >= 1
    modifies backend
    ensures (backend.View(), verdict) == CatchAll(old(backend.View()), ds)
    ensures watermark == Watermark(backend.View())
  {
    watermark := backend.meta.nextTid - 1;
    var marks := Marks(backend.meta.nextOid - 1, backend.meta.nextCid - 1, backend.meta.root);
    for i := 0 to |ds|
      invariant CatchAll(old(backend.View()), ds) == CatchAll(backend.View(), ds[i..])
      invariant watermark == Watermark(backend.View()) && marks == MarksOf(backend.meta)
    {
      assert ds[i..][0] == ds[i] && ds[i..][1..] == ds[i + 1..];
      var d := ds[i];
      if !HeaderOk(d) {
        return watermark, FormatError;
      }
      if d.tid <= watermark {
        continue;
      }
      if d.tid != watermark + 1 {
        return watermark, GapError;
      }
      var batch, next := DeltaToBatch(d, marks);
      var _ := backend.Apply(batch, true);
      marks, watermark := next, d.tid;
    }
    assert ds[|ds|..] == [];
    verdict := Advanced;
  }

  // ---------------------------------------------------------------- bootstrap

  function BootStep(a: ApplierState, b: BackendState, d: Delta): (ApplierState, BackendState, Verdict) {
    var (a', v) := ApplierStep(a, d);
    (a', if v == Advanced then ApplyBatch(b, BatchOf(MarksOf(b.meta), d)) else b, v)
  }

  function BootAll(a: ApplierState, b: BackendState, ds: seq<Delta>): (ApplierState, BackendState, Verdict)
    decreases |ds|
  {
    if ds == [] then (a, b, Advanced)
    else
      var (a', b', v) := BootStep(a, b, ds[0]);
      if Stops(v) then (a', b', v) else BootAll(a', b', ds[1..])
  }

  /** Each delta passes the applier before the backend is touched, so a refusal never half-applies. */
  method BootstrapBackend(backend: MemoryBackend, ds: seq<Delta>) returns (applier: ReferenceApplier, verdict: Verdict)
    requires backend.View() == FRESH_BACKEND
    modifies backend
    ensures fresh(applier)
    ensures (applier.View(), backend.View(), verdict) == BootAll(FRESH_APPLIER, FRESH_BACKEND, ds)
  {
    applier := new ReferenceApplier();
    var marks := Marks(OID_BASE - 1, CID_BASE - 1, None);
    for i := 0 to |ds|
      invariant BootAll(FRESH_APPLIER, FRESH_BACKEND, ds) == BootAll(applier.View(), backend.View(), ds[i..])
      invariant marks == MarksOf(backend.meta)
    {
      assert ds[i..][0] == ds[i] && ds[i..][1..] == ds[i + 1..];
      ghost var before := applier.View();
      var v := applier.Apply(ds[i]);
      if Stops(v) {
        return applier, v;
      }
      if v == Advanced {
        AcceptedIsShaped(before, ds[i]);
        var batch, next := DeltaToBatch(ds[i], marks);
        var _ := backend.Apply(batch, true);
        marks := next;
      }
    }
    assert ds[|ds|..] == [];
    verdict := Advanced;
  }

  lemma {:induction false} FoldedOpsHavePayloads(objects: map<Oid, Bytes>, types: map<Cid, Shape>, ops: seq<Op>)
    requires FoldOps(objects, types, ops).1
    ensures forall i :: 0 <= i < |ops| ==> ops[i].kind in {Upsert, Delete} && (ops[i].kind == Upsert ==> ops[i].payload.Some?)
  {
    if ops != [] {
      FoldedOpsHavePayloads(objects, types, ops[..|ops| - 1]);
      forall i | 0 <= i < |ops|
        ensures ops[i].kind in {Upsert, Delete} && (ops[i].kind == Upsert ==> ops[i].payload.Some?)
      {
        if i < |ops| - 1 {
          assert ops[..|ops| - 1][i] == ops[i];
        }
      }
    }
  }

  lemma AcceptedIsShaped(a: ApplierState, d: Delta)
    requires ApplierStep(a, d).1 == Advanced
    ensures Shaped(d)
  {
    FoldedOpsHavePayloads(a.objects, AddTypes(a.types, d.types), d.ops);
  }

  // -------------------------------------------------------------- composition

  lemma {:induction false} CatchAllAppend(b: BackendState, xs: seq<Delta>, ys: seq<Delta>)
    ensures CatchAll(b, xs + ys) ==
      var (c, v) := CatchAll(b, xs); if Stops(v) then (c, v) else CatchAll(c, ys)
    decreases |xs|
  {
    if xs == [] {
      assert xs + ys == ys;
    } else {
      var (c, v) := CatchStep(b, xs[0]);
      assert (xs + ys)[0] == xs[0] && (xs + ys)[1..] == xs[1..] + ys;
      if !Stops(v) {
        CatchAllAppend(c, xs[1..], ys);
      }
    }
  }

  /** A run of deltas that are already applied changes nothing. */
  lemma {:induction false} OverlapIsSkipped(b: BackendState, xs: seq<Delta>)
    requires forall i :: 0 <= i < |xs| ==> HeaderOk(xs[i]) && xs[i].tid <= Watermark(b)
    ensures CatchAll(b, xs) == (b, Advanced)
  {
    if xs != [] {
      OverlapIsSkipped(b, xs[1..]);
    }
  }

  /** The verdict of a catch-up, which reads no more of a delta than its mark and its TID. Only the next delta
      moves the backend. */
  lemma CatchMeans(b: BackendState, d: Delta)
    requires b.meta.nextTid >= 1
    ensures var (c, v) := CatchStep(b, d);
      var marked := d.marker == "datacrystal-delta" && d.version == 2;
      && (v == FormatError <==> !marked)
      && (v == Skipped <==> marked && d.tid < b.meta.nextTid)
      && (v == Advanced <==> marked && d.tid == b.meta.nextTid)
      && (v == GapError <==> marked && d.tid > b.meta.nextTid)
      && (v != Advanced ==> c == b)
  {
    hide BatchOf, ApplyBatch;
  }

  /** The verdict of a reference applier: the next delta is taken when it lacks no key and every op of it is
      acceptable. */
  lemma ApplierMeans(a: ApplierState, d: Delta)
    ensures var (z, v) := ApplierStep(a, d);
      var marked := d.marker == "datacrystal-delta" && d.version == 2 && d.complete;
      && (v == Skipped <==> marked && d.tid <= a.watermark)
      && (v == GapError <==> marked && d.tid > a.watermark + 1)
      && (v == Advanced <==> marked && d.tid == a.watermark + 1 && AllAcceptable(a.objects, AddTypes(a.types, d.types), d.ops))
      && (v == Advanced ==> z.watermark == d.tid && z.types == AddTypes(a.types, d.types) && z.root == d.root)
      && (v == Skipped || v == GapError ==> z == a)
  {
    FoldsWhenAcceptable(a.objects, AddTypes(a.types, d.types), d.ops);
    hide FoldOps, AddTypes, AllAcceptable;
  }

  /** The follower's bookkeeping: the persisted marks are positive, and every stored id is below them. */
  ghost predicate MarksCover(b: BackendState) {
    && b.meta.nextOid >= 1 && b.meta.nextCid >= 1 && b.meta.nextTid >= 1
    && (forall o :: o in b.objects ==> o < b.meta.nextOid && b.objects[o].cid < b.meta.nextCid)
    && (forall i :: 0 <= i < |b.types| ==> b.types[i].cid < b.meta.nextCid)
  }

  lemma {:induction false} MarkOpsBound(m: Marks, ops: seq<Op>, tid: Tid)
    ensures var n := MarkOps(m, ops); n.maxOid >= m.maxOid && n.maxCid >= m.maxCid && n.root == m.root
    ensures var n := MarkOps(m, ops); forall i :: 0 <= i < |RecordsOf(ops, tid)| ==>
              RecordsOf(ops, tid)[i].oid <= n.maxOid && RecordsOf(ops, tid)[i].cid <= n.maxCid
  {
    if ops != [] {
      MarkOpsBound(m, ops[..|ops| - 1], tid);
    }
  }

  lemma {:induction false} MarkTypesBound(m: Marks, rows: seq<TypeRow>)
    ensures var n := MarkTypes(m, rows); n.maxOid == m.maxOid && n.maxCid >= m.maxCid && n.root == m.root
    ensures forall i :: 0 <= i < |rows| ==> rows[i].cid <= MarkTypes(m, rows).maxCid
  {
    if rows != [] {
      var front := rows[..|rows| - 1];
      MarkTypesBound(m, front);
      assert forall i :: 0 <= i < |front| ==> front[i] == rows[i];
    }
  }

  lemma {:induction false} PutAllWithin(objects: map<Oid, StoredRecord>, recs: seq<StoredRecord>, o: Oid)
    requires o in PutAll(objects, recs)
    ensures (o in objects && PutAll(objects, recs)[o] == objects[o])
            || exists i :: 0 <= i < |recs| && recs[i].oid == o && recs[i] == PutAll(objects, recs)[o]
  {
    if recs != [] {
      var front, last := recs[..|recs| - 1], recs[|recs| - 1];
      if o != last.oid {
        PutAllWithin(objects, front, o);
        if !(o in objects && PutAll(objects, recs)[o] == objects[o]) {
          var i :| 0 <= i < |front| && front[i].oid == o && front[i] == PutAll(objects, front)[o];
          assert recs[i] == front[i];
        }
      } else {
        assert recs[|recs| - 1].oid == o;
      }
    }
  }

  /** Marks never regress and always exceed every stored id. */
  lemma StepKeepsMarks(b: BackendState, d: Delta)
    requires MarksCover(b)
    ensures var c := CatchStep(b, d).0;
      MarksCover(c) && c.meta.nextOid >= b.meta.nextOid && c.meta.nextCid >= b.meta.nextCid && c.meta.nextTid >= b.meta.nextTid
  {
    var (c, v) := CatchStep(b, d);
    if v == Advanced {
      var m := MarksOf(b.meta);
      var batch := BatchOf(m, d);
      MarkOpsBound(m, d.ops, d.tid);
      MarkTypesBound(MarkOps(m, d.ops), d.types);
      forall o | o in c.objects
        ensures o < c.meta.nextOid && c.objects[o].cid < c.meta.nextCid
      {
        PutAllWithin(b.objects, batch.records, o);
      }
    }
  }

  lemma {:induction false} CatchUpKeepsMarks(b: BackendState, ds: seq<Delta>)
    requires MarksCover(b)
    ensures var c := CatchAll(b, ds).0;
      MarksCover(c) && c.meta.nextOid >= b.meta.nextOid && c.meta.nextCid >= b.meta.nextCid && c.meta.nextTid >= b.meta.nextTid
    decreases |ds|
  {
    if ds != [] {
      StepKeepsMarks(b, ds[0]);
      var (c, v) := CatchStep(b, ds[0]);
      if !Stops(v) {
        CatchUpKeepsMarks(c, ds[1..]);
      }
    }
  }

  lemma {:induction false} MarkOpsReached(m: Marks, ops: seq<Op>)
    ensures var n := MarkOps(m, ops);
      && (n.maxOid == m.maxOid || exists i :: 0 <= i < |ops| && ops[i].kind == Upsert && ops[i].oid == n.maxOid)
      && (n.maxCid == m.maxCid || exists i :: 0 <= i < |ops| && ops[i].cid == n.maxCid)
  {
    if ops != [] {
      var front, last := ops[..|ops| - 1], ops[|ops| - 1];
      MarkOpsReached(m, front);
      assert forall i :: 0 <= i < |front| ==> front[i] == ops[i];
      assert ops[|ops| - 1] == last;
    }
  }

  lemma {:induction false} MarkTypesReached(m: Marks, rows: seq<TypeRow>)
    ensures var n := MarkTypes(m, rows); n.maxCid == m.maxCid || exists i :: 0 <= i < |rows| && rows[i].cid == n.maxCid
  {
    if rows != [] {
      var front := rows[..|rows| - 1];
      MarkTypesReached(m, front);
      assert forall i :: 0 <= i < |front| ==> front[i] == rows[i];
      assert rows[|rows| - 1].cid == rows[|rows| - 1].cid;
    }
  }

  /** A mark is the least number it may be: the next one after the follower's own or after the greatest id
      the delta names. */
  ghost predicate LeastAbove(mark: nat, before: nat, named: iset<nat>) {
    mark >= before && (forall n :: n in named ==> n < mark) && (mark == before || (mark > 0 && mark - 1 in named))
  }

  ghost function NamedOids(d: Delta): iset<nat> {
    iset i | 0 <= i < |d.ops| && d.ops[i].kind == Upsert :: d.ops[i].oid
  }

  ghost function NamedCids(d: Delta): iset<nat> {
    (iset i | 0 <= i < |d.ops| :: d.ops[i].cid) + (iset i | 0 <= i < |d.types| :: d.types[i].cid)
  }

  /** The next delta moves every persisted number exactly as far as it must: a follower hands out the ids
      its coordinator would not have used, and skips none it need not skip. */
  lemma MarksAreLeast(b: BackendState, d: Delta)
    requires b.meta.nextOid >= 1 && b.meta.nextCid >= 1 && CatchStep(b, d).1 == Advanced
    ensures var c := CatchStep(b, d).0.meta;
      && LeastAbove(c.nextOid, b.meta.nextOid, NamedOids(d)) && LeastAbove(c.nextCid, b.meta.nextCid, NamedCids(d))
      && c.nextTid == d.tid + 1 && c.root == if d.root == None then b.meta.root else d.root
  {
    var m := MarksOf(b.meta);
    var mid := MarkOps(m, d.ops);
    MarkOpsReached(m, d.ops);
    MarkOpsAbove(m, d.ops);
    MarkOpsBound(m, d.ops, d.tid);
    MarkTypesReached(mid, d.types);
    MarkTypesBound(mid, d.types);
    hide MarkOps, MarkTypes, RecordsOf, RemovalsOf, HeaderOk;
  }

  lemma {:induction false} MarkOpsAbove(m: Marks, ops: seq<Op>)
    ensures var n := MarkOps(m, ops);
      forall i :: 0 <= i < |ops| ==> ops[i].cid <= n.maxCid && (ops[i].kind == Upsert ==> ops[i].oid <= n.maxOid)
  {
    if ops != [] {
      var front := ops[..|ops| - 1];
      MarkOpsAbove(m, front);
      assert forall i :: 0 <= i < |front| ==> front[i] == ops[i];
    }
  }

  /** A bootstrap that refuses nothing leaves the backend a plain catch-up would leave. */
  lemma {:induction false} BootstrapIsCatchUp(a: ApplierState, b: BackendState, ds: seq<Delta>)
    requires a.watermark + 1 == b.meta.nextTid
    requires !Stops(BootAll(a, b, ds).2)
    ensures CatchAll(b, ds) == (BootAll(a, b, ds).1, Advanced)
    ensures BootAll(a, b, ds).0.watermark == Watermark(BootAll(a, b, ds).1)
    decreases |ds|
  {
    if ds != [] {
      var (a', b', v) := BootStep(a, b, ds[0]);
      assert CatchStep(b, ds[0]) == (b', v);
      BootstrapIsCatchUp(a', b', ds[1..]);
    }
  }

  // ---------------------------------------------------- where the paths part

  /** What an object holds before op `i`: what the last earlier op on it left, else what it held. */
  function HeldBefore(objects: map<Oid, Bytes>, ops: seq<Op>, i: nat, oid: Oid): Option<Bytes>
    requires i <= |ops|
  {
    if i == 0 then Current(objects, oid)
    else if ops[i - 1].oid == oid then Outcome(ops[i - 1])
    else HeldBefore(objects, ops, i - 1, oid)
  }

  /** The op names a known kind and a known class, and its prior is what the object holds. */
  predicate Acceptable(objects: map<Oid, Bytes>, types: map<Cid, Shape>, ops: seq<Op>, i: nat)
    requires i < |ops|
  {
    var op, held := ops[i], HeldBefore(objects, ops, i, ops[i].oid);
    && op.complete && !op.kind.Unknown? && op.cid in types && op.prior == held
    && (if op.kind == Upsert then op.payload.Some? else held.Some?)
  }

  ghost predicate AllAcceptable(objects: map<Oid, Bytes>, types: map<Cid, Shape>, ops: seq<Op>) {
    forall i :: 0 <= i < |ops| ==> Acceptable(objects, types, ops, i)
  }

  /** The applier takes the ops exactly when each is acceptable on its own, and then every object holds
      what the last op on it left. */
  lemma {:induction false} FoldsWhenAcceptable(objects: map<Oid, Bytes>, types: map<Cid, Shape>, ops: seq<Op>)
    ensures FoldOps(objects, types, ops).1 <==> AllAcceptable(objects, types, ops)
    ensures FoldOps(objects, types, ops).1 ==>
      forall o :: Current(FoldOps(objects, types, ops).0, o) == HeldBefore(objects, ops, |ops|, o)
  {
    if ops != [] {
      var front, n := ops[..|ops| - 1], |ops| - 1;
      var before := FoldOps(objects, types, front).0;
      FoldsWhenAcceptable(objects, types, front);
      FrontAcceptable(objects, types, ops);
      HeldInFront(objects, ops, n, n, ops[n].oid);
      if FoldOps(objects, types, front).1 {
        assert Current(before, ops[n].oid) == HeldBefore(objects, ops, n, ops[n].oid);
        assert OpOk(before, types, ops[n]) <==> Acceptable(objects, types, ops, n);
        forall o
          ensures Current(before, o) == HeldBefore(objects, ops, n, o)
        {
          HeldInFront(objects, ops, n, n, o);
        }
      }
    }
  }

  lemma FrontAcceptable(objects: map<Oid, Bytes>, types: map<Cid, Shape>, ops: seq<Op>)
    requires ops != []
    ensures AllAcceptable(objects, types, ops)
      <==> AllAcceptable(objects, types, ops[..|ops| - 1]) && Acceptable(objects, types, ops, |ops| - 1)
  {
    var n := |ops| - 1;
    forall i | 0 <= i < n
      ensures Acceptable(objects, types, ops[..n], i) <==> Acceptable(objects, types, ops, i)
    {
      HeldInFront(objects, ops, n, i, ops[i].oid);
    }
  }

  lemma {:induction false} HeldInFront(objects: map<Oid, Bytes>, ops: seq<Op>, n: nat, i: nat, o: Oid)
    requires i <= n <= |ops|
    ensures HeldBefore(objects, ops[..n], i, o) == HeldBefore(objects, ops, i, o)
  {
    if i > 0 {
      HeldInFront(objects, ops, n, i - 1, o);
    }
  }

  /** On the next well-headed delta the two paths leave the same backend with the same verdict exactly when
      it lacks no required key and every op of it is acceptable: the bootstrap refuses the others, while the
      catch-up, which reads neither the actor nor the time nor a prior, applies them. */
  lemma PathsAgreeIff(a: ApplierState, b: BackendState, d: Delta)
    requires HeaderOk(d) && a.watermark + 1 == b.meta.nextTid == d.tid
    ensures var (_, booted, verdict) := BootStep(a, b, d);
      CatchStep(b, d) == (booted, verdict)
      <==> d.complete && AllAcceptable(a.objects, AddTypes(a.types, d.types), d.ops)
  {
    hide ApplyBatch, BatchOf, AllAcceptable, FoldOps, AddTypes, HeaderOk;
    FoldsWhenAcceptable(a.objects, AddTypes(a.types, d.types), d.ops);
    assert Watermark(b) + 1 == d.tid;
  }

  /** One op of a kind nobody knows, on a record both hold: the bootstrap refuses the delta and leaves the
      backend, the catch-up deletes the record. */
  lemma UnknownKindParts(a: ApplierState, b: BackendState, o: Oid, c: Cid, kind: string)
    requires a.watermark + 1 == b.meta.nextTid && c in a.types && o in b.objects
    ensures var op := Op(true, Unknown(kind), o, c, None, Current(a.objects, o));
      var d := Delta(FORMAT_MARKER, CONTRACT_VERSION, true, b.meta.nextTid, 0, 0, [op], [], b.meta.root);
      && BootStep(a, b, d).1 == b && BootStep(a, b, d).2 == FormatError
      && CatchStep(b, d).1 == Advanced && CatchStep(b, d).0.objects == b.objects - {o}
  {
    var op := Op(true, Unknown(kind), o, c, None, Current(a.objects, o));
    var d := Delta(FORMAT_MARKER, CONTRACT_VERSION, true, b.meta.nextTid, 0, 0, [op], [], b.meta.root);
    var none: seq<Op> := [];
    assert [op][..0] == none && RemovalsOf(none) == [] && RecordsOf(none, d.tid) == [];
    assert RemovalsOf(d.ops) == [o] && RecordsOf(d.ops, d.tid) == [];
    assert ToSet([o]) == {o};
  }

  /** A stream recorded from genesis: TIDs 1, 2, 3, ... */
  ghost predicate FromGenesis(ds: seq<Delta>) {
    forall i :: 0 <= i < |ds| ==> ds[i].tid == i + 1
  }

  lemma {:induction false} BootAllAppend(a: ApplierState, b: BackendState, xs: seq<Delta>, ys: seq<Delta>)
    ensures BootAll(a, b, xs + ys) ==
      var (a', b', v) := BootAll(a, b, xs); if Stops(v) then (a', b', v) else BootAll(a', b', ys)
    decreases |xs|
  {
    if xs == [] {
      assert xs + ys == ys;
    } else {
      var (a', b', v) := BootStep(a, b, xs[0]);
      assert (xs + ys)[0] == xs[0] && (xs + ys)[1..] == xs[1..] + ys;
      if !Stops(v) {
        BootAllAppend(a', b', xs[1..], ys);
      }
    }
  }

  /** Bootstrapping the first `n` deltas of a genesis stream ends at watermark `n`. */
  lemma {:induction false} BootstrapWatermark(ds: seq<Delta>)
    requires FromGenesis(ds) && !Stops(BootAll(FRESH_APPLIER, FRESH_BACKEND, ds).2)
    ensures BootAll(FRESH_APPLIER, FRESH_BACKEND, ds).1.meta.nextTid == |ds| + 1
    ensures forall i :: 0 <= i < |ds| ==> HeaderOk(ds[i])
  {
    if ds != [] {
      var front, last := ds[..|ds| - 1], ds[|ds| - 1];
      assert ds == front + [last];
      BootAllAppend(FRESH_APPLIER, FRESH_BACKEND, front, [last]);
      BootstrapWatermark(front);
      BootstrapIsCatchUp(FRESH_APPLIER, FRESH_BACKEND, front);
      var (a, b, v) := BootAll(FRESH_APPLIER, FRESH_BACKEND, front);
      assert [last][1..] == [];
      forall i | 0 <= i < |ds|
        ensures HeaderOk(ds[i])
      {
        if i < |front| {
          assert front[i] == ds[i];
        }
      }
    }
  }

  /** Bootstrapping a prefix and catching up with any overlapping suffix is bootstrapping the whole. */
  lemma BootstrapThenCatchUp(ds: seq<Delta>, j: nat, k: nat)
    requires j <= k <= |ds| && FromGenesis(ds)
    requires !Stops(BootAll(FRESH_APPLIER, FRESH_BACKEND, ds).2)
    ensures CatchAll(BootAll(FRESH_APPLIER, FRESH_BACKEND, ds[..k]).1, ds[j..])
         == (BootAll(FRESH_APPLIER, FRESH_BACKEND, ds).1, Advanced)
  {
    hide BootAll, CatchAll, HeaderOk;
    assert ds == ds[..k] + ds[k..] && ds[j..] == ds[j..k] + ds[k..];
    BootAllAppend(FRESH_APPLIER, FRESH_BACKEND, ds[..k], ds[k..]);
    var (a, b, v) := BootAll(FRESH_APPLIER, FRESH_BACKEND, ds[..k]);
    BootstrapWatermark(ds[..k]);
    BootstrapIsCatchUp(FRESH_APPLIER, FRESH_BACKEND, ds[..k]);
    BootstrapIsCatchUp(a, b, ds[k..]);
    forall i | 0 <= i < |ds[j..k]|
      ensures HeaderOk(ds[j..k][i]) && ds[j..k][i].tid <= Watermark(b)
    {
      assert ds[j..k][i] == ds[..k][j + i];
    }
    OverlapIsSkipped(b, ds[j..k]);
    CatchAllAppend(b, ds[j..k], ds[k..]);
  }

  /** A gap stops the catch-up with exactly the deltas before it applied. */
  lemma GapStopsAtPrefix(b: BackendState, ds: seq<Delta>, k: nat)
    requires k < |ds| && !Stops(CatchAll(b, ds[..k]).1)
    requires HeaderOk(ds[k]) && ds[k].tid > Watermark(CatchAll(b, ds[..k]).0) + 1
    ensures CatchAll(b, ds) == (CatchAll(b, ds[..k]).0, GapError)
  {
    assert ds == ds[..k] + ds[k..];
    CatchAllAppend(b, ds[..k], ds[k..]);
  }

  // ------------------------------------------------------------------ framing

  /** The frames from `offset` on. A header that is cut short raises; a payload that is cut short
      comes out shortened, as slicing gives it. */
  function Parse(blob: Bytes, offset: nat): (seq<Bytes>, bool)
    decreases |blob| - offset
  {
    if offset >= |blob| then ([], true)
    else
      match CutFrame(blob, offset)
      case NoHeader => ([], false)
      case Truncated(rest, next) => ([rest] + Parse(blob, next).0, Parse(blob, next).1)
      case Whole(raw, next) => ([raw] + Parse(blob, next).0, Parse(blob, next).1)
  }

  /** One unfolding of `Parse`. */
  lemma ParseStep(blob: Bytes, offset: nat)
    requires offset < |blob|
    ensures var cut := CutFrame(blob, offset);
      Parse(blob, offset) ==
        if cut.NoHeader? then ([], false)
        else ([if cut.Whole? then cut.raw else cut.rest] + Parse(blob, cut.next).0, Parse(blob, cut.next).1)
  {
  }

  lemma ParseEnd(blob: Bytes, offset: nat)
    requires offset >= |blob|
    ensures Parse(blob, offset) == ([], true)
  {
  }

  /** Frame by frame: eight bytes of length, most significant first, then that many bytes. A payload that is
      cut short is the last one, and comes out as far as it goes; a header that is cut short is an error. */
  lemma ParseMeans(blob: Bytes, offset: nat)
    requires offset < |blob|
    ensures var left := |blob| - offset;
      if left < 8 then Parse(blob, offset) == ([], false)
      else
        var start, length := offset + 8, FromBigEndian(blob[offset..offset + 8]);
        if start + length > |blob| then Parse(blob, offset) == ([blob[start..]], true)
        else
          var (rest, ok) := Parse(blob, start + length);
          Parse(blob, offset) == ([blob[start..start + length]] + rest, ok)
  {
    ParseStep(blob, offset);
    var cut := CutFrame(blob, offset);
    if cut.Truncated? {
      ParseEnd(blob, cut.next);
      assert [cut.rest] + [] == [cut.rest];
    }
    hide Parse, FromBigEndian;
  }

  /** The frames of a `/v1/deltas` body. */
  method IterFrames(blob: Bytes) returns (raws: seq<Bytes>, ok: bool)
    ensures (raws, ok) == Parse(blob, 0)
  {
    hide Parse, CutFrame;
    raws := [];
    var offset: nat := 0;
    assert [] + Parse(blob, 0).0 == Parse(blob, 0).0;
    while offset < |blob|
      invariant Parse(blob, 0) == (raws + Parse(blob, offset).0, Parse(blob, offset).1)
      decreases |blob| - offset
    {
      ParseStep(blob, offset);
      var cut := CutFrame(blob, offset);
      if cut.NoHeader? {
        assert raws + [] == raws;
        return raws, false;
      }
      var raw := if cut.Whole? then cut.raw else cut.rest;
      assert raws + ([raw] + Parse(blob, cut.next).0) == (raws + [raw]) + Parse(blob, cut.next).0;
      raws := raws + [raw];
      offset := cut.next;
    }
    ParseEnd(blob, offset);
    assert raws + [] == raws;
    ok := true;
  }

  /** Length-prefixed frames parse back to exactly what was framed. */
  lemma FramesRoundTrip(raws: seq<Bytes>)
    requires forall i :: 0 <= i < |raws| ==> Framable(raws[i])
    ensures Parse(FrameAll(raws), 0) == (raws, true)
  {
    assert raws[..0] == [] && raws[0..] == raws;
    ParseFrom(raws, 0);
  }

  lemma {:induction false} ParseFrom(raws: seq<Bytes>, n: nat)
    requires n <= |raws| && forall i :: 0 <= i < |raws| ==> Framable(raws[i])
    ensures Parse(FrameAll(raws), |FrameAll(raws[..n])|) == (raws[n..], true)
    decreases |raws| - n
  {
    hide FrameAll, CutFrame;
    if n == |raws| {
      assert raws[..n] == raws && raws[n..] == [];
    } else {
      CutAt(raws, n);
      ParseFrom(raws, n + 1);
      assert raws[n..] == [raws[n]] + raws[n + 1..];
    }
  }
}
