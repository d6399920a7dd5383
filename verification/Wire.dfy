/**
 The shapes that travel between the commit engine, the storage backend and the
 delta consumers, together with the two state machines at either end of the
 wire: the atomic in-memory backend and the reference delta applier.
 */
module Wire {

  type Oid = nat
  type Cid = nat
  type Tid = nat
  newtype Byte = b: int | 0 <= b < 256
  type Bytes = seq<Byte>

  const OID_BASE: nat := 1_099_511_627_776
  const CID_BASE: nat := 1
  const TID_BASE: nat := 1
  const FORMAT_MARKER := "datacrystal-delta"
  const CONTRACT_VERSION := 2

  datatype Option<+T> = None | Some(value: T)

  /** A persisted class shape: the type name and its field list, in order. */
  datatype Shape = Shape(typename: string, fields: seq<string>)
  datatype TypeRow = TypeRow(cid: Cid, shape: Shape)
  datatype StoredRecord = StoredRecord(oid: Oid, cid: Cid, tid: Tid, payload: Bytes)
  datatype Meta = Meta(nextOid: nat, nextCid: nat, nextTid: nat, root: Option<Oid>)
  datatype Batch = Batch(tid: Tid, records: seq<StoredRecord>, newTypes: seq<TypeRow>,
                         deletes: seq<Oid>, meta: Meta)

  // ---------------------------------------------------------------- backend

  datatype BackendState = BackendState(objects: map<Oid, StoredRecord>, types: seq<TypeRow>, meta: Meta)

  const FRESH_BACKEND := BackendState(map[], [], Meta(OID_BASE, CID_BASE, TID_BASE, None))

  function ToSet<T>(s: seq<T>): (r: set<T>)
  {
    set x | x in s
  }

  lemma HasMember<T>(s: seq<T>)
    requires s != []
    ensures exists x :: x in s
  {
    assert s[0] in s;
  }

  lemma Smaller<T>(a: set<T>, b: set<T>)
    requires a <= b
    ensures |a| <= |b|
  {
    assert b == a + (b - a);
  }

  /** The objects after storing `recs` one after the other; a later record for an OID wins. */
  function PutAll(objects: map<Oid, StoredRecord>, recs: seq<StoredRecord>): map<Oid, StoredRecord>
  {
    if recs == [] then objects
    else
      var rec := recs[|recs| - 1];
      PutAll(objects, recs[..|recs| - 1])[rec.oid := rec]
  }

  function ApplyBatch(st: BackendState, batch: Batch): BackendState
  {
    BackendState(PutAll(st.objects, batch.records) - ToSet(batch.deletes), st.types + batch.newTypes, batch.meta)
  }

  /** The in-memory storage backend. */
  class MemoryBackend {
    var objects: map<Oid, StoredRecord>
    var types: seq<TypeRow>
    var meta: Meta

    ghost function View(): BackendState
      reads this
    {
      BackendState(objects, types, meta)
    }

    constructor ()
      ensures View() == FRESH_BACKEND
    {
      objects, types, meta := map[], [], Meta(OID_BASE, CID_BASE, TID_BASE, None);
    }

    /** Applies a whole batch, or nothing. Reading the streamed sources is the only step
        that can fail, and it precedes every state change. */
    method Apply(batch: Batch, sourcesReadable: bool) returns (ok: bool)
      modifies this
      ensures ok == sourcesReadable
      ensures View() == if ok then ApplyBatch(old(View()), batch) else old(View())
    {
      if !sourcesReadable {
        return false;
      }
      types := types + batch.newTypes;
      for i := 0 to |batch.records|
        invariant objects == PutAll(old(objects), batch.records[..i])
        invariant types == old(types) + batch.newTypes && meta == old(meta)
      {
        assert batch.records[..i + 1][..i] == batch.records[..i];
        objects := objects[batch.records[i].oid := batch.records[i]];
      }
      assert batch.records[..|batch.records|] == batch.records;
      ghost var stored := objects;
      for i := 0 to |batch.deletes|
        invariant objects == stored - ToSet(batch.deletes[..i])
        invariant types == old(types) + batch.newTypes && meta == old(meta)
      {
        assert ToSet(batch.deletes[..i + 1]) == ToSet(batch.deletes[..i]) + {batch.deletes[i]};
        objects := objects - {batch.deletes[i]};
      }
      assert batch.deletes[..|batch.deletes|] == batch.deletes;
      meta := batch.meta;
      ok := true;
    }
  }

  /** Records of a batch that carries each OID at most once, looked up by OID. */
  ghost predicate DistinctOids(recs: seq<StoredRecord>)
  {
    forall i, j :: 0 <= i < j < |recs| ==> recs[i].oid != recs[j].oid
  }

  function OidsOf(recs: seq<StoredRecord>): set<Oid>
  {
    set r | r in recs :: r.oid
  }

  /** PutAll, read off without its recursion: the batch's record where it has one, else the old one. */
  lemma {:induction false} PutAllLookup(objects: map<Oid, StoredRecord>, recs: seq<StoredRecord>)
    requires DistinctOids(recs)
    ensures PutAll(objects, recs).Keys == objects.Keys + OidsOf(recs)
    ensures forall i :: 0 <= i < |recs| ==> PutAll(objects, recs)[recs[i].oid] == recs[i]
    ensures forall o :: o in objects && o !in OidsOf(recs) ==> PutAll(objects, recs)[o] == objects[o]
  {
    hide OidsOf;
    if recs == [] {
      NoOids();
    } else {
      var front, rec := recs[..|recs| - 1], recs[|recs| - 1];
      assert recs == front + [rec];
      assert DistinctOids(front) && forall i :: 0 <= i < |front| ==> front[i] == recs[i];
      PutAllLookup(objects, front);
      OidsOfAppend(front, rec);
      forall i | 0 <= i < |recs|
        ensures recs[i].oid in OidsOf(recs) && PutAll(objects, recs)[recs[i].oid] == recs[i]
      {
        OidListed(recs, i);
        if i < |front| {
          assert PutAll(objects, front)[front[i].oid] == front[i] && front[i].oid != rec.oid;
        }
      }
    }
  }

  lemma NoOids()
    ensures OidsOf([]) == {}
  {
  }

  lemma OidListed(recs: seq<StoredRecord>, i: nat)
    requires i < |recs|
    ensures recs[i].oid in OidsOf(recs)
  {
  }

  lemma OidsOfAppend(front: seq<StoredRecord>, rec: StoredRecord)
    ensures OidsOf(front + [rec]) == OidsOf(front) + {rec.oid}
  {
    assert forall r :: r in front + [rec] <==> r in front || r == rec;
  }

  // ------------------------------------------------------------------ delta

  datatype OpKind = Upsert | Delete | Unknown(name: string)

  /** One delta operation. `complete` says that every required key is present. */
  datatype Op = Op(complete: bool, kind: OpKind, oid: Oid, cid: Cid, payload: Option<Bytes>, prior: Option<Bytes>)

  /** One commit delta. `complete` says that every required top-level key is present. */
  datatype Delta = Delta(marker: string, version: int, complete: bool, tid: Tid, actor: nat, at: int,
                         ops: seq<Op>, types: seq<TypeRow>, root: Option<Oid>)

  predicate HeaderOk(d: Delta) {
    d.marker == FORMAT_MARKER && d.version == CONTRACT_VERSION
  }

  function UpsertOp(rec: StoredRecord, priors: map<Oid, Bytes>): Op {
    Op(true, Upsert, rec.oid, rec.cid, Some(rec.payload),
       if rec.oid in priors then Some(priors[rec.oid]) else None)
  }

  function DeleteOp(tombstone: (Oid, Cid, Bytes)): Op {
    Op(true, Delete, tombstone.0, tombstone.1, None, Some(tombstone.2))
  }

  function UpsertOps(records: seq<StoredRecord>, priors: map<Oid, Bytes>): seq<Op> {
    seq(|records|, i requires 0 <= i < |records| => UpsertOp(records[i], priors))
  }

  function DeleteOps(tombstones: seq<(Oid, Cid, Bytes)>): seq<Op> {
    seq(|tombstones|, i requires 0 <= i < |tombstones| => DeleteOp(tombstones[i]))
  }

  /** The delta of one commit: upserts in capture order, then delete tombstones. */
  function BuildDelta(tid: Tid, records: seq<StoredRecord>, newTypes: seq<TypeRow>, root: Option<Oid>,
                      priors: map<Oid, Bytes>, tombstones: seq<(Oid, Cid, Bytes)>, actor: nat, at: int): Delta
  {
    Delta(FORMAT_MARKER, CONTRACT_VERSION, true, tid, actor, at,
          UpsertOps(records, priors) + DeleteOps(tombstones), newTypes, root)
  }

  // ---------------------------------------------------------------- applier

  datatype ApplierState = ApplierState(objects: map<Oid, Bytes>, types: map<Cid, Shape>,
                                       root: Option<Oid>, watermark: Tid)
  datatype Verdict = Advanced | Skipped | FormatError | GapError

  const FRESH_APPLIER := ApplierState(map[], map[], None, 0)

  function AddTypes(types: map<Cid, Shape>, rows: seq<TypeRow>): map<Cid, Shape>
  {
    if rows == [] then types
    else AddTypes(types, rows[..|rows| - 1])[rows[|rows| - 1].cid := rows[|rows| - 1].shape]
  }

  function Current(objects: map<Oid, Bytes>, oid: Oid): Option<Bytes> {
    if oid in objects then Some(objects[oid]) else None
  }

  /** The refusals of one op against the state it meets. */
  predicate OpOk(objects: map<Oid, Bytes>, types: map<Cid, Shape>, op: Op) {
    && op.complete
    && op.cid in types
    && op.prior == Current(objects, op.oid)
    && match op.kind
       case Upsert => op.payload.Some?
       case Delete => op.oid in objects
       case Unknown(_) => false
  }

  function OpEffect(objects: map<Oid, Bytes>, op: Op): map<Oid, Bytes> {
    match op.kind
    case Upsert => if op.payload.Some? then objects[op.oid := op.payload.value] else objects
    case Delete => objects - {op.oid}
    case Unknown(_) => objects
  }

  /** Folds the ops left to right and stops at the first one that is refused. */
  function FoldOps(objects: map<Oid, Bytes>, types: map<Cid, Shape>, ops: seq<Op>): (map<Oid, Bytes>, bool)
  {
    if ops == [] then (objects, true)
    else
      var (before, ok) := FoldOps(objects, types, ops[..|ops| - 1]);
      var op := ops[|ops| - 1];
      if ok && OpOk(before, types, op) then (OpEffect(before, op), true) else (before, false)
  }

  function ApplierStep(st: ApplierState, d: Delta): (ApplierState, Verdict)
  {
    if !HeaderOk(d) || !d.complete then (st, FormatError)
    else if d.tid <= st.watermark then (st, Skipped)
    else if d.tid != st.watermark + 1 then (st, GapError)
    else
      var types := AddTypes(st.types, d.types);
      var (objects, ok) := FoldOps(st.objects, types, d.ops);
      if ok then (ApplierState(objects, types, d.root, d.tid), Advanced)
      else (st.(objects := objects, types := types), FormatError)
  }

  /** The reference consumer: payload bytes per OID, the type rows, the root and one watermark. */
  class ReferenceApplier {
    var objects: map<Oid, Bytes>
    var types: map<Cid, Shape>
    var root: Option<Oid>
    var watermark: Tid

    ghost function View(): ApplierState
      reads this
    {
      ApplierState(objects, types, root, watermark)
    }

    constructor ()
      ensures View() == FRESH_APPLIER
    {
      objects, types, root, watermark := map[], map[], None, 0;
    }

    method Apply(d: Delta) returns (verdict: Verdict)
      modifies this
      ensures (View(), verdict) == ApplierStep(old(View()), d)
    {
      if !HeaderOk(d) || !d.complete {
        return FormatError;
      }
      if d.tid <= watermark {
        return Skipped;
      }
      if d.tid != watermark + 1 {
        return GapError;
      }
      for i := 0 to |d.types|
        invariant types == AddTypes(old(types), d.types[..i])
        invariant objects == old(objects) && root == old(root) && watermark == old(watermark)
      {
        assert d.types[..i + 1][..i] == d.types[..i];
        types := types[d.types[i].cid := d.types[i].shape];
      }
      assert d.types[..|d.types|] == d.types;
      for i := 0 to |d.ops|
        invariant (objects, true) == FoldOps(old(objects), types, d.ops[..i])
        invariant types == AddTypes(old(types), d.types) && root == old(root) && watermark == old(watermark)
      {
        assert d.ops[..i + 1][..i] == d.ops[..i];
        var accepted := ApplyOp(d.ops[i]);
        if !accepted {
          FoldOpsStops(old(objects), types, d.ops, i + 1);
          return FormatError;
        }
      }
      assert d.ops[..|d.ops|] == d.ops;
      root := d.root;
      watermark := d.tid;
      verdict := Advanced;
    }

    method ApplyOp(op: Op) returns (accepted: bool)
      modifies this`objects
      ensures accepted == OpOk(old(objects), types, op)
      ensures objects == if accepted then OpEffect(old(objects), op) else old(objects)
    {
      if !op.complete || op.cid !in types {
        return false;
      }
      var current := Current(objects, op.oid);
      if op.prior != current {
        return false;
      }
      match op.kind {
        case Upsert =>
          if op.payload.None? {
            return false;
          }
          objects := objects[op.oid := op.payload.value];
        case Delete =>
          if current.None? {
            return false;
          }
          objects := objects - {op.oid};
        case Unknown(_) =>
          return false;
      }
      accepted := true;
    }
  }

  /** A fold that was refused within a prefix is refused as a whole, in the same state. */
  lemma {:induction false} FoldOpsStops(objects: map<Oid, Bytes>, types: map<Cid, Shape>, ops: seq<Op>, n: nat)
    requires n <= |ops| && !FoldOps(objects, types, ops[..n]).1
    ensures FoldOps(objects, types, ops) == FoldOps(objects, types, ops[..n])
    decreases |ops|
  {
    if n == |ops| {
      assert ops[..n] == ops;
    } else {
      var front := ops[..|ops| - 1];
      assert front[..n] == ops[..n];
      FoldOpsStops(objects, types, front, n);
    }
  }
}
