/**
 The three-phase commit as a state machine over values.

 P1 captures the buffers, allocates class ids and the TID, and flips what it captured to
 clean. P2 hands the batch to the backend. P3 finalizes, or the rollback re-buffers. Writes,
 new stores, deletes and loads may happen at any moment, also while a batch is in flight.
 `Store.dfy` has the imperative store whose methods are proved against these functions.
 */
module Commit {
  import opened Wire

  datatype Life = New | Clean | Dirty | Deleted

  /** The encoded field values of a live entity, or values the record codec rejects. */
  datatype Value = Value(bytes: Bytes, encodable: bool)
  datatype Entity = Entity(life: Life, shape: Shape, value: Value)

  // ------------------------------------------------- insertion-ordered buffers

  ghost predicate NoDup(s: seq<Oid>) {
    forall i, j :: 0 <= i < j < |s| ==> s[i] != s[j]
  }

  /** Dictionary assignment: a present key keeps its place. */
  function Put(s: seq<Oid>, o: Oid): (r: seq<Oid>)
    ensures forall x :: x in r <==> x in s || x == o
    ensures NoDup(s) ==> NoDup(r)
  {
    if o in s then s else s + [o]
  }

  function PutEach(s: seq<Oid>, os: seq<Oid>): (r: seq<Oid>)
    ensures forall x :: x in r <==> x in s || x in os
    ensures NoDup(s) ==> NoDup(r)
  {
    if os == [] then s
    else
      assert os == os[..|os| - 1] + [os[|os| - 1]];
      Put(PutEach(s, os[..|os| - 1]), os[|os| - 1])
  }

  /** Dictionary removal; what stays keeps its order. */
  function Without(s: seq<Oid>, gone: set<Oid>): (r: seq<Oid>)
    ensures forall x :: x in r <==> x in s && x !in gone
    ensures NoDup(s) ==> NoDup(r)
  {
    if s == [] then []
    else
      var front, o := s[..|s| - 1], s[|s| - 1];
      assert s == front + [o];
      if o in gone then Without(front, gone) else Without(front, gone) + [o]
  }

  // ------------------------------------------------------------ class lineage

  /** typename -> latest cid, cid -> shape, the cids whose types row is durable, and the cid counter. */
  datatype Lineage = Lineage(latest: map<string, Cid>, shapeOf: map<Cid, Shape>, durable: set<Cid>, nextCid: nat)

  const NO_LINEAGE := Lineage(map[], map[], {}, CID_BASE)

  ghost predicate LineageOk(l: Lineage) {
    && l.durable <= l.shapeOf.Keys
    && (forall c :: c in l.shapeOf ==> c < l.nextCid)
    && (forall t :: t in l.latest ==> l.latest[t] in l.shapeOf)
  }

  function KnownCid(l: Lineage, shape: Shape): Option<Cid> {
    if shape.typename in l.latest && l.latest[shape.typename] in l.shapeOf
       && l.shapeOf[l.latest[shape.typename]] == shape
    then Some(l.latest[shape.typename]) else None
  }

  /** The lineage row of a shape, allocated on first sight and after a field-shape change. */
  function CidFor(l: Lineage, shape: Shape): (Lineage, Cid) {
    match KnownCid(l, shape)
    case Some(c) => (l, c)
    case None =>
      (l.(latest := l.latest[shape.typename := l.nextCid],
          shapeOf := l.shapeOf[l.nextCid := shape],
          nextCid := l.nextCid + 1), l.nextCid)
  }

  function HasRow(rows: seq<TypeRow>, c: Cid): bool {
    exists i :: 0 <= i < |rows| && rows[i].cid == c
  }

  /** A batch carries every lineage row it uses that is not yet durable, not only the new ones. */
  function AddRow(rows: seq<TypeRow>, durable: set<Cid>, c: Cid, shape: Shape): seq<TypeRow> {
    if c !in durable && !HasRow(rows, c) then rows + [TypeRow(c, shape)] else rows
  }

  datatype Encoded = Encoded(lineage: Lineage, rows: seq<TypeRow>, records: seq<(Oid, Cid, Bytes)>, ok: bool)

  /** Encodes the captured entities in order; a rejected value stops it, class ids already
      allocated stay allocated. */
  function Encode(l: Lineage, live: map<Oid, Entity>, oids: seq<Oid>): Encoded
    requires forall o :: o in oids ==> o in live
  {
    if oids == [] then Encoded(l, [], [], true)
    else
      assert forall o :: o in oids[..|oids| - 1] ==> o in oids;
      var e := Encode(l, live, oids[..|oids| - 1]);
      if !e.ok then e
      else
        var o := oids[|oids| - 1];
        var (l', c) := CidFor(e.lineage, live[o].shape);
        var rows := AddRow(e.rows, l'.durable, c, live[o].shape);
        if live[o].value.encodable
        then Encoded(l', rows, e.records + [(o, c, live[o].value.bytes)], true)
        else Encoded(l', rows, e.records, false)
  }

  // -------------------------------------------------------------------- store

  datatype Capture = Capture(tid: Tid, batch: Batch, flipped: seq<(Oid, Life)>, delta: Option<Delta>, deletes: seq<Oid>)

  datatype StoreState = StoreState(
    nextOid: nat, nextTid: nat, lastTid: nat, lineage: Lineage,
    live: map<Oid, Entity>, inserts: seq<Oid>, dirty: seq<Oid>, deleted: seq<Oid>,
    root: Option<Oid>)

  /** The entities a commit captures: inserts, then updates; a buffered delete wins over both. */
  function Pending(s: StoreState): seq<Oid> {
    Without(PutEach(s.inserts, s.dirty), ToSet(s.deleted))
  }

  function SetLife(live: map<Oid, Entity>, oids: set<Oid>, life: Life): map<Oid, Entity> {
    map o | o in live :: if o in oids then live[o].(life := life) else live[o]
  }

  // User steps -----------------------------------------------------------------

  function StoreNew(s: StoreState, shape: Shape, value: Value): StoreState {
    s.(nextOid := s.nextOid + 1,
       live := s.live[s.nextOid := Entity(New, shape, value)],
       inserts := Put(s.inserts, s.nextOid))
  }

  /** A hooked attribute write. The first write to a clean entity buffers it; a deleted one refuses. */
  function Write(s: StoreState, o: Oid, value: Value): StoreState
    requires o in s.live
  {
    var e := s.live[o];
    match e.life
    case Deleted => s
    case Clean => s.(live := s.live[o := e.(life := Dirty, value := value)], dirty := Put(s.dirty, o))
    case _ => s.(live := s.live[o := e.(value := value)])
  }

  /** The root holder is refused; a pending insert is cancelled; anything else, also an instance that is
      deleted already, gets a buffered deletion, which wins over a buffered write. */
  function DeleteOid(s: StoreState, o: Oid): StoreState {
    if s.root == Some(o) then s
    else if o in s.live && s.live[o].life == New then
      s.(inserts := Without(s.inserts, {o}), dirty := Without(s.dirty, {o}), live := SetLife(s.live, {o}, Deleted))
    else
      s.(dirty := Without(s.dirty, {o}), deleted := Put(s.deleted, o), live := SetLife(s.live, {o}, Deleted))
  }

  /** Deleting an instance twice is deleting it once. */
  function DeleteInstance(s: StoreState, o: Oid): StoreState {
    if o in s.live && s.live[o].life == Deleted then s else DeleteOid(s, o)
  }

  /** Deleting by unique key asks only whether the record found is among the buffered deletions. */
  function DeleteByKey(s: StoreState, o: Oid): StoreState {
    if o in s.deleted then s else DeleteOid(s, o)
  }

  function Hydrate(s: StoreState, o: Oid, shape: Shape, rec: StoredRecord): StoreState {
    s.(live := s.live[o := Entity(Clean, shape, Value(rec.payload, true))])
  }

  /** A clean entity nobody refers to any more is collected. */
  function Forget(s: StoreState, o: Oid): StoreState {
    s.(live := s.live - {o})
  }

  // P1 -------------------------------------------------------------------------

  function Stamp(records: seq<(Oid, Cid, Bytes)>, tid: Tid): seq<StoredRecord> {
    seq(|records|, i requires 0 <= i < |records| => StoredRecord(records[i].0, records[i].1, tid, records[i].2))
  }

  /** The durable payload of every captured entity that has one to show. */
  function Priors(objects: map<Oid, StoredRecord>, pending: seq<Oid>, inserts: seq<Oid>): map<Oid, Bytes> {
    map o | o in pending && o !in inserts && o in objects :: objects[o].payload
  }

  function Tombstones(objects: map<Oid, StoredRecord>, deletes: seq<Oid>): seq<(Oid, Cid, Bytes)>
    requires forall o :: o in deletes ==> o in objects
  {
    seq(|deletes|, i requires 0 <= i < |deletes| =>
      assert deletes[i] in deletes; (deletes[i], objects[deletes[i]].cid, objects[deletes[i]].payload))
  }

  predicate PriorsReadable(objects: map<Oid, StoredRecord>, pending: seq<Oid>, inserts: seq<Oid>, deletes: seq<Oid>) {
    && (forall o :: o in pending && o !in inserts ==> o in objects)
    && (forall o :: o in deletes ==> o in objects)
  }

  datatype P1Result = Nothing | Rejected | Captured(capture: Capture)

  function Flips(live: map<Oid, Entity>, pending: seq<Oid>): seq<(Oid, Life)>
    requires forall o :: o in pending ==> o in live
  {
    seq(|pending|, i requires 0 <= i < |pending| => assert pending[i] in pending; (pending[i], live[pending[i]].life))
  }

  function MakeCapture(s: StoreState, e: Encoded, objects: map<Oid, StoredRecord>, watched: bool, actor: nat, at: int): Capture
    requires forall o :: o in Pending(s) ==> o in s.live
    requires watched ==> PriorsReadable(objects, Pending(s), s.inserts, s.deleted)
  {
    var records := Stamp(e.records, s.nextTid);
    Capture(s.nextTid,
            Batch(s.nextTid, records, e.rows, s.deleted, Meta(s.nextOid, e.lineage.nextCid, s.nextTid + 1, s.root)),
            Flips(s.live, Pending(s)),
            if watched
            then Some(BuildDelta(s.nextTid, records, e.rows, s.root, Priors(objects, Pending(s), s.inserts),
                                 Tombstones(objects, s.deleted), actor, at))
            else None,
            s.deleted)
  }

  /** Discovery walks everything buffered and refuses an entity that is deleted. */
  predicate HoldsDeleted(s: StoreState) {
    exists o :: o in s.inserts + s.dirty && o in s.live && s.live[o].life == Deleted
  }

  /** P1. `veto` is the verdict of the validators: unique keys, dangling deletes, the write gate. */
  function P1(s: StoreState, objects: map<Oid, StoredRecord>, watched: bool, veto: bool, actor: nat, at: int)
    : (StoreState, P1Result)
    requires forall o :: o in Pending(s) ==> o in s.live
  {
    var pending := Pending(s);
    if HoldsDeleted(s) then (s, Rejected)
    else if pending == [] && s.deleted == [] then (s, Nothing)
    else if veto then (s, Rejected)
    else
      var e := Encode(s.lineage, s.live, pending);
      if !e.ok || (watched && !PriorsReadable(objects, pending, s.inserts, s.deleted))
      then (s.(lineage := e.lineage), Rejected)
      else
        (s.(lineage := e.lineage, nextTid := s.nextTid + 1,
            live := SetLife(s.live, ToSet(pending), Clean), inserts := [], dirty := [], deleted := []),
         Captured(MakeCapture(s, e, objects, watched, actor, at)))
  }

  // Rollback and P3 --------------------------------------------------------------

  function PriorNew(flipped: seq<(Oid, Life)>): seq<Oid> {
    if flipped == [] then []
    else
      var (o, prior) := flipped[|flipped| - 1];
      if prior == New then PriorNew(flipped[..|flipped| - 1]) + [o] else PriorNew(flipped[..|flipped| - 1])
  }

  function PriorOther(flipped: seq<(Oid, Life)>): seq<Oid> {
    if flipped == [] then []
    else
      var (o, prior) := flipped[|flipped| - 1];
      if prior != New then PriorOther(flipped[..|flipped| - 1]) + [o] else PriorOther(flipped[..|flipped| - 1])
  }

  /** Puts the captured set back: never-durable entities into `inserts` alone, the others into `dirty`. */
  function Rollback(s: StoreState, c: Capture): StoreState {
    var wasNew, wasOther := PriorNew(c.flipped), PriorOther(c.flipped);
    s.(nextTid := c.tid,
       live := SetLife(SetLife(s.live, ToSet(wasNew), New), ToSet(wasOther), Dirty),
       inserts := PutEach(s.inserts, wasNew),
       dirty := PutEach(Without(s.dirty, ToSet(wasNew)), wasOther),
       deleted := PutEach(s.deleted, c.deletes))
  }

  function CidsOf(rows: seq<TypeRow>): set<Cid> {
    set r | r in rows :: r.cid
  }

  function P3(s: StoreState, c: Capture): StoreState {
    s.(live := SetLife(s.live, ToSet(c.deletes), Deleted),
       lineage := s.lineage.(durable := s.lineage.durable + CidsOf(c.batch.newTypes)),
       lastTid := c.tid)
  }

  /** What opening the store reads back from the backend. */
  function Boot(b: BackendState): StoreState {
    StoreState(b.meta.nextOid, b.meta.nextTid, if b.meta.nextTid > 0 then b.meta.nextTid - 1 else 0, BootLineage(b.types, b.meta.nextCid),
               map[], [], [], [], b.meta.root)
  }

  function BootLineage(rows: seq<TypeRow>, nextCid: nat): Lineage {
    if rows == [] then NO_LINEAGE.(nextCid := nextCid)
    else
      var l := BootLineage(rows[..|rows| - 1], nextCid);
      var r := rows[|rows| - 1];
      l.(latest := l.latest[r.shape.typename := r.cid], shapeOf := l.shapeOf[r.cid := r.shape],
         durable := l.durable + {r.cid})
  }
}
