/**
 The store object: buffers, id counters and class lineage updated in place by the user's writes
 and by the phases of a commit. Each method is proved to do what `Commit` says of it.
 */
module StoreObject {
  import opened Wire
  import opened Commit

  datatype DeleteResult = Accepted | Ignored | RootRefused
  datatype AttachResult = Attached | BehindStore | AheadOfStore | AlreadyAttached

  class Store {
    const backend: MemoryBackend
    const consumer: ReferenceApplier
    var watched: bool

    var nextOid: nat
    var nextTid: nat
    var lastTid: nat
    var lineage: Lineage
    var live: map<Oid, Entity>
    var inserts: seq<Oid>
    var dirty: seq<Oid>
    var deleted: seq<Oid>
    var root: Option<Oid>

    ghost function View(): StoreState
      reads this
    {
      StoreState(nextOid, nextTid, lastTid, lineage, live, inserts, dirty, deleted, root)
    }

    /** Opens a store over a backend. */
    constructor (b: MemoryBackend, a: ReferenceApplier, attach: bool)
      requires b.meta.nextTid >= 1
      ensures backend == b && consumer == a && watched == attach
      ensures View() == Boot(b.View())
    {
      backend, consumer, watched := b, a, attach;
      nextOid, nextTid, lastTid, lineage, root := 0, 0, 0, NO_LINEAGE, None;
      live, inserts, dirty, deleted := map[], [], [], [];
      new;
      LoadState();
    }

    /** Ids, watermark, root and lineage come from what the backend persisted. */
    method LoadState()
      requires backend.meta.nextTid >= 1
      modifies this
      ensures View() == Boot(backend.View()) && watched == old(watched)
    {
      nextOid, nextTid, lastTid := backend.meta.nextOid, backend.meta.nextTid, backend.meta.nextTid - 1;
      live, inserts, dirty, deleted, root := map[], [], [], [], backend.meta.root;
      lineage := NO_LINEAGE.(nextCid := backend.meta.nextCid);
      for i := 0 to |backend.types|
        invariant lineage == BootLineage(backend.types[..i], backend.meta.nextCid)
        invariant View() == Boot(backend.View()).(lineage := lineage) && watched == old(watched)
      {
        assert backend.types[..i + 1][..i] == backend.types[..i];
        var r := backend.types[i];
        lineage := lineage.(latest := lineage.latest[r.shape.typename := r.cid],
                            shapeOf := lineage.shapeOf[r.cid := r.shape],
                            durable := lineage.durable + {r.cid});
      }
      assert backend.types[..|backend.types|] == backend.types;
    }

    /** Drops every buffer and re-reads the committed state; the consumer stays attached. */
    method Discard() returns (watermark: nat)
      requires backend.meta.nextTid >= 1
      modifies this
      ensures View() == Boot(backend.View()) && watched == old(watched) && watermark == backend.meta.nextTid - 1
    {
      LoadState();
      watermark := lastTid;
    }

    /** The consumer joins at the store's watermark or not at all: deltas are not retained. A commit in
        flight is not looked at. */
    method Attach() returns (result: AttachResult)
      modifies this`watched
      ensures result == Attached <==> !old(watched) && consumer.watermark == lastTid
      ensures result == BehindStore <==> consumer.watermark < lastTid
      ensures result == AheadOfStore <==> consumer.watermark > lastTid
      ensures watched == (old(watched) || result == Attached)
    {
      if consumer.watermark < lastTid {
        return BehindStore;
      }
      if consumer.watermark > lastTid {
        return AheadOfStore;
      }
      if watched {
        return AlreadyAttached;
      }
      watched := true;
      result := Attached;
    }

    /** Refused when the consumer is not attached. */
    method Detach() returns (found: bool)
      modifies this`watched
      ensures found == old(watched) && !watched
    {
      found := watched;
      watched := false;
    }

    method StoreEntity(shape: Shape, value: Value) returns (oid: Oid)
      modifies this
      ensures oid == old(nextOid) && View() == StoreNew(old(View()), shape, value) && watched == old(watched)
    {
      oid := nextOid;
      nextOid := nextOid + 1;
      live := live[oid := Entity(New, shape, value)];
      inserts := Put(inserts, oid);
    }

    /** A hooked write: the flip to dirty happens before the mutation lands. */
    method WriteField(o: Oid, value: Value) returns (refused: bool)
      requires o in live
      modifies this
      ensures refused == (old(live)[o].life == Deleted)
      ensures View() == Write(old(View()), o, value) && watched == old(watched)
    {
      if live[o].life == Deleted {
        return true;
      }
      if live[o].life == Clean {
        OnFirstWrite(o);
      }
      live := live[o := live[o].(value := value)];
      refused := false;
    }

    method OnFirstWrite(o: Oid)
      requires o in live
      modifies this
      ensures View() == old(View()).(live := old(live)[o := old(live)[o].(life := Dirty)], dirty := Put(old(dirty), o))
      ensures watched == old(watched)
    {
      live := live[o := live[o].(life := Dirty)];
      dirty := Put(dirty, o);
    }

    /** By instance: a second call finds it deleted and does nothing. */
    method DeleteEntity(o: Oid) returns (r: DeleteResult)
      requires o in live
      modifies this
      ensures View() == DeleteInstance(old(View()), o) && watched == old(watched)
      ensures r == (if old(live)[o].life == Deleted then Ignored else if old(root) == Some(o) then RootRefused else Accepted)
    {
      if live[o].life == Deleted {
        return Ignored;
      }
      r := DeleteRecord(o);
    }

    /** By unique key: `found` is what the index answers, loaded or not. */
    method DeleteKeyed(found: Option<Oid>) returns (r: DeleteResult)
      modifies this
      ensures View() == (if found.Some? then DeleteByKey(old(View()), found.value) else old(View())) && watched == old(watched)
      ensures r == (if found.None? || found.value in old(deleted) then Ignored
                    else if old(root) == found then RootRefused else Accepted)
    {
      if found.None? || found.value in deleted {
        return Ignored;
      }
      r := DeleteRecord(found.value);
    }

    /** What both deletes end in. Nothing here asks whether the instance is deleted already. */
    method DeleteRecord(o: Oid) returns (r: DeleteResult)
      modifies this
      ensures View() == DeleteOid(old(View()), o) && watched == old(watched)
      ensures r == if old(root) == Some(o) then RootRefused else Accepted
    {
      if root == Some(o) {
        return RootRefused;
      }
      dirty := Without(dirty, {o});
      if o in live && live[o].life == New {
        inserts := Without(inserts, {o});
      } else {
        deleted := Put(deleted, o);
      }
      BarInstance(o);
      r := Accepted;
    }

    /** Write-bars the live instance of a deleted record, if there is one. */
    method BarInstance(o: Oid)
      modifies this`live
      ensures live == SetLife(old(live), {o}, Deleted)
    {
      if o in live {
        live := live[o := live[o].(life := Deleted)];
      }
    }

    // ---------------------------------------------------------------- phase 1

    /** Discovery visits everything buffered, inserts first, and stops at a deleted instance. */
    method DiscoverDeleted() returns (found: bool)
      requires forall o :: o in inserts || o in dirty ==> o in live
      ensures found == HoldsDeleted(View())
    {
      var buffered := inserts + dirty;
      for i := 0 to |buffered|
        invariant forall k :: 0 <= k < i ==> live[buffered[k]].life != Deleted
      {
        assert buffered[i] in buffered;
        if live[buffered[i]].life == Deleted {
          return true;
        }
      }
      found := false;
    }

    method CidForShape(shape: Shape) returns (c: Cid)
      modifies this`lineage
      ensures (lineage, c) == CidFor(old(lineage), shape)
    {
      var known := KnownCid(lineage, shape);
      if known.Some? {
        return known.value;
      }
      c := lineage.nextCid;
      lineage := lineage.(latest := lineage.latest[shape.typename := c],
                          shapeOf := lineage.shapeOf[c := shape], nextCid := c + 1);
    }

    method EncodePending(pending: seq<Oid>) returns (rows: seq<TypeRow>, records: seq<(Oid, Cid, Bytes)>, ok: bool)
      requires forall o :: o in pending ==> o in live
      modifies this`lineage
      ensures Encoded(lineage, rows, records, ok) == Encode(old(lineage), live, pending)
    {
      rows, records := [], [];
      for i := 0 to |pending|
        invariant Encoded(lineage, rows, records, true) == Encode(old(lineage), live, pending[..i])
      {
        assert pending[..i + 1][..i] == pending[..i] && pending[i] in pending;
        var o := pending[i];
        var c := CidForShape(live[o].shape);
        rows := AddRow(rows, lineage.durable, c, live[o].shape);
        if !live[o].value.encodable {
          EncodeStops(old(lineage), live, pending, i + 1);
          return rows, records, false;
        }
        records := records + [(o, c, live[o].value.bytes)];
      }
      assert pending[..|pending|] == pending;
      ok := true;
    }

    method ReadDeltaPriors(pending: seq<Oid>) returns (ok: bool, priors: map<Oid, Bytes>, tombstones: seq<(Oid, Cid, Bytes)>)
      ensures ok == PriorsReadable(backend.objects, pending, inserts, deleted)
      ensures ok ==> priors == Priors(backend.objects, pending, inserts)
      ensures ok ==> tombstones == Tombstones(backend.objects, deleted)
    {
      priors, tombstones := map[], [];
      for i := 0 to |pending|
        invariant priors == Priors(backend.objects, pending[..i], inserts)
        invariant forall o :: o in pending[..i] && o !in inserts ==> o in backend.objects
      {
        var o := pending[i];
        assert pending[..i + 1] == pending[..i] + [o];
        if o !in inserts {
          if o !in backend.objects {
            assert o in pending;
            return false, priors, tombstones;
          }
          priors := priors[o := backend.objects[o].payload];
        }
      }
      assert pending[..|pending|] == pending;
      for i := 0 to |deleted|
        invariant forall k :: 0 <= k < i ==> deleted[k] in backend.objects
        invariant |tombstones| == i
        invariant forall k :: 0 <= k < i ==>
          tombstones[k] == (deleted[k], backend.objects[deleted[k]].cid, backend.objects[deleted[k]].payload)
      {
        var o := deleted[i];
        if o !in backend.objects {
          assert o in deleted;
          return false, priors, tombstones;
        }
        tombstones := tombstones + [(o, backend.objects[o].cid, backend.objects[o].payload)];
      }
      ok := true;
    }

    method CollectPending() returns (pending: seq<Oid>)
      ensures pending == Pending(View())
    {
      hide Put, Without;
      pending := inserts;
      for i := 0 to |dirty|
        invariant pending == PutEach(inserts, dirty[..i])
      {
        assert dirty[..i + 1][..i] == dirty[..i];
        pending := Put(pending, dirty[i]);
      }
      assert dirty[..|dirty|] == dirty;
      ghost var buffered := pending;
      WithoutNothing(buffered);
      assert ToSet(deleted[..0]) == {};
      for i := 0 to |deleted|
        invariant pending == Without(buffered, ToSet(deleted[..i]))
      {
        assert ToSet(deleted[..i + 1]) == ToSet(deleted[..i]) + {deleted[i]};
        WithoutTwice(buffered, ToSet(deleted[..i]), {deleted[i]});
        pending := Without(pending, {deleted[i]});
      }
      assert deleted[..|deleted|] == deleted;
    }

    method FlipCaptured(pending: seq<Oid>) returns (flipped: seq<(Oid, Life)>)
      requires NoDup(pending) && forall o :: o in pending ==> o in live
      modifies this`live
      ensures flipped == Flips(old(live), pending)
      ensures live == SetLife(old(live), ToSet(pending), Clean)
    {
      flipped := [];
      for i := 0 to |pending|
        invariant |flipped| == i && forall k :: 0 <= k < i ==> flipped[k] == (pending[k], old(live)[pending[k]].life)
        invariant live == SetLife(old(live), ToSet(pending[..i]), Clean)
      {
        var o := pending[i];
        assert ToSet(pending[..i + 1]) == ToSet(pending[..i]) + {o} && o !in pending[..i];
        flipped := flipped + [(o, live[o].life)];
        live := live[o := live[o].(life := Clean)];
      }
      assert pending[..|pending|] == pending;
    }

    method P1Capture(veto: bool, actor: nat, at: int) returns (result: P1Result)
      requires NoDup(inserts) && forall o :: o in inserts || o in dirty ==> o in live
      modifies this
      ensures (View(), result) == P1(old(View()), backend.objects, watched, veto, actor, at)
      ensures watched == old(watched)
    {
      var refused := DiscoverDeleted();
      if refused {
        return Rejected;
      }
      var pending := CollectPending();
      if pending == [] && deleted == [] {
        return Nothing;
      }
      if veto {
        return Rejected;
      }
      var rows, records, encoded := EncodePending(pending);
      if !encoded {
        return Rejected;
      }
      var priors, tombstones := map[], [];
      if watched {
        var readable;
        readable, priors, tombstones := ReadDeltaPriors(pending);
        if !readable {
          return Rejected;
        }
      }
      PendingNoDup(old(View()));
      var c := SealCapture(pending, rows, records, priors, tombstones, actor, at);
      result := Captured(c);
    }

    /** The TID, the batch, the delta and the flip: nothing after this point can reject. */
    method SealCapture(pending: seq<Oid>, rows: seq<TypeRow>, records: seq<(Oid, Cid, Bytes)>,
                       priors: map<Oid, Bytes>, tombstones: seq<(Oid, Cid, Bytes)>, actor: nat, at: int) returns (c: Capture)
      requires NoDup(pending) && forall o :: o in pending ==> o in live
      modifies this
      ensures c.tid == c.batch.tid == old(nextTid)
      ensures c.batch == Batch(c.tid, Stamp(records, c.tid), rows, old(deleted),
                               Meta(old(nextOid), old(lineage).nextCid, c.tid + 1, old(root)))
      ensures c.flipped == Flips(old(live), pending) && c.deletes == old(deleted)
      ensures c.delta == if old(watched)
        then Some(BuildDelta(c.tid, Stamp(records, c.tid), rows, old(root), priors, tombstones, actor, at)) else None
      ensures View() == old(View()).(nextTid := c.tid + 1, live := SetLife(old(live), ToSet(pending), Clean),
                                     inserts := [], dirty := [], deleted := [])
      ensures watched == old(watched)
    {
      var tid := nextTid;
      nextTid := nextTid + 1;
      var stamped := Stamp(records, tid);
      var batch := Batch(tid, stamped, rows, deleted, Meta(nextOid, lineage.nextCid, nextTid, root));
      var delta := if watched then Some(BuildDelta(tid, stamped, rows, root, priors, tombstones, actor, at)) else None;
      var flipped := FlipCaptured(pending);
      c := Capture(tid, batch, flipped, delta, deleted);
      inserts, dirty, deleted := [], [], [];
    }

    // ------------------------------------------------------- rollback, phase 3

    method P2Rollback(c: Capture)
      requires DistinctFlips(c.flipped) && forall i :: 0 <= i < |c.flipped| ==> c.flipped[i].0 in live
      modifies this
      ensures View() == Rollback(old(View()), c) && watched == old(watched)
    {
      nextTid := c.tid;
      NothingRolledBack(old(View()), c);
      for i := 0 to |c.flipped|
        invariant watched == old(watched)
        invariant View() == Rollback(old(View()), c.(flipped := c.flipped[..i], deletes := []))
      {
        RollbackOneMore(old(View()), c, i);
        Rebuffer(c.flipped[i].0, c.flipped[i].1);
      }
      assert c.flipped[..|c.flipped|] == c.flipped;
      RebufferDeletes(c.deletes);
    }

    method RebufferDeletes(deletes: seq<Oid>)
      modifies this`deleted
      ensures deleted == PutEach(old(deleted), deletes)
    {
      for i := 0 to |deletes|
        invariant deleted == PutEach(old(deleted), deletes[..i])
      {
        assert deletes[..i + 1][..i] == deletes[..i];
        deleted := Put(deleted, deletes[i]);
      }
      assert deletes[..|deletes|] == deletes;
    }

    method Rebuffer(o: Oid, prior: Life)
      requires o in live
      modifies this
      ensures View() == Rebuffered(old(View()), o, prior) && watched == old(watched)
    {
      if prior == New {
        live := live[o := live[o].(life := New)];
        dirty := Without(dirty, {o}); // a racing write during the failed P2
        inserts := Put(inserts, o);
      } else {
        live := live[o := live[o].(life := Dirty)];
        dirty := Put(dirty, o);
      }
    }

    /** P3: bar the deleted instances, learn the durable class ids, move the watermark, deliver. */
    method P3Finalize(c: Capture) returns (tid: Tid)
      modifies this, consumer
      ensures tid == c.tid && View() == P3(old(View()), c)
      ensures var delivered := c.delta.Some? && old(watched);
        var (a, verdict) := if delivered then ApplierStep(old(consumer.View()), c.delta.value) else (old(consumer.View()), Advanced);
        && consumer.View() == a
        && watched == (if delivered then verdict == Advanced && a.watermark == c.delta.value.tid else old(watched))
    {
      for i := 0 to |c.deletes|
        invariant View() == old(View()).(live := SetLife(old(live), ToSet(c.deletes[..i]), Deleted))
        invariant watched == old(watched) && consumer.View() == old(consumer.View())
      {
        assert ToSet(c.deletes[..i + 1]) == ToSet(c.deletes[..i]) + {c.deletes[i]};
        BarInstance(c.deletes[i]);
      }
      assert c.deletes[..|c.deletes|] == c.deletes;
      lineage := lineage.(durable := lineage.durable + CidsOf(c.batch.newTypes));
      lastTid := c.tid;
      if c.delta.Some? && watched {
        var verdict := consumer.Apply(c.delta.value);
        if verdict != Advanced || consumer.watermark != c.delta.value.tid {
          watched := false;
        }
      }
      tid := c.tid;
    }

    /** The synchronous commit: capture, apply, and either finalize or roll back. */
    method CommitNow(veto: bool, sourcesReadable: bool, actor: nat, at: int) returns (tid: Option<Tid>, failed: bool)
      requires NoDup(inserts) && forall o :: o in inserts || o in dirty ==> o in live
      modifies this, backend, consumer
      ensures var (s, result) := P1(old(View()), old(backend.objects), old(watched), veto, actor, at);
        match result
        case Captured(c) =>
          && failed == !sourcesReadable && tid == (if failed then None else Some(c.tid))
          && View() == (if failed then Rollback(s, c) else P3(s, c))
          && backend.View() == (if failed then old(backend.View()) else ApplyBatch(old(backend.View()), c.batch))
          && (failed ==> consumer.View() == old(consumer.View()))
        case _ => View() == s && backend.View() == old(backend.View()) && tid.None? && failed == result.Rejected?
    {
      PendingNoDup(View());
      var result := P1Capture(veto, actor, at);
      match result {
        case Nothing => return None, false;
        case Rejected => return None, true;
        case Captured(c) =>
          var applied := backend.Apply(c.batch, sourcesReadable);
          if applied {
            var t := P3Finalize(c);
            return Some(t), false;
          }
          P2Rollback(c);
          return None, true;
      }
    }
  }

  // ------------------------------------------------------------ helper lemmas

  lemma PendingNoDup(s: StoreState)
    requires NoDup(s.inserts)
    ensures NoDup(Pending(s))
  {
  }

  lemma {:induction false} EncodeStops(l: Lineage, live: map<Oid, Entity>, oids: seq<Oid>, n: nat)
    requires n <= |oids| && (forall o :: o in oids ==> o in live)
    requires (forall o :: o in oids[..n] ==> o in live) && !Encode(l, live, oids[..n]).ok
    ensures Encode(l, live, oids) == Encode(l, live, oids[..n])
    decreases |oids|
  {
    if n == |oids| {
      assert oids[..n] == oids;
    } else {
      var front := oids[..|oids| - 1];
      assert front[..n] == oids[..n];
      EncodeStops(l, live, front, n);
    }
  }

  lemma {:induction false} WithoutNothing(s: seq<Oid>)
    ensures Without(s, {}) == s
  {
    if s != [] {
      WithoutNothing(s[..|s| - 1]);
      assert s == s[..|s| - 1] + [s[|s| - 1]];
    }
  }

  lemma {:induction false} WithoutAppend(s: seq<Oid>, o: Oid, gone: set<Oid>)
    ensures Without(s + [o], gone) == if o in gone then Without(s, gone) else Without(s, gone) + [o]
  {
    assert (s + [o])[..|s|] == s;
  }

  lemma {:induction false} WithoutTwice(s: seq<Oid>, a: set<Oid>, b: set<Oid>)
    ensures Without(Without(s, a), b) == Without(s, a + b)
  {
    if s != [] {
      var front, o := s[..|s| - 1], s[|s| - 1];
      WithoutTwice(front, a, b);
      if o !in a {
        WithoutAppend(Without(front, a), o, b);
      }
    }
  }

  /** Removing a key commutes with assigning other keys. */
  lemma {:induction false} WithoutPutEach(s: seq<Oid>, os: seq<Oid>, o: Oid)
    requires o !in os
    ensures Without(PutEach(s, os), {o}) == PutEach(Without(s, {o}), os)
  {
    if os != [] {
      var front, x := os[..|os| - 1], os[|os| - 1];
      assert os == front + [x];
      WithoutPutEach(s, front, o);
      WithoutAppend(PutEach(s, front), x, {o});
    }
  }

  ghost predicate DistinctFlips(flipped: seq<(Oid, Life)>) {
    forall i, j :: 0 <= i < j < |flipped| ==> flipped[i].0 != flipped[j].0
  }

  lemma {:induction false} FlipMembers(flipped: seq<(Oid, Life)>)
    ensures forall o :: o in PriorNew(flipped) || o in PriorOther(flipped) ==>
              exists i :: 0 <= i < |flipped| && flipped[i].0 == o
  {
    if flipped != [] {
      var front := flipped[..|flipped| - 1];
      FlipMembers(front);
      forall o | o in PriorNew(flipped) || o in PriorOther(flipped)
        ensures exists i :: 0 <= i < |flipped| && flipped[i].0 == o
      {
        if o in PriorNew(front) || o in PriorOther(front) {
          var i :| 0 <= i < |front| && front[i].0 == o;
          assert flipped[i].0 == o;
        } else {
          assert flipped[|flipped| - 1].0 == o;
        }
      }
    }
  }

  lemma FlipNotYetSeen(flipped: seq<(Oid, Life)>, i: nat)
    requires i < |flipped| && DistinctFlips(flipped)
    ensures flipped[i].0 !in PriorNew(flipped[..i]) && flipped[i].0 !in PriorOther(flipped[..i])
  {
    FlipMembers(flipped[..i]);
  }

  function Rebuffered(s: StoreState, o: Oid, prior: Life): StoreState
    requires o in s.live
  {
    if prior == New
    then s.(live := s.live[o := s.live[o].(life := New)], dirty := Without(s.dirty, {o}), inserts := Put(s.inserts, o))
    else s.(live := s.live[o := s.live[o].(life := Dirty)], dirty := Put(s.dirty, o))
  }

  lemma NothingRolledBack(s: StoreState, c: Capture)
    ensures Rollback(s, c.(flipped := [], deletes := [])) == s.(nextTid := c.tid)
  {
    WithoutNothing(s.dirty);
    assert ToSet(PriorNew([])) == {} == ToSet(PriorOther([]));
    assert SetLife(SetLife(s.live, {}, New), {}, Dirty) == s.live;
  }

  /** The store with these captured entities back in their buffers. */
  ghost function Back(s: StoreState, tid: Tid, wasNew: seq<Oid>, wasOther: seq<Oid>): StoreState {
    s.(nextTid := tid,
       live := SetLife(SetLife(s.live, ToSet(wasNew), New), ToSet(wasOther), Dirty),
       inserts := PutEach(s.inserts, wasNew),
       dirty := PutEach(Without(s.dirty, ToSet(wasNew)), wasOther))
  }

  lemma RollbackIsBack(s: StoreState, c: Capture)
    requires c.deletes == []
    ensures Rollback(s, c) == Back(s, c.tid, PriorNew(c.flipped), PriorOther(c.flipped))
  {
    hide Put, Without, SetLife, PriorNew, PriorOther;
  }

  lemma PriorNext(flipped: seq<(Oid, Life)>, i: nat)
    requires i < |flipped|
    ensures var (o, prior) := flipped[i];
      && PriorNew(flipped[..i + 1]) == (if prior == New then PriorNew(flipped[..i]) + [o] else PriorNew(flipped[..i]))
      && PriorOther(flipped[..i + 1]) == (if prior == New then PriorOther(flipped[..i]) else PriorOther(flipped[..i]) + [o])
  {
    assert flipped[..i + 1][..i] == flipped[..i];
  }

  /** Re-buffering the captured entities one at a time, in capture order, is the rollback. */
  lemma RollbackOneMore(s: StoreState, c: Capture, i: nat)
    requires DistinctFlips(c.flipped) && i < |c.flipped| && c.flipped[i].0 in s.live
    ensures Rollback(s, c.(flipped := c.flipped[..i], deletes := [])).live.Keys == s.live.Keys
    ensures Rebuffered(Rollback(s, c.(flipped := c.flipped[..i], deletes := [])), c.flipped[i].0, c.flipped[i].1)
         == Rollback(s, c.(flipped := c.flipped[..i + 1], deletes := []))
  {
    FlipNotYetSeen(c.flipped, i);
    PriorNext(c.flipped, i);
    hide Rollback, Rebuffered, DistinctFlips, PriorNew, PriorOther;
    RollbackIsBack(s, c.(flipped := c.flipped[..i], deletes := []));
    RollbackIsBack(s, c.(flipped := c.flipped[..i + 1], deletes := []));
    BackKeys(s, c.tid, PriorNew(c.flipped[..i]), PriorOther(c.flipped[..i]));
    hide Back;
    RebufferedNext(s, c.tid, PriorNew(c.flipped[..i]), PriorOther(c.flipped[..i]), c.flipped[i].0, c.flipped[i].1);
  }

  lemma BackKeys(s: StoreState, tid: Tid, wasNew: seq<Oid>, wasOther: seq<Oid>)
    ensures Back(s, tid, wasNew, wasOther).live.Keys == s.live.Keys
  {
    hide Put, Without;
  }

  lemma RebufferedNext(s: StoreState, tid: Tid, wasNew: seq<Oid>, wasOther: seq<Oid>, o: Oid, prior: Life)
    requires o in s.live && o !in wasNew && o !in wasOther
    ensures Rebuffered(Back(s, tid, wasNew, wasOther), o, prior)
         == if prior == New then Back(s, tid, wasNew + [o], wasOther) else Back(s, tid, wasNew, wasOther + [o])
  {
    LifeNext(s.live, ToSet(wasNew), ToSet(wasOther), o, prior);
    if prior == New {
      InsertNext(s, wasNew, wasOther, o);
    } else {
      PutEachAppend(Without(s.dirty, ToSet(wasNew)), wasOther, o);
      assert ToSet(wasOther + [o]) == ToSet(wasOther) + {o};
    }
  }

  lemma InsertNext(s: StoreState, wasNew: seq<Oid>, wasOther: seq<Oid>, o: Oid)
    requires o !in wasOther
    ensures ToSet(wasNew + [o]) == ToSet(wasNew) + {o}
    ensures PutEach(s.inserts, wasNew + [o]) == Put(PutEach(s.inserts, wasNew), o)
    ensures Without(PutEach(Without(s.dirty, ToSet(wasNew)), wasOther), {o})
         == PutEach(Without(s.dirty, ToSet(wasNew) + {o}), wasOther)
  {
    WithoutPutEach(Without(s.dirty, ToSet(wasNew)), wasOther, o);
    WithoutTwice(s.dirty, ToSet(wasNew), {o});
    PutEachAppend(s.inserts, wasNew, o);
  }

  lemma LifeNext(live: map<Oid, Entity>, a: set<Oid>, b: set<Oid>, o: Oid, prior: Life)
    requires o in live && o !in a && o !in b
    ensures var m := SetLife(SetLife(live, a, New), b, Dirty);
      && m[o := m[o].(life := New)] == SetLife(SetLife(live, a + {o}, New), b, Dirty)
      && m[o := m[o].(life := Dirty)] == SetLife(SetLife(live, a, New), b + {o}, Dirty)
  {
  }

  lemma PutEachAppend(s: seq<Oid>, os: seq<Oid>, o: Oid)
    ensures PutEach(s, os + [o]) == Put(PutEach(s, os), o)
  {
    assert (os + [o])[..|os|] == os;
  }
}
