/**
 Registering an object graph before a commit: a work queue gives every reachable new entity its OID
 and buffers it. The graph may be cyclic and may share objects; only new or buffered entities are
 walked, so a stored neighbourhood costs nothing.
 */
module Discovery {
  import opened Wire
  import opened Values

  /** A field with its value; `lazyRefs` fields decode their references as handles. */
  datatype Slot = Slot(value: Live, lazyRefs: bool)
  /** An entity on the heap. */
  datatype Obj = Obj(guarded: bool, redacted: bool, deleted: bool, hasRefs: bool, slots: seq<Slot>)
  type Heap = map<Entity, Obj>

  datatype Outcome = Registered | RefusedRedacted | RefusedDeleted | RefusedAnonymous | RefusedEager

  /** The entities a value holds, in walking order: directly, in a loaded handle, or inside containers. */
  function Reached(v: Live): seq<Entity>
    decreases v
  {
    match v
    case Ent(e) => [e]
    case Handle(target, _) => if target.Some? then [target.value] else []
    case Items(items) => ReachedAll(items)
    case Mapping(_, vals) => ReachedAll(vals)
    case _ => []
  }

  function ReachedAll(vs: seq<Live>): seq<Entity>
    decreases vs
  {
    if vs == [] then [] else ReachedAll(vs[..|vs| - 1]) + Reached(vs[|vs| - 1])
  }

  function SlotTargets(slots: seq<Slot>): seq<Entity> {
    if slots == [] then [] else SlotTargets(slots[..|slots| - 1]) + Reached(slots[|slots| - 1].value)
  }

  function Targets(heap: Heap, e: Entity): seq<Entity>
    requires e in heap
  {
    SlotTargets(heap[e].slots)
  }

  /** Values match their hints: references stay on the heap, and a class without reference fields has none. */
  ghost predicate WellHinted(heap: Heap) {
    forall e :: e in heap ==> HintsHold(heap, e)
  }

  ghost predicate HintsHold(heap: Heap, e: Entity)
    requires e in heap
  {
    (forall t :: t in Targets(heap, e) ==> t in heap) && (heap[e].hasRefs || Targets(heap, e) == [])
  }

  /** A guarded entity where references decode eagerly. */
  ghost predicate EagerlyGuarded(heap: Heap, es: seq<Entity>) {
    exists t :: t in es && t in heap && heap[t].guarded && !heap[t].redacted
  }

  ghost predicate HasEagerSlot(heap: Heap, e: Entity)
    requires e in heap
  {
    exists i :: 0 <= i < |heap[e].slots| && !heap[e].slots[i].lazyRefs && EagerlyGuarded(heap, Reached(heap[e].slots[i].value))
  }

  // ------------------------------------------------- what encoding then meets

  ghost predicate AllStamped(stamps: Stamps, es: seq<Entity>) {
    forall t :: t in es ==> t in stamps
  }

  /** Everything in the value can be stored at all: no unpersistable leaf, no handle without target and OID. */
  predicate Storable(v: Live)
    decreases v
  {
    match v
    case Handle(target, oid) => target.Some? || oid.Some?
    case Items(items) => AllStorable(items)
    case Mapping(_, vals) => AllStorable(vals)
    case Unpersistable => false
    case _ => true
  }

  predicate AllStorable(vs: seq<Live>)
    decreases vs
  {
    vs == [] || (AllStorable(vs[..|vs| - 1]) && Storable(vs[|vs| - 1]))
  }

  /** Encoding fails on a storable value exactly when it meets an unregistered entity. */
  lemma {:induction false} EncodableIff(v: Live, stamps: Stamps)
    ensures Swizzle(v, stamps).Some? <==> Storable(v) && AllStamped(stamps, Reached(v))
    decreases v
  {
    match v
    case Ent(e) => assert e in [e];
    case Handle(target, _) =>
      if target.Some? {
        assert target.value in Reached(v);
      }
    case Items(items) => AllEncodableIff(items, stamps);
    case Mapping(_, vals) => AllEncodableIff(vals, stamps);
    case _ =>
  }

  lemma {:induction false} AllEncodableIff(vs: seq<Live>, stamps: Stamps)
    ensures SwizzleAll(vs, stamps).Some? <==> AllStorable(vs) && AllStamped(stamps, ReachedAll(vs))
    decreases vs
  {
    if vs != [] {
      AllEncodableIff(vs[..|vs| - 1], stamps);
      EncodableIff(vs[|vs| - 1], stamps);
      var front, last := ReachedAll(vs[..|vs| - 1]), Reached(vs[|vs| - 1]);
      assert forall t :: t in front + last <==> t in front || t in last;
    }
  }

  // -------------------------------------------------------------- the buffers

  /** Who has an OID, and what is buffered for the next commit. */
  datatype Buffers = Buffers(stamps: Stamps, news: map<Oid, Entity>, dirty: map<Oid, Entity>)

  predicate Buffered(b: Buffers, o: Oid) {
    o in b.news || o in b.dirty
  }

  /** One instance per OID, and the buffers hold stamped entities. */
  ghost predicate Consistent(heap: Heap, b: Buffers) {
    && b.stamps.Keys <= heap.Keys
    && (forall x, y :: x in b.stamps && y in b.stamps && b.stamps[x] == b.stamps[y] ==> x == y)
    && (forall o :: o in b.news ==> b.news[o] in b.stamps && b.stamps[b.news[o]] == o)
    && (forall o :: o in b.dirty ==> b.dirty[o] in b.stamps && b.stamps[b.dirty[o]] == o)
  }

  /** New to the store, or buffered: only such an entity is walked. */
  predicate Wanted(b: Buffers, t: Entity) {
    t !in b.stamps || Buffered(b, b.stamps[t])
  }

  function ToQueue(b: Buffers, es: seq<Entity>): seq<Entity> {
    if es == [] then []
    else ToQueue(b, es[..|es| - 1]) + if Wanted(b, es[|es| - 1]) then [es[|es| - 1]] else []
  }

  lemma {:induction false} ToQueueConcat(b: Buffers, xs: seq<Entity>, ys: seq<Entity>)
    ensures ToQueue(b, xs + ys) == ToQueue(b, xs) + ToQueue(b, ys)
  {
    if ys == [] {
      assert xs + ys == xs;
    } else {
      assert (xs + ys)[..|xs + ys| - 1] == xs + ys[..|ys| - 1];
      ToQueueConcat(b, xs, ys[..|ys| - 1]);
    }
  }

  lemma {:induction false} ToQueueMembers(b: Buffers, es: seq<Entity>, t: Entity)
    ensures t in ToQueue(b, es) <==> t in es && Wanted(b, t)
  {
    if es != [] {
      ToQueueMembers(b, es[..|es| - 1], t);
      assert es == es[..|es| - 1] + [es[|es| - 1]];
    }
  }

  lemma ToQueueOne(heap: Heap, b: Buffers, e: Entity)
    requires e in heap
    ensures ToQueue(b, []) == [] && ToQueue(b, [e]) == if Wanted(b, e) then [e] else []
    ensures EagerlyGuarded(heap, [e]) <==> heap[e].guarded && !heap[e].redacted
  {
    assert e in [e];
    assert [e][..0] == [];
  }

  lemma ToQueueIn(b: Buffers, rest: seq<Entity>, es: seq<Entity>, t: Entity)
    ensures t in rest + ToQueue(b, es) <==> t in rest || (t in es && Wanted(b, t))
  {
    ToQueueMembers(b, es, t);
  }

  /** The target needs no more work, or is still to come. */
  ghost predicate Pending(b: Buffers, t: Entity, walked: set<Oid>, queue: seq<Entity>) {
    (t in b.stamps && (!Buffered(b, b.stamps[t]) || b.stamps[t] in walked)) || t in queue
  }

  ghost predicate WalkedEntity(b: Buffers, e: Entity, walked: set<Oid>) {
    e in b.stamps && b.stamps[e] in walked && Buffered(b, b.stamps[e])
  }

  /** The targets of every walked, buffered entity are accounted for. */
  ghost predicate Explored(heap: Heap, b: Buffers, walked: set<Oid>, queue: seq<Entity>) {
    forall e, t :: e in heap && WalkedEntity(b, e, walked) && t in Targets(heap, e) ==> Pending(b, t, walked, queue)
  }

  lemma ExploredMore(heap: Heap, b: Buffers, walked: set<Oid>, less: seq<Entity>, more: seq<Entity>)
    requires Explored(heap, b, walked, less) && forall t :: t in less ==> t in more
    ensures Explored(heap, b, walked, more)
  {
    hide Targets;
    forall e, t | e in heap && WalkedEntity(b, e, walked) && t in Targets(heap, e)
      ensures Pending(b, t, walked, more)
    {
      assert Pending(b, t, walked, less);
    }
  }

  lemma ExploredPop(heap: Heap, b: Buffers, walked: set<Oid>, e: Entity, rest: seq<Entity>)
    requires Explored(heap, b, walked, [e] + rest) && e in b.stamps && b.stamps[e] in walked
    ensures Explored(heap, b, walked, rest)
  {
    hide Targets;
    forall x, t | x in heap && WalkedEntity(b, x, walked) && t in Targets(heap, x)
      ensures Pending(b, t, walked, rest)
    {
      assert Pending(b, t, walked, [e] + rest);
    }
  }

  /** `b` with `e` stamped and buffered under `oid`. */
  function Adopt(b: Buffers, e: Entity, oid: Oid): Buffers {
    Buffers(b.stamps[e := oid], b.news[oid := e], b.dirty)
  }

  ghost predicate FreshOid(b: Buffers, oid: Oid) {
    !Buffered(b, oid) && forall x :: x in b.stamps ==> b.stamps[x] != oid
  }

  lemma AdoptConsistent(heap: Heap, b: Buffers, e: Entity, oid: Oid)
    requires Consistent(heap, b) && e in heap && e !in b.stamps && FreshOid(b, oid)
    ensures Consistent(heap, Adopt(b, e, oid))
  {
  }

  lemma ExploredAdopt(heap: Heap, b: Buffers, walked: set<Oid>, e: Entity, rest: seq<Entity>, oid: Oid)
    requires Consistent(heap, b) && e !in b.stamps && FreshOid(b, oid) && oid !in walked && Explored(heap, b, walked, [e] + rest)
    ensures Explored(heap, Adopt(b, e, oid), walked, [e] + rest)
  {
    hide Targets;
    var after := Adopt(b, e, oid);
    forall x, t | x in heap && WalkedEntity(after, x, walked) && t in Targets(heap, x)
      ensures Pending(after, t, walked, [e] + rest)
    {
      assert x != e && WalkedEntity(b, x, walked);
      assert Pending(b, t, walked, [e] + rest);
    }
  }

  /** A buffered entity was walked and its targets queued. */
  lemma ExploredNext(heap: Heap, b: Buffers, walked: set<Oid>, e: Entity, rest: seq<Entity>)
    requires Consistent(heap, b) && e in heap && e in b.stamps && Explored(heap, b, walked, [e] + rest)
    ensures Explored(heap, b, walked + {b.stamps[e]}, rest + ToQueue(b, Targets(heap, e)))
  {
    hide Targets, ToQueue;
    var q, after := rest + ToQueue(b, Targets(heap, e)), walked + {b.stamps[e]};
    forall x, t | x in heap && WalkedEntity(b, x, after) && t in Targets(heap, x)
      ensures Pending(b, t, after, q)
    {
      ToQueueIn(b, rest, Targets(heap, e), t);
      if x != e {
        assert WalkedEntity(b, x, walked);
        assert Pending(b, t, walked, [e] + rest);
      }
    }
  }

  /** An entity that is not buffered has nothing to discover. */
  lemma ExploredClean(heap: Heap, b: Buffers, walked: set<Oid>, e: Entity, rest: seq<Entity>)
    requires Consistent(heap, b) && e in b.stamps && !Buffered(b, b.stamps[e]) && Explored(heap, b, walked, [e] + rest)
    ensures Explored(heap, b, walked + {b.stamps[e]}, rest)
  {
    hide Targets;
    forall x, t | x in heap && WalkedEntity(b, x, walked + {b.stamps[e]}) && t in Targets(heap, x)
      ensures Pending(b, t, walked + {b.stamps[e]}, rest)
    {
      assert WalkedEntity(b, x, walked);
      assert Pending(b, t, walked, [e] + rest);
    }
  }

  ghost function Unwalked(heap: Heap, b: Buffers, walked: set<Oid>): set<Entity> {
    set e | e in heap && !(e in b.stamps && b.stamps[e] in walked)
  }

  lemma FewerUnwalked(heap: Heap, b: Buffers, walked: set<Oid>, e: Entity, oid: Oid, after: Buffers)
    requires e in heap && !(e in b.stamps && b.stamps[e] in walked) && FreshOid(b, oid)
    requires after == if e in b.stamps then b else Adopt(b, e, oid)
    ensures |Unwalked(heap, after, walked + {after.stamps[e]})| < |Unwalked(heap, b, walked)|
  {
    var now, before := Unwalked(heap, after, walked + {after.stamps[e]}), Unwalked(heap, b, walked);
    assert now <= before - {e};
    Smaller(now, before - {e});
  }

  /** What was there stays; what is new got an OID of its own from `start` on, is buffered and walked. */
  ghost predicate Grown(x: Buffers, y: Buffers, start: Oid, walked: set<Oid>) {
    && y.dirty == x.dirty
    && (forall e :: e in x.stamps ==> e in y.stamps && y.stamps[e] == x.stamps[e])
    && (forall e :: e in y.stamps && e !in x.stamps ==> start <= y.stamps[e] && y.stamps[e] in walked && y.stamps[e] in y.news)
    && (forall o :: o in x.news ==> o in y.news && y.news[o] == x.news[o])
    && (forall o :: o in y.news && o !in x.news ==> start <= o && o in walked)
  }

  lemma GrownStep(x: Buffers, y: Buffers, start: Oid, walked: set<Oid>, e: Entity, oid: Oid, after: Buffers)
    requires Grown(x, y, start, walked) && start <= oid && FreshOid(y, oid)
    requires after == if e in y.stamps then y else Adopt(y, e, oid)
    ensures Grown(x, after, start, walked + {after.stamps[e]})
  {
  }

  // ------------------------------------------------ the graph that is walked

  /** From a new or buffered entity to another one it holds; stored neighbours are not followed. */
  ghost predicate Edge(heap: Heap, b: Buffers, x: Entity, y: Entity) {
    x in heap && Wanted(b, x) && y in Targets(heap, x) && Wanted(b, y)
  }

  ghost predicate IsPath(heap: Heap, b: Buffers, p: seq<Entity>, x: Entity, y: Entity) {
    p != [] && p[0] == x && p[|p| - 1] == y && forall i :: 0 <= i < |p| - 1 ==> Edge(heap, b, p[i], p[i + 1])
  }

  ghost predicate Reaches(heap: Heap, b: Buffers, x: Entity, y: Entity) {
    exists p :: IsPath(heap, b, p, x, y)
  }

  lemma ReachesSelf(heap: Heap, b: Buffers, x: Entity)
    ensures Reaches(heap, b, x, x)
  {
    assert IsPath(heap, b, [x], x, x);
  }

  lemma ReachesNext(heap: Heap, b: Buffers, x: Entity, y: Entity, z: Entity)
    requires Reaches(heap, b, x, y) && Edge(heap, b, y, z)
    ensures Reaches(heap, b, x, z)
  {
    hide Edge;
    var p :| IsPath(heap, b, p, x, y);
    assert IsPath(heap, b, p + [z], x, z);
  }

  /** Why an entity of the graph refuses the registration. */
  ghost predicate Blames(heap: Heap, uid: int, b: Buffers, e: Entity, r: Outcome) {
    e in heap && match r
      case Registered => false
      case RefusedRedacted => heap[e].redacted
      case RefusedDeleted => heap[e].deleted
      case RefusedAnonymous => uid == 0 && heap[e].guarded && e !in b.stamps
      case RefusedEager => Wanted(b, e) && HasEagerSlot(heap, e)
  }

  ghost predicate Troubled(heap: Heap, uid: int, b: Buffers, e: Entity) {
    exists r :: Blames(heap, uid, b, e, r)
  }

  /** Nothing in the graph from `root` refuses. */
  ghost predicate Untroubled(heap: Heap, uid: int, b: Buffers, root: Entity) {
    forall e :: Reaches(heap, b, root, e) ==> !Troubled(heap, uid, b, e)
  }

  ghost predicate WalkedClean(heap: Heap, uid: int, b: Buffers, now: Buffers, walked: set<Oid>) {
    forall e :: e in now.stamps && now.stamps[e] in walked ==> !Troubled(heap, uid, b, e)
  }

  /** Stamping new entities does not change which ones are walked. */
  lemma WantedStays(heap: Heap, b: Buffers, now: Buffers, start: Oid, walked: set<Oid>, t: Entity)
    requires Grown(b, now, start, walked) && BelowWatermark(b, start)
    ensures Wanted(b, t) <==> Wanted(now, t)
  {
  }

  /** The graph of an explored root was walked throughout. */
  lemma {:induction false} PathWalked(heap: Heap, b: Buffers, now: Buffers, start: Oid, walked: set<Oid>, p: seq<Entity>, x: Entity, y: Entity)
    requires Grown(b, now, start, walked) && BelowWatermark(b, start) && Explored(heap, now, walked, [])
    requires IsPath(heap, b, p, x, y) && x in now.stamps && now.stamps[x] in walked
    ensures y in now.stamps && now.stamps[y] in walked
  {
    hide Explored, Grown, Targets;
    if |p| > 1 {
      var front, e := p[..|p| - 1], p[|p| - 2];
      assert IsPath(heap, b, front, x, e);
      PathWalked(heap, b, now, start, walked, front, x, e);
      assert Edge(heap, b, p[|p| - 2], p[|p| - 2 + 1]);
      WantedStays(heap, b, now, start, walked, e);
      WantedStays(heap, b, now, start, walked, y);
      ExploredAt(heap, now, walked, e, y);
    }
  }

  lemma ExploredAt(heap: Heap, b: Buffers, walked: set<Oid>, e: Entity, t: Entity)
    requires Explored(heap, b, walked, []) && e in heap && WalkedEntity(b, e, walked) && t in Targets(heap, e) && Wanted(b, t)
    ensures t in b.stamps && b.stamps[t] in walked
  {
    assert Pending(b, t, walked, []);
  }

  lemma RegisteredIsUntroubled(heap: Heap, uid: int, b: Buffers, now: Buffers, start: Oid, walked: set<Oid>, root: Entity)
    requires Grown(b, now, start, walked) && BelowWatermark(b, start) && Explored(heap, now, walked, [])
    requires WalkedClean(heap, uid, b, now, walked) && root in now.stamps && now.stamps[root] in walked
    ensures Untroubled(heap, uid, b, root)
  {
    hide Grown, Explored, IsPath, Troubled;
    forall e | Reaches(heap, b, root, e)
      ensures !Troubled(heap, uid, b, e)
    {
      var p :| IsPath(heap, b, p, root, e);
      PathWalked(heap, b, now, start, walked, p, root, e);
    }
  }

  /** An entity that passes every check is not troubled. */
  lemma PassesClean(heap: Heap, uid: int, b: Buffers, e: Entity)
    requires e in heap && !heap[e].redacted && !heap[e].deleted && !(e !in b.stamps && heap[e].guarded && uid == 0)
    requires Wanted(b, e) ==> !HasEagerSlot(heap, e)
    ensures !Troubled(heap, uid, b, e)
  {
  }

  lemma WalkedCleanNext(heap: Heap, uid: int, b: Buffers, now: Buffers, after: Buffers, walked: set<Oid>, e: Entity, oid: Oid)
    requires WalkedClean(heap, uid, b, now, walked) && Consistent(heap, now) && FreshOid(now, oid) && oid !in walked
    requires after == if e in now.stamps then now else Adopt(now, e, oid)
    requires !Troubled(heap, uid, b, e)
    ensures WalkedClean(heap, uid, b, after, walked + {after.stamps[e]})
  {
    hide Troubled;
  }

  // ------------------------------------------------------------ the registrar

  class Registrar {
    const heap: Heap
    /** The acting principal; 0 is anonymous. */
    const uid: int
    var stamps: Stamps
    var news: map<Oid, Entity>
    var dirty: map<Oid, Entity>
    var nextOid: Oid

    function State(): Buffers
      reads this
    {
      Buffers(stamps, news, dirty)
    }

    ghost predicate Valid()
      reads this
    {
      WellHinted(heap) && Consistent(heap, State()) && BelowWatermark(State(), nextOid)
    }

    constructor (heap: Heap, uid: int, b: Buffers, nextOid: Oid)
      ensures this.heap == heap && this.uid == uid && State() == b && this.nextOid == nextOid
    {
      this.heap, this.uid, stamps, news, dirty, this.nextOid := heap, uid, b.stamps, b.news, b.dirty, nextOid;
    }

    // ------------------------------------------------------------ walking values

    method QueueEntity(e: Entity, eager: bool, queue: seq<Entity>) returns (ok: bool, q: seq<Entity>)
      requires e in heap
      ensures ok <==> !(eager && EagerlyGuarded(heap, [e]))
      ensures ok ==> q == queue + ToQueue(State(), [e])
    {
      hide ToQueue, EagerlyGuarded;
      ToQueueOne(heap, State(), e);
      if eager && heap[e].guarded && !heap[e].redacted {
        return false, queue;
      }
      return true, if e !in stamps || stamps[e] in news || stamps[e] in dirty then queue + [e] else queue;
    }

    /** Queues the entities a value reaches, or refuses a guarded one in an eager position. */
    method WalkValue(v: Live, eager: bool, queue: seq<Entity>) returns (ok: bool, q: seq<Entity>)
      requires forall t :: t in Reached(v) ==> t in heap
      ensures ok <==> !(eager && EagerlyGuarded(heap, Reached(v)))
      ensures ok ==> q == queue + ToQueue(State(), Reached(v))
      decreases v
    {
      hide ToQueue;
      match v
      case Ent(e) =>
        assert e in Reached(v);
        ok, q := QueueEntity(e, eager, queue);
      case Handle(target, _) =>
        if target.Some? {
          assert target.value in Reached(v);
          ok, q := QueueEntity(target.value, eager, queue);
        } else {
          NothingToQueue(State());
          ok, q := true, queue;
        }
      case Items(items) => ok, q := WalkAll(items, eager, queue);
      case Mapping(_, vals) => ok, q := WalkAll(vals, eager, queue);
      case _ =>
        NothingToQueue(State());
        ok, q := true, queue;
    }

    method WalkAll(vs: seq<Live>, eager: bool, queue: seq<Entity>) returns (ok: bool, q: seq<Entity>)
      requires forall t :: t in ReachedAll(vs) ==> t in heap
      ensures ok <==> !(eager && EagerlyGuarded(heap, ReachedAll(vs)))
      ensures ok ==> q == queue + ToQueue(State(), ReachedAll(vs))
      decreases vs
    {
      hide ToQueue;
      NothingToQueue(State());
      if vs == [] {
        return true, queue;
      }
      var front, last := ReachedAll(vs[..|vs| - 1]), Reached(vs[|vs| - 1]);
      assert forall t :: t in front + last <==> t in front || t in last;
      ToQueueConcat(State(), front, last);
      ok, q := WalkAll(vs[..|vs| - 1], eager, queue);
      if ok {
        ok, q := WalkValue(vs[|vs| - 1], eager, q);
      }
    }

    /** Queues what the fields of an entity reach; a class without reference fields is skipped. */
    method QueueFieldEntities(e: Entity, queue: seq<Entity>) returns (ok: bool, q: seq<Entity>)
      requires e in heap && HintsHold(heap, e)
      ensures ok ==> q == queue + ToQueue(State(), Targets(heap, e))
      ensures ok <==> !HasEagerSlot(heap, e)
    {
      hide ToQueue, EagerlyGuarded, Reached, Consistent;
      NothingToQueue(State());
      if !heap[e].hasRefs {
        NoRefsNoEager(heap, e);
        return true, queue;
      }
      var slots := heap[e].slots;
      ok, q := true, queue;
      for i := 0 to |slots|
        invariant ok && q == queue + ToQueue(State(), SlotTargets(slots[..i]))
        invariant forall j :: 0 <= j < i ==> slots[j].lazyRefs || !EagerlyGuarded(heap, Reached(slots[j].value))
      {
        var reached := Reached(slots[i].value);
        assert slots[..i + 1][..i] == slots[..i];
        SlotTargetsIn(slots, i);
        ToQueueConcat(State(), SlotTargets(slots[..i]), reached);
        ok, q := WalkValue(slots[i].value, !slots[i].lazyRefs, q);
        if !ok {
          return;
        }
      }
      assert slots[..|slots|] == slots;
    }

    // --------------------------------------------------------------- the queue

    /** Gives a never-stored entity its OID, stamps it and buffers it. */
    method AdoptUnregistered(e: Entity) returns (oid: Oid)
      requires Valid() && e in heap && e !in stamps
      modifies this`stamps, this`news, this`nextOid
      ensures Valid() && oid == old(nextOid) && nextOid == oid + 1
      ensures State() == Adopt(old(State()), e, oid)
    {
      hide WellHinted;
      AdoptConsistent(heap, State(), e, nextOid);
      oid := nextOid;
      nextOid := nextOid + 1;
      stamps := stamps[e := oid];
      news := news[oid := e];
    }

    /** First visit of an entity: adopt it if it is new, and queue its targets if it is buffered. */
    method Visit(e: Entity, rest: seq<Entity>, walked: set<Oid>) returns (ok: bool, queue: seq<Entity>, after: set<Oid>)
      requires Valid() && e in heap && AllBelow(walked, nextOid) && Explored(heap, State(), walked, [e] + rest)
      requires !(e in stamps && stamps[e] in walked) && forall t :: t in rest ==> t in heap
      modifies this`stamps, this`news, this`nextOid
      ensures Valid() && AllBelow(after, nextOid) && old(nextOid) <= nextOid
      ensures State() == if e in old(stamps) then old(State()) else Adopt(old(State()), e, old(nextOid))
      ensures after == walked + {stamps[e]} && |Unwalked(heap, State(), after)| < |Unwalked(heap, old(State()), walked)|
      ensures ok ==> Explored(heap, State(), after, queue) && (forall t :: t in queue ==> t in heap) && rest <= queue
      ensures ok ==> forall t :: t in queue ==> t in rest || (Wanted(State(), e) && t in Targets(heap, e) && Wanted(State(), t))
      ensures ok <==> !(Wanted(State(), e) && HasEagerSlot(heap, e))
    {
      hide ToQueue, HasEagerSlot, Targets, WellHinted, Explored, Unwalked;
      var oid := nextOid;
      ghost var before := State();
      NextIsFresh(heap, before, oid, walked);
      if e in stamps {
        oid := stamps[e];
      } else {
        ExploredAdopt(heap, before, walked, e, rest, oid);
        oid := AdoptUnregistered(e);
      }
      after := walked + {oid};
      FewerUnwalked(heap, before, walked, e, old(nextOid), State());
      if oid in news || oid in dirty {
        HintsAt(heap, e);
        ok, queue := QueueFieldEntities(e, rest);
        ExploredNext(heap, State(), walked, e, rest);
        if ok {
          forall t | t in queue
            ensures t in heap && (t in rest || (t in Targets(heap, e) && Wanted(State(), t)))
          {
            ToQueueIn(State(), rest, Targets(heap, e), t);
          }
        }
      } else {
        ExploredClean(heap, State(), walked, e, rest);
        ok, queue := true, rest;
      }
    }

    /** Walks the graph from `root`, as it was in the buffers `b0` where the discovery began. It refuses
        exactly when something in that graph does, and names why; on success everything a walked buffered
        entity holds has an OID. */
    method RegisterGraph(root: Entity, before: set<Oid>, ghost b0: Buffers, ghost start: Oid) returns (r: Outcome, walked: set<Oid>)
      requires Valid() && root in heap && AllBelow(before, nextOid) && Explored(heap, State(), before, [])
      requires Grown(b0, State(), start, before) && BelowWatermark(b0, start) && start <= nextOid
      requires WalkedClean(heap, uid, b0, State(), before)
      modifies this`stamps, this`news, this`nextOid
      ensures Valid() && AllBelow(walked, nextOid) && before <= walked && old(nextOid) <= nextOid
      ensures Grown(b0, State(), start, walked)
      ensures r.Registered? ==> Explored(heap, State(), walked, []) && root in stamps && stamps[root] in walked
      ensures WalkedClean(heap, uid, b0, State(), walked) || !r.Registered?
      ensures r.Registered? <==> Untroubled(heap, uid, b0, root)
      ensures r.Registered? || exists e :: Reaches(heap, b0, root, e) && Blames(heap, uid, b0, e, r)
      ensures forall e :: e in stamps && e !in old(stamps) ==> Reaches(heap, b0, root, e)
    {
      hide ToQueue, HasEagerSlot, Targets, WellHinted, Explored, Unwalked, Grown, Consistent, Troubled, Blames, Reaches, WalkedClean;
      hide Untroubled, Wanted;
      walked := before;
      var queue := [root];
      ExploredMore(heap, State(), walked, [], queue);
      ReachesSelf(heap, b0, root);
      while queue != []
        invariant Valid() && AllBelow(walked, nextOid) && before <= walked && old(nextOid) <= nextOid
        invariant Grown(b0, State(), start, walked) && WalkedClean(heap, uid, b0, State(), walked)
        invariant Explored(heap, State(), walked, queue)
        invariant forall t :: t in queue ==> t in heap && Reaches(heap, b0, root, t)
        invariant root in queue || (root in stamps && stamps[root] in walked)
        invariant forall e :: e in stamps && e !in old(stamps) ==> Reaches(heap, b0, root, e)
        decreases |Unwalked(heap, State(), walked)|, |queue|
      {
        var e, rest := queue[0], queue[1..];
        assert queue == [e] + rest;
        r := Check(e);
        if r != Registered {
          CheckBlames(heap, uid, b0, State(), start, walked, root, e, r);
          return r, walked;
        }
        if e in stamps && stamps[e] in walked {
          ExploredPop(heap, State(), walked, e, rest);
          queue := rest;
          continue;
        }
        ghost var b, next := State(), nextOid;
        NextIsFresh(heap, b, next, walked);
        var ok, q, after := Visit(e, rest, walked);
        GrownStep(b0, b, start, walked, e, next, State());
        assert root in rest && ok ==> root in q;
        WantedStays(heap, b0, State(), start, after, e);
        if !ok {
          EagerBlames(heap, uid, b0, root, e);
          return RefusedEager, after;
        }
        UnstampedThen(b0, b, start, walked, e);
        PassesClean(heap, uid, b0, e);
        WalkedCleanNext(heap, uid, b0, b, State(), walked, e, next);
        forall t | t in q
          ensures Reaches(heap, b0, root, t)
        {
          if t !in rest {
            WantedStays(heap, b0, State(), start, after, t);
            assert Edge(heap, b0, e, t);
            ReachesNext(heap, b0, root, e, t);
          }
        }
        queue, walked := q, after;
      }
      RegisteredIsUntroubled(heap, uid, b0, State(), start, walked, root);
      r := Registered;
    }

    /** The checks made whenever an entity comes off the queue. */
    method Check(e: Entity) returns (r: Outcome)
      requires e in heap
      ensures r.Registered? <==> !heap[e].redacted && !heap[e].deleted && !(e !in stamps && heap[e].guarded && uid == 0)
      ensures r.RefusedRedacted? ==> heap[e].redacted
      ensures r.RefusedDeleted? ==> heap[e].deleted
      ensures r.RefusedAnonymous? ==> e !in stamps && heap[e].guarded && uid == 0
      ensures !r.RefusedEager?
    {
      if heap[e].redacted {
        return RefusedRedacted;
      }
      if heap[e].deleted {
        return RefusedDeleted;
      }
      r := if e !in stamps && heap[e].guarded && uid == 0 then RefusedAnonymous else Registered;
    }

    /** P1: walks everything buffered, and refuses exactly when something it reaches does. On success every
        reference a buffered entity holds has an OID. */
    method DiscoverNewGraphs() returns (r: Outcome)
      requires Valid()
      modifies this`stamps, this`news, this`nextOid
      ensures Valid() && old(nextOid) <= nextOid
      ensures exists walked :: Grown(old(State()), State(), old(nextOid), walked)
      ensures r.Registered? ==> Closed(heap, State())
      ensures r.Registered? <==> forall o :: Buffered(old(State()), o) ==> Untroubled(heap, uid, old(State()), Holder(old(State()), o))
      ensures r.Registered? || exists o, e :: (Buffered(old(State()), o)
        && Reaches(heap, old(State()), Holder(old(State()), o), e) && Blames(heap, uid, old(State()), e, r))
      ensures forall e :: e in stamps && e !in old(stamps) ==> ReachedFrom(heap, old(State()), e)
    {
      hide Targets, WellHinted, Explored, Grown, Consistent, HasEagerSlot, Blames, Reaches, WalkedClean, Untroubled;
      ghost var b0, start := State(), nextOid;
      var walked: set<Oid> := {};
      var todo := news.Keys + dirty.Keys;
      NothingWalked(heap, State(), nextOid);
      NothingTroubled(heap, uid, b0);
      r := Registered;
      while todo != {}
        invariant Valid() && AllBelow(walked, nextOid) && start <= nextOid && r == Registered
        invariant Grown(b0, State(), start, walked) && Explored(heap, State(), walked, [])
        invariant WalkedClean(heap, uid, b0, State(), walked)
        invariant todo <= b0.news.Keys + b0.dirty.Keys
        invariant forall o :: Buffered(b0, o) && o !in todo ==> o in walked && Untroubled(heap, uid, b0, Holder(b0, o))
        invariant forall e :: e in stamps && e !in b0.stamps ==> ReachedFrom(heap, b0, e)
        decreases todo
      {
        var o :| o in todo;
        todo := todo - {o};
        HolderStays(heap, b0, State(), start, walked, o);
        var e := if o in news then news[o] else dirty[o];
        r, walked := RegisterGraph(e, walked, b0, start);
        if !r.Registered? {
          return;
        }
        HolderStays(heap, b0, State(), start, walked, o);
      }
      AllWalked(heap, b0, State(), start, walked);
    }
  }

  /** In the graph of something buffered. */
  ghost predicate ReachedFrom(heap: Heap, b: Buffers, e: Entity) {
    exists o :: Buffered(b, o) && Reaches(heap, b, Holder(b, o), e)
  }

  /** The entity buffered under an OID. */
  function Holder(b: Buffers, o: Oid): Entity
    requires Buffered(b, o)
  {
    if o in b.news then b.news[o] else b.dirty[o]
  }

  lemma HolderStays(heap: Heap, b: Buffers, now: Buffers, start: Oid, walked: set<Oid>, o: Oid)
    requires Grown(b, now, start, walked) && Consistent(heap, now) && Buffered(b, o)
    ensures Buffered(now, o) && Holder(now, o) == Holder(b, o)
    ensures Holder(b, o) in heap && Holder(b, o) in now.stamps && now.stamps[Holder(b, o)] == o
  {
  }

  lemma NothingTroubled(heap: Heap, uid: int, b: Buffers)
    ensures WalkedClean(heap, uid, b, b, {})
  {
  }

  lemma CheckBlames(heap: Heap, uid: int, b: Buffers, now: Buffers, start: Oid, walked: set<Oid>, root: Entity, e: Entity, r: Outcome)
    requires Grown(b, now, start, walked) && Reaches(heap, b, root, e) && e in heap && !r.Registered? && !r.RefusedEager?
    requires r.RefusedRedacted? ==> heap[e].redacted
    requires r.RefusedDeleted? ==> heap[e].deleted
    requires r.RefusedAnonymous? ==> e !in now.stamps && heap[e].guarded && uid == 0
    ensures Blames(heap, uid, b, e, r) && !Untroubled(heap, uid, b, root)
  {
    hide Reaches, HasEagerSlot;
    assert Blames(heap, uid, b, e, r);
    assert Troubled(heap, uid, b, e);
  }

  lemma EagerBlames(heap: Heap, uid: int, b: Buffers, root: Entity, e: Entity)
    requires Reaches(heap, b, root, e) && e in heap && Wanted(b, e) && HasEagerSlot(heap, e)
    ensures Blames(heap, uid, b, e, RefusedEager) && !Untroubled(heap, uid, b, root)
  {
    hide Reaches, HasEagerSlot;
    assert Blames(heap, uid, b, e, RefusedEager);
    assert Troubled(heap, uid, b, e);
  }

  /** What has an OID now but had none at the start was walked. */
  lemma UnstampedThen(b: Buffers, now: Buffers, start: Oid, walked: set<Oid>, e: Entity)
    requires Grown(b, now, start, walked) && !(e in now.stamps && now.stamps[e] in walked)
    ensures e in now.stamps <==> e in b.stamps
  {
  }

  lemma NoRefsNoEager(heap: Heap, e: Entity)
    requires e in heap && HintsHold(heap, e) && !heap[e].hasRefs
    ensures !HasEagerSlot(heap, e)
  {
    forall i | 0 <= i < |heap[e].slots|
      ensures !EagerlyGuarded(heap, Reached(heap[e].slots[i].value))
    {
      SlotTargetsIn(heap[e].slots, i);
    }
  }

  ghost predicate AllBelow(walked: set<Oid>, next: Oid) {
    forall o :: o in walked ==> o < next
  }

  ghost predicate BelowWatermark(b: Buffers, next: Oid) {
    forall e :: e in b.stamps ==> b.stamps[e] < next
  }

  /** Every reference held by a buffered entity has an OID. */
  ghost predicate Closed(heap: Heap, b: Buffers) {
    forall e :: e in heap && e in b.stamps && Buffered(b, b.stamps[e]) ==> AllStamped(b.stamps, Targets(heap, e))
  }

  lemma NothingToQueue(b: Buffers)
    ensures ToQueue(b, []) == []
  {
  }

  lemma HintsAt(heap: Heap, e: Entity)
    requires WellHinted(heap) && e in heap
    ensures HintsHold(heap, e) && forall t :: t in Targets(heap, e) ==> t in heap
  {
  }

  lemma NextIsFresh(heap: Heap, b: Buffers, next: Oid, walked: set<Oid>)
    requires Consistent(heap, b) && BelowWatermark(b, next) && AllBelow(walked, next)
    ensures FreshOid(b, next) && next !in walked
  {
  }

  lemma NothingWalked(heap: Heap, b: Buffers, start: Oid)
    ensures Explored(heap, b, {}, []) && Grown(b, b, start, {})
  {
  }

  lemma AllWalked(heap: Heap, x: Buffers, y: Buffers, start: Oid, walked: set<Oid>)
    requires Consistent(heap, y) && Grown(x, y, start, walked) && Explored(heap, y, walked, [])
    requires forall o :: o in x.news.Keys + x.dirty.Keys ==> o in walked
    ensures Closed(heap, y)
  {
    hide Targets;
    forall e | e in heap && e in y.stamps && Buffered(y, y.stamps[e])
      ensures AllStamped(y.stamps, Targets(heap, e))
    {
      assert WalkedEntity(y, e, walked);
      forall t | t in Targets(heap, e)
        ensures t in y.stamps
      {
        assert Pending(y, t, walked, []);
      }
    }
  }

  /** After discovery the encoder meets no unregistered entity: only unstorable values can stop it. */
  lemma ClosedIsEncodable(heap: Heap, b: Buffers, e: Entity, i: nat)
    requires Closed(heap, b) && e in heap && e in b.stamps && Buffered(b, b.stamps[e]) && i < |heap[e].slots|
    ensures Swizzle(heap[e].slots[i].value, b.stamps).Some? <==> Storable(heap[e].slots[i].value)
  {
    EncodableIff(heap[e].slots[i].value, b.stamps);
    SlotTargetsIn(heap[e].slots, i);
  }

  lemma {:induction false} SlotTargetsIn(slots: seq<Slot>, i: nat)
    requires i < |slots|
    ensures forall t :: t in Reached(slots[i].value) ==> t in SlotTargets(slots)
    decreases |slots|
  {
    if i < |slots| - 1 {
      assert slots[..|slots| - 1][i] == slots[i];
      SlotTargetsIn(slots[..|slots| - 1], i);
    }
  }
}
