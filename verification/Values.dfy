/**
 Field values as trees: live ones hold entities and lazy handles, stored ones hold reference tokens.
 Two harvests walk them with an explicit stack, one over each form, and must find the same references.
 */
module Values {
  import opened Wire

  type Entity = nat

  /** A live value. A handle may hold its target, its OID, or both. */
  datatype Live =
    | Leaf(text: string)
    | Ent(e: Entity)
    | Handle(target: Option<Entity>, oid: Option<Oid>)
    | Items(items: seq<Live>)
    | Mapping(keys: seq<string>, vals: seq<Live>)
    | Unpersistable

  /** A stored value. */
  datatype Stored =
    | Plain(text: string)
    | Ref(oid: Oid)
    | Array(items: seq<Stored>)
    | Dict(keys: seq<string>, vals: seq<Stored>)

  /** The OIDs the live entities carry. */
  type Stamps = map<Entity, Oid>

  // ---------------------------------------------------------------- swizzling

  /** The stored form: entities and handles become reference tokens, tuples become lists. */
  function Swizzle(v: Live, stamps: Stamps): Option<Stored>
    decreases v
  {
    match v
    case Leaf(text) => Some(Plain(text))
    case Ent(e) => if e in stamps then Some(Ref(stamps[e])) else None
    case Handle(target, oid) =>
      if target.Some? then (if target.value in stamps then Some(Ref(stamps[target.value])) else None)
      else if oid.Some? then Some(Ref(oid.value)) else None
    case Items(items) =>
      var ts := SwizzleAll(items, stamps);
      if ts.Some? then Some(Array(ts.value)) else None
    case Mapping(keys, vals) =>
      var ts := SwizzleAll(vals, stamps);
      if ts.Some? then Some(Dict(keys, ts.value)) else None
    case Unpersistable => None
  }

  function SwizzleAll(vs: seq<Live>, stamps: Stamps): Option<seq<Stored>>
    decreases vs
  {
    if vs == [] then Some([])
    else
      var front, last := SwizzleAll(vs[..|vs| - 1], stamps), Swizzle(vs[|vs| - 1], stamps);
      if front.Some? && last.Some? then Some(front.value + [last.value]) else None
  }

  // --------------------------------------------------------------- references

  function Children(v: Live): seq<Live> {
    if v.Items? then v.items else if v.Mapping? then v.vals else []
  }

  /** The OID a node itself refers to: a handle answers with its own before its target's. */
  function OwnRef(v: Live, stamps: Stamps): set<Oid> {
    match v
    case Ent(e) => if e in stamps then {stamps[e]} else {}
    case Handle(target, oid) =>
      if oid.Some? then {oid.value}
      else if target.Some? && target.value in stamps then {stamps[target.value]} else {}
    case _ => {}
  }

  function RefsOf(v: Live, stamps: Stamps): set<Oid>
    decreases v
  {
    OwnRef(v, stamps) + match v
      case Items(items) => RefsOfAll(items, stamps)
      case Mapping(_, vals) => RefsOfAll(vals, stamps)
      case _ => {}
  }

  function RefsOfAll(vs: seq<Live>, stamps: Stamps): set<Oid>
    decreases vs
  {
    if vs == [] then {} else RefsOfAll(vs[..|vs| - 1], stamps) + RefsOf(vs[|vs| - 1], stamps)
  }

  function StoredChildren(t: Stored): seq<Stored> {
    if t.Array? then t.items else if t.Dict? then t.vals else []
  }

  function StoredRefs(t: Stored): set<Oid>
    decreases t
  {
    (if t.Ref? then {t.oid} else {}) + match t
      case Array(items) => StoredRefsOfAll(items)
      case Dict(_, vals) => StoredRefsOfAll(vals)
      case _ => {}
  }

  function StoredRefsOfAll(ts: seq<Stored>): set<Oid>
    decreases ts
  {
    if ts == [] then {} else StoredRefsOfAll(ts[..|ts| - 1]) + StoredRefs(ts[|ts| - 1])
  }

  /** A loaded handle that knows its OID holds the entity of that OID. */
  predicate HandlesAgree(v: Live, stamps: Stamps)
    decreases v
  {
    match v
    case Handle(target, oid) => target.Some? && oid.Some? && target.value in stamps ==> stamps[target.value] == oid.value
    case Items(items) => AllHandlesAgree(items, stamps)
    case Mapping(_, vals) => AllHandlesAgree(vals, stamps)
    case _ => true
  }

  predicate AllHandlesAgree(vs: seq<Live>, stamps: Stamps)
    decreases vs
  {
    vs == [] || (AllHandlesAgree(vs[..|vs| - 1], stamps) && HandlesAgree(vs[|vs| - 1], stamps))
  }

  /** Both harvests see the same references. */
  lemma {:induction false} HarvestsAgree(v: Live, stamps: Stamps)
    requires Swizzle(v, stamps).Some? && HandlesAgree(v, stamps)
    ensures StoredRefs(Swizzle(v, stamps).value) == RefsOf(v, stamps)
    decreases v
  {
    match v
    case Items(items) => HarvestsOfAllAgree(items, stamps);
    case Mapping(_, vals) => HarvestsOfAllAgree(vals, stamps);
    case _ =>
  }

  lemma {:induction false} HarvestsOfAllAgree(vs: seq<Live>, stamps: Stamps)
    requires SwizzleAll(vs, stamps).Some? && AllHandlesAgree(vs, stamps)
    ensures StoredRefsOfAll(SwizzleAll(vs, stamps).value) == RefsOfAll(vs, stamps)
    decreases vs
  {
    if vs != [] {
      HarvestsOfAllAgree(vs[..|vs| - 1], stamps);
      HarvestsAgree(vs[|vs| - 1], stamps);
      var ts := SwizzleAll(vs, stamps).value;
      assert ts[..|ts| - 1] == SwizzleAll(vs[..|vs| - 1], stamps).value;
    }
  }

  /** For one handle the condition is exact. */
  lemma OneHandleIff(target: Option<Entity>, oid: Option<Oid>, stamps: Stamps)
    requires Swizzle(Handle(target, oid), stamps).Some?
    ensures StoredRefs(Swizzle(Handle(target, oid), stamps).value) == RefsOf(Handle(target, oid), stamps)
            <==> HandlesAgree(Handle(target, oid), stamps)
  {
    if target.Some? && oid.Some? && stamps[target.value] != oid.value {
      assert stamps[target.value] in StoredRefs(Swizzle(Handle(target, oid), stamps).value);
    }
  }

  // ------------------------------------------------------------ a handle's life

  /** A handle, the OIDs entities carry, and the OID counter as the last commit persisted it. */
  datatype Era = Era(handle: Live, stamps: Stamps, durable: Oid)

  /** The three ways a handle is made: wrapping a live entity, loaded from the registry, or unloaded. The
      last two come out of a durable record, which refers to OIDs counted by then. */
  ghost predicate Born(h: Live, stamps: Stamps, durable: Oid) {
    && h.Handle?
    && (|| (h.target.Some? && h.oid.None?)
        || (h.target.Some? && h.oid.Some? && h.oid.value < durable && h.target.value in stamps && stamps[h.target.value] == h.oid.value)
        || (h.target.None? && h.oid.Some? && h.oid.value < durable))
  }

  /** `Load` finds some entity through the registry, `Demote` drops the target of an engine handle, `Stamp`
      gives an untracked entity the next OID, `Persist` moves the durable counter, and `Discard` takes the
      stamps of the entities no commit persisted away again and rewinds the counter to the durable one. */
  datatype HandleStep = Load(e: Entity) | Demote | Stamp(e: Entity, oid: Oid) | Persist(next: Oid) | Discard

  ghost function HandleAfter(y: Era, step: HandleStep): (z: Era)
    requires y.handle.Handle?
    ensures z.handle.Handle?
  {
    var h := y.handle;
    match step
    case Load(e) =>
      if h.target.None? && h.oid.Some? && e in y.stamps && y.stamps[e] == h.oid.value then y.(handle := h.(target := Some(e))) else y
    case Demote => if h.oid.Some? then y.(handle := h.(target := None)) else y
    case Stamp(e, oid) => if e in y.stamps || oid < y.durable then y else y.(stamps := y.stamps[e := oid])
    case Persist(next) => if next < y.durable then y else y.(durable := next)
    case Discard => y.(stamps := map e | e in y.stamps && y.stamps[e] < y.durable :: y.stamps[e])
  }

  ghost function HandleRun(y: Era, steps: seq<HandleStep>): (z: Era)
    requires y.handle.Handle?
    ensures z.handle.Handle?
  {
    if steps == [] then y else HandleAfter(HandleRun(y, steps[..|steps| - 1]), steps[|steps| - 1])
  }

  /** Whatever is loaded, demoted, stamped, committed or discarded, a handle never names an OID that is not
      its target's: a discard takes away, and hands out again, only OIDs no engine handle can name. */
  lemma {:induction false} HandlesStayTrue(y: Era, steps: seq<HandleStep>)
    requires Born(y.handle, y.stamps, y.durable)
    ensures var z := HandleRun(y, steps);
      && (z.handle.oid.Some? ==> z.handle.oid.value < z.durable)
      && (z.handle.target.Some? && z.handle.oid.Some? ==>
            z.handle.target.value in z.stamps && z.stamps[z.handle.target.value] == z.handle.oid.value)
      && HandlesAgree(z.handle, z.stamps)
  {
    if steps != [] {
      HandlesStayTrue(y, steps[..|steps| - 1]);
    }
  }

  /** A program's own handle to an entity that was discarded has nothing to be stored as, until the entity is
      stored again. */
  lemma DiscardedIsUntracked(y: Era, e: Entity)
    requires y.handle == Handle(Some(e), None) && (e in y.stamps ==> y.stamps[e] >= y.durable)
    ensures var z := HandleAfter(y, Discard);
      && e !in z.stamps && Swizzle(z.handle, z.stamps).None?
      && forall oid: Oid :: oid >= z.durable ==> Swizzle(z.handle, HandleAfter(z, Stamp(e, oid)).stamps) == Some(Ref(oid))
  {
  }

  // ------------------------------------------------------------ stack harvests

  function Size(v: Live): nat
    decreases v
  {
    1 + match v
      case Items(items) => SizeOfAll(items)
      case Mapping(_, vals) => SizeOfAll(vals)
      case _ => 0
  }

  function SizeOfAll(vs: seq<Live>): nat
    decreases vs
  {
    if vs == [] then 0 else SizeOfAll(vs[..|vs| - 1]) + Size(vs[|vs| - 1])
  }

  function StoredSize(t: Stored): nat
    decreases t
  {
    1 + match t
      case Array(items) => StoredSizeOfAll(items)
      case Dict(_, vals) => StoredSizeOfAll(vals)
      case _ => 0
  }

  function StoredSizeOfAll(ts: seq<Stored>): nat
    decreases ts
  {
    if ts == [] then 0 else StoredSizeOfAll(ts[..|ts| - 1]) + StoredSize(ts[|ts| - 1])
  }

  lemma {:induction false} OfAllConcat(a: seq<Live>, b: seq<Live>, stamps: Stamps)
    ensures RefsOfAll(a + b, stamps) == RefsOfAll(a, stamps) + RefsOfAll(b, stamps)
    ensures SizeOfAll(a + b) == SizeOfAll(a) + SizeOfAll(b)
  {
    if b == [] {
      assert a + b == a;
    } else {
      assert (a + b)[..|a + b| - 1] == a + b[..|b| - 1];
      OfAllConcat(a, b[..|b| - 1], stamps);
    }
  }

  lemma {:induction false} StoredConcat(a: seq<Stored>, b: seq<Stored>)
    ensures StoredRefsOfAll(a + b) == StoredRefsOfAll(a) + StoredRefsOfAll(b)
    ensures StoredSizeOfAll(a + b) == StoredSizeOfAll(a) + StoredSizeOfAll(b)
  {
    if b == [] {
      assert a + b == a;
    } else {
      assert (a + b)[..|a + b| - 1] == a + b[..|b| - 1];
      StoredConcat(a, b[..|b| - 1]);
    }
  }

  /** The references of a live entity's field values. */
  method HarvestLive(values: seq<Live>, stamps: Stamps) returns (out: set<Oid>)
    ensures out == RefsOfAll(values, stamps)
  {
    hide RefsOfAll, SizeOfAll;
    out := {};
    var stack := values;
    while stack != []
      invariant out + RefsOfAll(stack, stamps) == RefsOfAll(values, stamps)
      decreases SizeOfAll(stack)
    {
      var v, rest := stack[|stack| - 1], stack[..|stack| - 1];
      PopLive(stack, stamps);
      OfAllConcat(rest, Children(v), stamps);
      out := out + OwnRef(v, stamps);
      stack := rest + Children(v);
    }
    NothingLeft(stamps);
  }

  lemma NothingLeft(stamps: Stamps)
    ensures RefsOfAll([], stamps) == {} && StoredRefsOfAll([]) == {}
  {
  }

  lemma PopLive(stack: seq<Live>, stamps: Stamps)
    requires stack != []
    ensures var v, rest := stack[|stack| - 1], stack[..|stack| - 1];
      && RefsOfAll(stack, stamps) == RefsOfAll(rest, stamps) + OwnRef(v, stamps) + RefsOfAll(Children(v), stamps)
      && SizeOfAll(stack) == SizeOfAll(rest) + 1 + SizeOfAll(Children(v))
  {
    var v := stack[|stack| - 1];
    assert RefsOf(v, stamps) == OwnRef(v, stamps) + RefsOfAll(Children(v), stamps);
    assert Size(v) == 1 + SizeOfAll(Children(v));
  }

  /** The references of a decoded record. */
  method HarvestStored(values: seq<Stored>) returns (out: set<Oid>)
    ensures out == StoredRefsOfAll(values)
  {
    hide StoredRefsOfAll, StoredSizeOfAll;
    out := {};
    var stack := values;
    while stack != []
      invariant out + StoredRefsOfAll(stack) == StoredRefsOfAll(values)
      decreases StoredSizeOfAll(stack)
    {
      var t, rest := stack[|stack| - 1], stack[..|stack| - 1];
      PopStored(stack);
      StoredConcat(rest, StoredChildren(t));
      if t.Ref? {
        out := out + {t.oid};
      }
      stack := rest + StoredChildren(t);
    }
    NothingLeft(map[]);
  }

  lemma PopStored(stack: seq<Stored>)
    requires stack != []
    ensures var t, rest := stack[|stack| - 1], stack[..|stack| - 1];
      && StoredRefsOfAll(stack) == StoredRefsOfAll(rest) + (if t.Ref? then {t.oid} else {}) + StoredRefsOfAll(StoredChildren(t))
      && StoredSizeOfAll(stack) == StoredSizeOfAll(rest) + 1 + StoredSizeOfAll(StoredChildren(t))
  {
    var t := stack[|stack| - 1];
    assert StoredRefs(t) == (if t.Ref? then {t.oid} else {}) + StoredRefsOfAll(StoredChildren(t));
    assert StoredSize(t) == 1 + StoredSizeOfAll(StoredChildren(t));
  }
}
