/**
 Loading a record and its eager references: a work queue of bare shells, each registered before its
 fields are filled so that a back-edge finds it. Lazy references and guarded targets are not followed,
 and a failure anywhere discards every shell the load registered.
 */
module GraphLoad {
  import opened Wire
  import opened Values

  /** What a field absent from an old shape takes: nothing to take, or what a default factory or a glue
      function makes of the record's values; None when that raises. */
  datatype Fallback = Missing | Derive(f: seq<Stored> -> Option<Stored>)
  /** One field of a class's hydration: its position in the record, or its fallback. */
  datatype Step = Step(index: Option<nat>, lazyRefs: bool, fallback: Fallback)
  datatype ClassInfo = ClassInfo(guarded: bool, arity: nat, plan: seq<Step>)
  datatype Rec = Rec(cid: nat, values: seq<Stored>)
  datatype Db = Db(records: map<Oid, Rec>, classes: map<nat, ClassInfo>)

  datatype Hydrated =
    | Val(text: string)
    | Obj(target: Instance)
    | LazyRef(oid: Oid, loaded: Option<Instance>)
    | ListOf(items: seq<Hydrated>)
    | DictOf(keys: seq<string>, vals: seq<Hydrated>)

  class Instance {
    const oid: Oid
    const guarded: bool
    var values: seq<Hydrated>

    /** A bare shell. */
    constructor (oid: Oid, guarded: bool)
      ensures this.oid == oid && this.guarded == guarded && values == []
    {
      this.oid, this.guarded, values := oid, guarded, [];
    }
  }

  type Registry = map<Oid, Instance>

  // ------------------------------------------------------------ what is stored

  /** The record exists and its class is known. */
  predicate Known(db: Db, o: Oid) {
    o in db.records && db.records[o].cid in db.classes
  }

  function ClassOf(db: Db, o: Oid): ClassInfo
    requires Known(db, o)
  {
    db.classes[db.records[o].cid]
  }

  /** The class has a source for every field, and the record as many fields as its type row. */
  predicate Shapely(db: Db, o: Oid)
    requires Known(db, o)
  {
    var c := ClassOf(db, o);
    && (forall i :: 0 <= i < |c.plan| ==> c.plan[i].index.Some? || c.plan[i].fallback.Derive?)
    && |db.records[o].values| == c.arity
  }

  /** The field's value is in the record, or its fallback gives one. */
  predicate Derivable(db: Db, o: Oid, i: nat)
    requires Known(db, o) && i < |ClassOf(db, o).plan|
  {
    var step, values := ClassOf(db, o).plan[i], db.records[o].values;
    if step.index.Some? then step.index.value < |values| else step.fallback.Derive? && step.fallback.f(values).Some?
  }

  /** A class's plan only reads positions its records have. */
  ghost predicate PlansFit(db: Db) {
    forall c, i :: c in db.classes && 0 <= i < |db.classes[c].plan| && db.classes[c].plan[i].index.Some? ==>
      db.classes[c].plan[i].index.value < db.classes[c].arity
  }

  function Raw(db: Db, o: Oid, i: nat): Stored
    requires Known(db, o) && i < |ClassOf(db, o).plan| && Derivable(db, o, i)
  {
    var step, values := ClassOf(db, o).plan[i], db.records[o].values;
    if step.index.Some? then values[step.index.value] else step.fallback.f(values).value
  }

  /** The record refers to `t` from a field whose references decode eagerly. */
  ghost predicate RefersEagerly(db: Db, o: Oid, t: Oid) {
    Known(db, o) && Shapely(db, o) && exists i :: 0 <= i < |ClassOf(db, o).plan| && EagerAt(db, o, i, t)
  }

  ghost predicate EagerAt(db: Db, o: Oid, i: nat, t: Oid)
    requires Known(db, o) && Shapely(db, o) && i < |ClassOf(db, o).plan|
  {
    Derivable(db, o, i) && !ClassOf(db, o).plan[i].lazyRefs && t in StoredRefs(Raw(db, o, i))
  }

  /** The load goes on from `o` to `t`: not registered before, and not cut for being guarded. */
  ghost predicate Follows(db: Db, start: set<Oid>, o: Oid, t: Oid) {
    RefersEagerly(db, o, t) && t !in start && Known(db, t) && !ClassOf(db, t).guarded
  }

  ghost predicate Path(db: Db, start: set<Oid>, p: seq<Oid>) {
    forall i :: 0 < i < |p| ==> Hop(db, start, p, i)
  }

  ghost predicate Hop(db: Db, start: set<Oid>, p: seq<Oid>, i: nat)
    requires 0 < i < |p|
  {
    Follows(db, start, p[i - 1], p[i])
  }

  /** In the eager closure of `root`. */
  ghost predicate Reachable(db: Db, start: set<Oid>, root: Oid, o: Oid) {
    exists p :: IsPath(db, start, root, o, p)
  }

  ghost predicate IsPath(db: Db, start: set<Oid>, root: Oid, o: Oid, p: seq<Oid>) {
    p != [] && p[0] == root && p[|p| - 1] == o && Path(db, start, p)
  }

  /** Some field of the record cannot be derived. */
  ghost predicate Underivable(db: Db, o: Oid)
    requires Known(db, o)
  {
    exists i :: 0 <= i < |ClassOf(db, o).plan| && !Derivable(db, o, i)
  }

  /** Filling this record fails: a field without a source, a wrong width, a default or a glue that raises,
      or an eager reference to nothing. */
  ghost predicate Unfillable(db: Db, start: set<Oid>, o: Oid) {
    && Known(db, o)
    && (!Shapely(db, o) || Underivable(db, o) || exists t :: RefersEagerly(db, o, t) && t !in start && !Known(db, t))
  }

  lemma ReachRoot(db: Db, start: set<Oid>, root: Oid)
    ensures Reachable(db, start, root, root)
  {
    assert IsPath(db, start, root, root, [root]);
  }

  lemma ReachNext(db: Db, start: set<Oid>, root: Oid, o: Oid, t: Oid)
    requires Reachable(db, start, root, o) && Follows(db, start, o, t)
    ensures Reachable(db, start, root, t)
  {
    var p :| IsPath(db, start, root, o, p);
    var q := p + [t];
    forall i | 0 < i < |q|
      ensures Hop(db, start, q, i)
    {
      if i < |p| {
        assert Hop(db, start, p, i) && q[i] == p[i] && q[i - 1] == p[i - 1];
      }
    }
    assert IsPath(db, start, root, t, q);
  }

  /** A set that holds the root and is closed under following holds the whole closure. */
  lemma {:induction false} ClosedHoldsAll(db: Db, start: set<Oid>, root: Oid, held: set<Oid>, p: seq<Oid>, o: Oid)
    requires root in held && IsPath(db, start, root, o, p)
    requires forall a, b :: a in held && Follows(db, start, a, b) ==> b in held
    ensures o in held
    decreases |p|
  {
    if |p| > 1 {
      var front := p[..|p| - 1];
      forall i | 0 < i < |front|
        ensures Hop(db, start, front, i)
      {
        assert Hop(db, start, p, i);
      }
      ClosedHoldsAll(db, start, root, held, front, front[|front| - 1]);
      assert Hop(db, start, p, |p| - 1);
    }
  }

  // ------------------------------------------------------------ resolved values

  ghost predicate IsGuarded(db: Db, reg: Registry, o: Oid) {
    if o in reg then reg[o].guarded else Known(db, o) && ClassOf(db, o).guarded
  }

  /** `h` is what `raw` hydrates to: an eager reference is the registry's own object, a guarded target
      stays an unloaded handle, a lazy reference is a handle that at most holds the registry's object. */
  ghost predicate Resolved(db: Db, h: Hydrated, raw: Stored, isLazy: bool, reg: Registry)
    decreases raw
  {
    match raw
    case Plain(text) => h == Val(text)
    case Ref(o) =>
      if isLazy then h.LazyRef? && h.oid == o && (h.loaded.Some? ==> o in reg && h.loaded.value == reg[o] && !IsGuarded(db, reg, o))
      else if IsGuarded(db, reg, o) then h == LazyRef(o, None)
      else o in reg && h == Obj(reg[o])
    case Array(items) => h.ListOf? && ResolvedAll(db, h.items, items, isLazy, reg)
    case Dict(keys, vals) => h.DictOf? && h.keys == keys && ResolvedAll(db, h.vals, vals, isLazy, reg)
  }

  ghost predicate ResolvedAll(db: Db, hs: seq<Hydrated>, raws: seq<Stored>, isLazy: bool, reg: Registry)
    decreases raws
  {
    |hs| == |raws| &&
    (raws == [] ||
     (ResolvedAll(db, hs[..|hs| - 1], raws[..|raws| - 1], isLazy, reg) && Resolved(db, hs[|hs| - 1], raws[|raws| - 1], isLazy, reg)))
  }

  /** Every lazy reference to an unguarded object that is in memory comes with that object. */
  ghost predicate Preloaded(h: Hydrated, raw: Stored, isLazy: bool, reg: Registry)
    decreases raw
  {
    match raw
    case Plain(_) => true
    case Ref(o) => isLazy && o in reg && !reg[o].guarded ==> h == LazyRef(o, Some(reg[o]))
    case Array(items) => h.ListOf? && PreloadedAll(h.items, items, isLazy, reg)
    case Dict(_, vals) => h.DictOf? && PreloadedAll(h.vals, vals, isLazy, reg)
  }

  ghost predicate PreloadedAll(hs: seq<Hydrated>, raws: seq<Stored>, isLazy: bool, reg: Registry)
    decreases raws
  {
    |hs| == |raws| &&
    (raws == [] ||
     (PreloadedAll(hs[..|hs| - 1], raws[..|raws| - 1], isLazy, reg) && Preloaded(hs[|hs| - 1], raws[|raws| - 1], isLazy, reg)))
  }

  lemma {:induction false} PreloadedEarlier(h: Hydrated, raw: Stored, isLazy: bool, a: Registry, b: Registry)
    requires Preloaded(h, raw, isLazy, b) && forall o :: o in a ==> o in b && b[o] == a[o]
    ensures Preloaded(h, raw, isLazy, a)
    decreases raw
  {
    match raw
    case Array(items) => PreloadedAllEarlier(h.items, items, isLazy, a, b);
    case Dict(_, vals) => PreloadedAllEarlier(h.vals, vals, isLazy, a, b);
    case _ =>
  }

  lemma {:induction false} PreloadedAllEarlier(hs: seq<Hydrated>, raws: seq<Stored>, isLazy: bool, a: Registry, b: Registry)
    requires PreloadedAll(hs, raws, isLazy, b) && forall o :: o in a ==> o in b && b[o] == a[o]
    ensures PreloadedAll(hs, raws, isLazy, a)
    decreases raws
  {
    if raws != [] {
      PreloadedAllEarlier(hs[..|hs| - 1], raws[..|raws| - 1], isLazy, a, b);
      PreloadedEarlier(hs[|hs| - 1], raws[|raws| - 1], isLazy, a, b);
    }
  }

  /** So for every field of the object. */
  ghost predicate FieldsPreloaded(db: Db, values: seq<Hydrated>, o: Oid, reg: Registry) {
    && Known(db, o) && |values| <= |ClassOf(db, o).plan|
    && forall i :: 0 <= i < |values| ==> Derivable(db, o, i) && Preloaded(values[i], Raw(db, o, i), ClassOf(db, o).plan[i].lazyRefs, reg)
  }

  lemma OneMorePreloaded(db: Db, values: seq<Hydrated>, h: Hydrated, o: Oid, reg: Registry)
    requires FieldsPreloaded(db, values, o, reg) && |values| < |ClassOf(db, o).plan| && Derivable(db, o, |values|)
    requires Preloaded(h, Raw(db, o, |values|), ClassOf(db, o).plan[|values|].lazyRefs, reg)
    ensures FieldsPreloaded(db, values + [h], o, reg)
  {
    hide Preloaded, Raw, Derivable;
  }

  lemma NonePreloaded(db: Db, o: Oid, reg: Registry)
    requires Known(db, o)
    ensures FieldsPreloaded(db, [], o, reg)
  {
  }

  /** `b` has everything `a` has, and what it adds is as the records say. */
  ghost predicate Extends(db: Db, a: Registry, b: Registry) {
    && (forall o :: o in a ==> o in b && b[o] == a[o])
    && (forall o :: o in b && o !in a ==> Known(db, o) && b[o].guarded == ClassOf(db, o).guarded)
  }

  lemma {:induction false} ResolvedStays(db: Db, h: Hydrated, raw: Stored, isLazy: bool, a: Registry, b: Registry)
    requires Resolved(db, h, raw, isLazy, a) && Extends(db, a, b)
    ensures Resolved(db, h, raw, isLazy, b)
    decreases raw
  {
    match raw
    case Array(items) => ResolvedAllStays(db, h.items, items, isLazy, a, b);
    case Dict(_, vals) => ResolvedAllStays(db, h.vals, vals, isLazy, a, b);
    case _ =>
  }

  lemma {:induction false} ResolvedAllStays(db: Db, hs: seq<Hydrated>, raws: seq<Stored>, isLazy: bool, a: Registry, b: Registry)
    requires ResolvedAll(db, hs, raws, isLazy, a) && Extends(db, a, b)
    ensures ResolvedAll(db, hs, raws, isLazy, b)
    decreases raws
  {
    if raws != [] {
      ResolvedAllStays(db, hs[..|hs| - 1], raws[..|raws| - 1], isLazy, a, b);
      ResolvedStays(db, hs[|hs| - 1], raws[|raws| - 1], isLazy, a, b);
    }
  }

  /** What an eagerly resolved value refers to is registered, or guarded. */
  lemma {:induction false} ResolvedRefs(db: Db, h: Hydrated, raw: Stored, reg: Registry, t: Oid)
    requires Resolved(db, h, raw, false, reg) && t in StoredRefs(raw)
    ensures t in reg || (Known(db, t) && ClassOf(db, t).guarded)
    decreases raw
  {
    match raw
    case Array(items) => ResolvedAllRefs(db, h.items, items, reg, t);
    case Dict(_, vals) => ResolvedAllRefs(db, h.vals, vals, reg, t);
    case _ =>
  }

  lemma {:induction false} ResolvedAllRefs(db: Db, hs: seq<Hydrated>, raws: seq<Stored>, reg: Registry, t: Oid)
    requires ResolvedAll(db, hs, raws, false, reg) && t in StoredRefsOfAll(raws)
    ensures t in reg || (Known(db, t) && ClassOf(db, t).guarded)
    decreases raws
  {
    if raws != [] {
      if t in StoredRefsOfAll(raws[..|raws| - 1]) {
        ResolvedAllRefs(db, hs[..|hs| - 1], raws[..|raws| - 1], reg, t);
      } else {
        ResolvedRefs(db, hs[|hs| - 1], raws[|raws| - 1], reg, t);
      }
    }
  }

  /** The object holds, field by field, what its record says. */
  ghost predicate FilledFrom(db: Db, values: seq<Hydrated>, o: Oid, reg: Registry, n: nat) {
    && Known(db, o) && Shapely(db, o) && |values| == n <= |ClassOf(db, o).plan|
    && forall i :: 0 <= i < n ==> FieldFrom(db, values, o, reg, i)
  }

  ghost predicate FieldFrom(db: Db, values: seq<Hydrated>, o: Oid, reg: Registry, i: nat)
    requires Known(db, o) && Shapely(db, o) && i < |values| && i < |ClassOf(db, o).plan|
  {
    Derivable(db, o, i) && Resolved(db, values[i], Raw(db, o, i), ClassOf(db, o).plan[i].lazyRefs, reg)
  }

  ghost predicate Complete(db: Db, values: seq<Hydrated>, o: Oid, reg: Registry) {
    Known(db, o) && FilledFrom(db, values, o, reg, |ClassOf(db, o).plan|)
  }

  lemma FilledStays(db: Db, values: seq<Hydrated>, o: Oid, n: nat, a: Registry, b: Registry)
    requires FilledFrom(db, values, o, a, n) && Extends(db, a, b)
    ensures FilledFrom(db, values, o, b, n)
  {
    hide Resolved, Extends;
    forall i | 0 <= i < n
      ensures FieldFrom(db, values, o, b, i)
    {
      assert FieldFrom(db, values, o, a, i);
      ResolvedStays(db, values[i], Raw(db, o, i), ClassOf(db, o).plan[i].lazyRefs, a, b);
    }
  }

  lemma CompleteRefs(db: Db, values: seq<Hydrated>, o: Oid, reg: Registry, t: Oid)
    requires Complete(db, values, o, reg) && RefersEagerly(db, o, t)
    ensures t in reg || (Known(db, t) && ClassOf(db, t).guarded)
  {
    hide Resolved;
    var i :| 0 <= i < |ClassOf(db, o).plan| && EagerAt(db, o, i, t);
    assert FieldFrom(db, values, o, reg, i);
    ResolvedRefs(db, values[i], Raw(db, o, i), reg, t);
  }

  // ---------------------------------------------------------------- the loader

  ghost function EagerRefs(db: Db, o: Oid): set<Oid>
    requires Known(db, o)
  {
    if Shapely(db, o) then EagerUpTo(db, o, |ClassOf(db, o).plan|) else {}
  }

  ghost function EagerUpTo(db: Db, o: Oid, n: nat): set<Oid>
    requires Known(db, o) && Shapely(db, o) && n <= |ClassOf(db, o).plan|
  {
    if n == 0 then {}
    else EagerUpTo(db, o, n - 1)
         + if !Derivable(db, o, n - 1) || ClassOf(db, o).plan[n - 1].lazyRefs then {} else StoredRefs(Raw(db, o, n - 1))
  }

  lemma {:induction false} EagerUpToHolds(db: Db, o: Oid, n: nat, t: Oid)
    requires Known(db, o) && Shapely(db, o) && n <= |ClassOf(db, o).plan|
    ensures t in EagerUpTo(db, o, n) <==> exists i :: 0 <= i < n && EagerAt(db, o, i, t)
  {
    hide Raw, StoredRefs;
    if n > 0 {
      EagerUpToHolds(db, o, n - 1, t);
      assert EagerAt(db, o, n - 1, t)
        <==> Derivable(db, o, n - 1) && !ClassOf(db, o).plan[n - 1].lazyRefs && t in StoredRefs(Raw(db, o, n - 1));
    }
  }

  lemma EagerRefsHold(db: Db, o: Oid, i: nat)
    requires Known(db, o) && Shapely(db, o) && i < |ClassOf(db, o).plan| && Derivable(db, o, i)
    ensures (if ClassOf(db, o).plan[i].lazyRefs then {} else StoredRefs(Raw(db, o, i))) <= EagerRefs(db, o)
  {
    hide Raw, StoredRefs;
    if !ClassOf(db, o).plan[i].lazyRefs {
      forall t | t in StoredRefs(Raw(db, o, i))
        ensures t in EagerRefs(db, o)
      {
        EagerUpToHolds(db, o, |ClassOf(db, o).plan|, t);
        assert EagerAt(db, o, i, t);
      }
    }
  }

  lemma FilledOneMore(db: Db, values: seq<Hydrated>, h: Hydrated, o: Oid, i: nat, a: Registry, b: Registry)
    requires FilledFrom(db, values, o, a, i) && Extends(db, a, b) && i < |ClassOf(db, o).plan|
    requires Derivable(db, o, i) && Resolved(db, h, Raw(db, o, i), ClassOf(db, o).plan[i].lazyRefs, b)
    ensures FilledFrom(db, values + [h], o, b, i + 1)
  {
    hide Resolved, Extends;
    FilledStays(db, values, o, i, a, b);
    forall j | 0 <= j < i + 1
      ensures FieldFrom(db, values + [h], o, b, j)
    {
      if j < i {
        assert FieldFrom(db, values, o, b, j);
      }
    }
  }

  lemma EarlierHeld(db: Db, a: Registry, b: Registry)
    requires Extends(db, a, b)
    ensures forall o :: o in a ==> o in b && b[o] == a[o]
  {
  }

  lemma StillHeld(db: Db, a: Registry, b: Registry, o: Oid)
    requires Extends(db, a, b) && o in a
    ensures o in b && b[o] == a[o]
  {
  }

  /** What linking did: shells for some of the `wanted` OIDs, registered and queued in the same order. */
  ghost predicate Linked(db: Db, a: Registry, b: Registry, d0: seq<Oid>, d1: seq<Oid>, q0: seq<Oid>, q1: seq<Oid>, wanted: set<Oid>) {
    && Extends(db, a, b) && d0 <= d1 && q1 == q0 + d1[|d0|..]
    && (forall o :: o in b && o !in a ==> o in wanted && b[o].oid == o && !b[o].guarded)
    && (forall o :: o in d1[|d0|..] <==> o in b && o !in a)
    && (forall i, j :: |d0| <= i < j < |d1| ==> d1[i] != d1[j])
  }

  lemma LinkedNothing(db: Db, a: Registry, d: seq<Oid>, q: seq<Oid>, wanted: set<Oid>)
    ensures Linked(db, a, a, d, d, q, q, wanted)
  {
  }

  lemma LinkedOne(db: Db, a: Registry, d: seq<Oid>, q: seq<Oid>, o: Oid, shell: Instance)
    requires o !in a && Known(db, o) && shell.oid == o && !shell.guarded && !ClassOf(db, o).guarded
    ensures Linked(db, a, a[o := shell], d, d + [o], q, q + [o], {o})
  {
    assert (d + [o])[|d|..] == [o];
  }

  lemma LinkedTwice(db: Db, a: Registry, b: Registry, c: Registry, d0: seq<Oid>, d1: seq<Oid>, d2: seq<Oid>,
                    q0: seq<Oid>, q1: seq<Oid>, q2: seq<Oid>, w1: set<Oid>, w2: set<Oid>)
    requires Linked(db, a, b, d0, d1, q0, q1, w1) && Linked(db, b, c, d1, d2, q1, q2, w2)
    ensures Linked(db, a, c, d0, d2, q0, q2, w1 + w2)
  {
    assert d2[|d0|..] == d1[|d0|..] + d2[|d1|..];
    assert forall o :: o in d2[|d0|..] <==> o in d1[|d0|..] || o in d2[|d1|..];
    forall i, j | |d0| <= i < j < |d2|
      ensures d2[i] != d2[j]
    {
      if j < |d1| {
        assert d2[i] == d1[i] && d2[j] == d1[j];
      } else if i < |d1| {
        assert d2[i] == d1[i] == d1[|d0|..][i - |d0|];
        assert d2[j] == d2[|d1|..][j - |d1|];
        assert d2[i] in b && d2[j] !in b;
      }
    }
  }

  lemma LinkedWider(db: Db, a: Registry, b: Registry, d0: seq<Oid>, d1: seq<Oid>, q0: seq<Oid>, q1: seq<Oid>, w1: set<Oid>, w2: set<Oid>)
    requires Linked(db, a, b, d0, d1, q0, q1, w1) && w1 <= w2
    ensures Linked(db, a, b, d0, d1, q0, q1, w2)
  {
  }

  ghost predicate Dangles(db: Db, reg: Registry, t: Oid) {
    t !in reg && !Known(db, t)
  }

  class Loader {
    const db: Db
    var registry: Registry
    /** The OIDs this load registered, and those still to fill. */
    var registered: seq<Oid>
    var queue: seq<Oid>

    constructor (db: Db, registry: Registry)
      ensures this.db == db && this.registry == registry && registered == [] && queue == []
    {
      this.db, this.registry, registered, queue := db, registry, [], [];
    }

    /** The registry's object, or a bare shell registered and queued for it; guarded targets stay lazy. */
    method Link(o: Oid) returns (ok: bool, h: Hydrated)
      modifies this`registry, this`registered, this`queue
      ensures Linked(db, old(registry), registry, old(registered), registered, old(queue), queue, {o})
      ensures forall p :: p in registry && p !in old(registry) ==> fresh(registry[p]) && registry[p].values == []
      ensures ok ==> Resolved(db, h, Ref(o), false, registry)
      ensures ok <==> !old(Dangles(db, registry, o))
    {
      h := Val("");
      LinkedNothing(db, registry, registered, queue, {o});
      if o in registry {
        return true, if registry[o].guarded then LazyRef(o, None) else Obj(registry[o]);
      }
      if !Known(db, o) {
        return false, h;
      }
      if ClassOf(db, o).guarded {
        return true, LazyRef(o, None);
      }
      var shell := new Instance(o, false);
      LinkedOne(db, registry, registered, queue, o, shell);
      registry, registered, queue := registry[o := shell], registered + [o], queue + [o];
      return true, Obj(shell);
    }

    /** Hydrates a value tree, linking its eager references as they come. */
    method Resolve(raw: Stored, isLazy: bool) returns (ok: bool, h: Hydrated)
      modifies this`registry, this`registered, this`queue
      ensures Linked(db, old(registry), registry, old(registered), registered, old(queue), queue, if isLazy then {} else StoredRefs(raw))
      ensures forall p :: p in registry && p !in old(registry) ==> fresh(registry[p]) && registry[p].values == []
      ensures ok ==> Resolved(db, h, raw, isLazy, registry) && Preloaded(h, raw, isLazy, old(registry))
      ensures !ok ==> !isLazy && exists t :: t in StoredRefs(raw) && old(Dangles(db, registry, t))
      decreases raw
    {
      hide Linked, Extends, Dangles;
      h := Val("");
      LinkedNothing(db, registry, registered, queue, if isLazy then {} else StoredRefs(raw));
      match raw
      case Plain(text) => return true, Val(text);
      case Ref(o) =>
        if isLazy {
          if o in registry && !registry[o].guarded {
            return true, LazyRef(o, Some(registry[o]));
          }
          return true, LazyRef(o, None);
        }
        assert StoredRefs(raw) == {o};
        ok, h := Link(o);
      case Array(items) =>
        var hs;
        ok, hs := ResolveAll(items, isLazy);
        assert StoredRefs(raw) == StoredRefsOfAll(items);
        h := ListOf(hs);
      case Dict(keys, vals) =>
        var hs;
        ok, hs := ResolveAll(vals, isLazy);
        assert StoredRefs(raw) == StoredRefsOfAll(vals);
        h := DictOf(keys, hs);
    }

    method ResolveAll(raws: seq<Stored>, isLazy: bool) returns (ok: bool, hs: seq<Hydrated>)
      modifies this`registry, this`registered, this`queue
      ensures Linked(db, old(registry), registry, old(registered), registered, old(queue), queue, if isLazy then {} else StoredRefsOfAll(raws))
      ensures forall p :: p in registry && p !in old(registry) ==> fresh(registry[p]) && registry[p].values == []
      ensures ok ==> ResolvedAll(db, hs, raws, isLazy, registry) && PreloadedAll(hs, raws, isLazy, old(registry))
      ensures !ok ==> !isLazy && exists t :: t in StoredRefsOfAll(raws) && old(Dangles(db, registry, t))
      decreases raws
    {
      hide Linked, Extends, Resolved, Preloaded;
      LinkedNothing(db, registry, registered, queue, if isLazy then {} else StoredRefsOfAll(raws));
      if raws == [] {
        return true, [];
      }
      ghost var r0, d0, q0 := registry, registered, queue;
      ok, hs := ResolveAll(raws[..|raws| - 1], isLazy);
      ghost var r1, d1, q1 := registry, registered, queue;
      ghost var w1 := if isLazy then {} else StoredRefsOfAll(raws[..|raws| - 1]);
      ghost var w := if isLazy then {} else StoredRefsOfAll(raws);
      LinkedWider(db, r0, r1, d0, d1, q0, q1, w1, w);
      if !ok {
        return;
      }
      var h;
      ok, h := Resolve(raws[|raws| - 1], isLazy);
      ghost var w2 := if isLazy then {} else StoredRefs(raws[|raws| - 1]);
      LinkedExtends(db, r1, registry, d1, registered, q1, queue, w2);
      LinkedTwice(db, r0, r1, registry, d0, d1, registered, q0, q1, queue, w1, w2);
      assert w1 + w2 == w;
      LinkedStillDangles(db, r0, r1, d0, d1, q0, q1, w1);
      if ok {
        ResolvedAllStays(db, hs, raws[..|raws| - 1], isLazy, r1, registry);
        LinkedExtends(db, r0, r1, d0, d1, q0, q1, w1);
        EarlierHeld(db, r0, r1);
        PreloadedEarlier(h, raws[|raws| - 1], isLazy, r0, r1);
        hs := hs + [h];
        assert hs[..|hs| - 1] == hs[..|raws| - 1];
      }
    }

    /** Fills one registered shell from its record, field by field. */
    method Fill(o: Oid, shell: Instance) returns (ok: bool)
      requires PlansFit(db) && o in registry && registry[o] == shell && Known(db, o) && shell.values == []
      modifies this`registry, this`registered, this`queue, shell`values
      ensures Linked(db, old(registry), registry, old(registered), registered, old(queue), queue, EagerRefs(db, o))
      ensures forall p :: p in registry && p !in old(registry) ==> fresh(registry[p]) && registry[p].values == []
      ensures o in registry && registry[o] == shell
      ensures ok ==> Complete(db, shell.values, o, registry) && FieldsPreloaded(db, shell.values, o, old(registry))
      ensures !ok ==> !Shapely(db, o) || Underivable(db, o) || exists t :: RefersEagerly(db, o, t) && old(Dangles(db, registry, t))
    {
      hide Linked, Extends, Resolved, Dangles, EagerRefs, Preloaded, FieldsPreloaded;
      LinkedNothing(db, registry, registered, queue, EagerRefs(db, o));
      NonePreloaded(db, o, registry);
      if !Shapely(db, o) {
        return false;
      }
      ghost var r0, d0, q0 := registry, registered, queue;
      var n := |ClassOf(db, o).plan|;
      for i := 0 to n
        invariant Linked(db, r0, registry, d0, registered, q0, queue, EagerRefs(db, o))
        invariant forall p :: p in registry && p !in r0 ==> fresh(registry[p]) && registry[p].values == []
        invariant o in registry && registry[o] == shell && FilledFrom(db, shell.values, o, registry, i)
        invariant FieldsPreloaded(db, shell.values, o, r0)
      {
        if !Derivable(db, o, i) {
          return false;
        }
        var isLazy := ClassOf(db, o).plan[i].lazyRefs;
        ghost var wanted := if isLazy then {} else StoredRefs(Raw(db, o, i));
        ghost var r1, d1, q1 := registry, registered, queue;
        var h;
        ok, h := Resolve(Raw(db, o, i), isLazy);
        EagerRefsHold(db, o, i);
        LinkedWider(db, r1, registry, d1, registered, q1, queue, wanted, EagerRefs(db, o));
        LinkedTwice(db, r0, r1, registry, d0, d1, registered, q0, q1, queue, EagerRefs(db, o), EagerRefs(db, o));
        assert EagerRefs(db, o) + EagerRefs(db, o) == EagerRefs(db, o);
        LinkedStillDangles(db, r0, r1, d0, d1, q0, q1, EagerRefs(db, o));
        LinkedExtends(db, r1, registry, d1, registered, q1, queue, wanted);
        StillHeld(db, r1, registry, o);
        if !ok {
          assert forall t :: t in StoredRefs(Raw(db, o, i)) ==> EagerAt(db, o, i, t);
          return;
        }
        FilledOneMore(db, shell.values, h, o, i, r1, registry);
        LinkedExtends(db, r0, r1, d0, d1, q0, q1, EagerRefs(db, o));
        EarlierHeld(db, r0, r1);
        PreloadedEarlier(h, Raw(db, o, i), isLazy, r0, r1);
        OneMorePreloaded(db, shell.values, h, o, r0);
        shell.values := shell.values + [h];
      }
      ok := true;
    }

    /** Discards every shell this load registered. */
    method Rollback(ghost start: Registry)
      requires forall o :: o in start ==> o in registry && registry[o] == start[o]
      requires forall o :: o in registered <==> o in registry && o !in start
      modifies this`registry
      ensures registry == start
    {
      ghost var full := registry;
      for i := 0 to |registered|
        invariant registry == full - ToSet(registered[..i])
      {
        assert registered[..i + 1] == registered[..i] + [registered[i]];
        registry := registry - {registered[i]};
      }
      assert registered[..|registered|] == registered;
    }

    /** Takes the next shell off the queue and fills it. */
    method FillNext(ghost start: Registry, ghost root: Oid, shell: Instance) returns (ok: bool)
      requires PlansFit(db) && queue != [] && queue[0] in registry && registry[queue[0]] == shell
      requires Tracks(db, start, registry, registered, queue, root)
      requires forall o :: o in queue ==> o in registry && registry[o].values == []
      requires forall o :: o in registered && o !in queue ==> o in registry && Complete(db, registry[o].values, o, registry)
      modifies this`registry, this`registered, this`queue, shell`values
      ensures Tracks(db, start, registry, registered, queue, root)
      ensures forall o :: o in registry && o !in old(registry) ==> fresh(registry[o])
      ensures forall o :: o in old(registry) ==> o in registry && registry[o] == old(registry)[o]
      ensures old(registered) <= registered && forall o :: o in registered && o !in old(registered) ==> o !in old(registry)
      ensures ok ==> forall o :: o in queue ==> registry[o].values == []
      ensures ok ==> forall o :: o in registered && o !in queue ==> Complete(db, registry[o].values, o, registry)
      ensures ok ==> |Left(db, registry)| < |old(Left(db, registry))| || (|Left(db, registry)| == |old(Left(db, registry))| && |queue| < |old(queue)|)
      ensures !ok ==> Fails(db, start.Keys, root)
    {
      hide Linked, Extends, Resolved, Complete, Follows, RefersEagerly, Shapely, Reachable, EagerRefs, Unfillable, PlansFit, Fails, Left, Tracks;
      var o := queue[0];
      ghost var r0, d0, q0 := registry, registered, queue;
      ghost var rest, vals := q0[1..], map p | p in r0 :: r0[p].values;
      PopTracks(db, start, r0, d0, q0, root);
      queue := queue[1..];
      ok := Fill(o, shell);
      TracksBase(db, start, r0, d0, rest, root);
      FillTracks(db, start, r0, registry, d0, registered, rest, queue, root, o);
      FillMeasure(db, r0, registry, d0, registered, rest, queue, EagerRefs(db, o));
      FillMembers(db, r0, registry, d0, registered, rest, queue, EagerRefs(db, o));
      OtherShells(db, start, r0, d0, rest, root);
      if !ok {
        FillFails(db, start, r0, o, root);
        return;
      }
      forall p | p in queue
        ensures registry[p].values == []
      {
        if p in rest {
          assert p in q0 && vals[p] == [] && r0[p] != shell;
        }
      }
      forall p | p in registered && p !in queue
        ensures Complete(db, registry[p].values, p, registry)
      {
        if p != o {
          assert p in d0 && p !in q0 && r0[p] != shell && vals[p] == registry[p].values;
          CompleteStays(db, vals[p], p, r0, registry);
        }
      }
    }

    /** Loads the root and its eager closure, all or nothing. */
    method MaterializeGraph(root: Oid) returns (r: Option<Instance>)
      requires PlansFit(db)
      modifies this
      ensures r.None? ==> registry == old(registry)
      ensures r.None? <==> root !in old(registry) && Fails(db, old(registry).Keys, root)
      ensures root in old(registry) ==> r == Some(old(registry)[root]) && registry == old(registry)
      ensures r.Some? ==> root in registry && r.value == registry[root]
      ensures r.Some? && root !in old(registry) ==>
        forall o :: o in registry <==> o in old(registry) || Reachable(db, old(registry).Keys, root, o)
      ensures forall o :: o in old(registry) ==> o in registry && registry[o] == old(registry)[o]
      ensures forall o :: o in registry && o !in old(registry) ==>
        fresh(registry[o]) && registry[o].oid == o && Complete(db, registry[o].values, o, registry)
    {
      hide Linked, Extends, Resolved, Complete, Follows, RefersEagerly, Shapely, Reachable, EagerRefs, Unfillable, PlansFit;
      registered, queue := [], [];
      ghost var start := registry;
      if root in registry {
        return Some(registry[root]);
      }
      ReachRoot(db, start.Keys, root);
      if !Known(db, root) {
        return None;
      }
      var shell := new Instance(root, ClassOf(db, root).guarded);
      StartExtends(db, start, root, shell);
      registry, registered, queue := registry[root := shell], [root], [root];
      while queue != []
        invariant Tracks(db, start, registry, registered, queue, root) && root in registered
        invariant forall o :: o in registered ==> fresh(registry[o])
        invariant forall o :: o in queue ==> registry[o].values == []
        invariant forall o :: o in registered && o !in queue ==> Complete(db, registry[o].values, o, registry)
        decreases |Left(db, registry)|, |queue|
      {
        PopTracks(db, start, registry, registered, queue, root);
        var ok := FillNext(start, root, registry[queue[0]]);
        if !ok {
          TracksBase(db, start, registry, registered, queue, root);
          Rollback(start);
          return None;
        }
      }
      r := Some(registry[root]);
      TracksBase(db, start, registry, registered, queue, root);
      AllReached(db, start, registry, registered, map p | p in registered :: registry[p].values, root);
    }
  }

  lemma LinkedExtends(db: Db, a: Registry, b: Registry, d0: seq<Oid>, d1: seq<Oid>, q0: seq<Oid>, q1: seq<Oid>, wanted: set<Oid>)
    requires Linked(db, a, b, d0, d1, q0, q1, wanted)
    ensures Extends(db, a, b)
    ensures forall o :: o in b && o !in a ==> o in wanted && b[o].oid == o
  {
  }

  lemma LinkedStillDangles(db: Db, a: Registry, b: Registry, d0: seq<Oid>, d1: seq<Oid>, q0: seq<Oid>, q1: seq<Oid>, wanted: set<Oid>)
    requires Linked(db, a, b, d0, d1, q0, q1, wanted)
    ensures forall t :: Dangles(db, b, t) <==> Dangles(db, a, t)
  {
  }

  /** Loading fails: no root, or something unfillable in its eager closure. */
  ghost predicate Fails(db: Db, start: set<Oid>, root: Oid) {
    !Known(db, root) || exists o :: Reachable(db, start, root, o) && Unfillable(db, start, o)
  }

  ghost predicate Distinct(s: seq<Oid>) {
    forall i, j :: 0 <= i < j < |s| ==> s[i] != s[j]
  }

  ghost function Left(db: Db, reg: Registry): set<Oid> {
    set o | o in db.records && o !in reg
  }

  /** The registry is the start plus the registered, all of them in the closure; the queue is part of those. */
  ghost predicate Tracks(db: Db, start: Registry, reg: Registry, registered: seq<Oid>, queue: seq<Oid>, root: Oid) {
    && Extends(db, start, reg) && Distinct(queue)
    && (forall o :: o in registered <==> o in reg && o !in start)
    && (forall o :: o in queue ==> o in registered)
    && (forall o :: o in registered ==> reg[o].oid == o && Reachable(db, start.Keys, root, o))
  }

  lemma StartExtends(db: Db, start: Registry, root: Oid, shell: Instance)
    requires root !in start && Known(db, root) && shell.oid == root && shell.guarded == ClassOf(db, root).guarded
    ensures Tracks(db, start, start[root := shell], [root], [root], root)
  {
    ReachRoot(db, start.Keys, root);
  }

  lemma PopTracks(db: Db, start: Registry, reg: Registry, registered: seq<Oid>, queue: seq<Oid>, root: Oid)
    requires queue != [] && Tracks(db, start, reg, registered, queue, root)
    ensures Tracks(db, start, reg, registered, queue[1..], root) && queue[0] !in queue[1..]
    ensures queue[0] in registered && queue[0] in reg && Known(db, queue[0])
  {
    assert queue[0] in queue;
    assert forall i :: 1 <= i < |queue| ==> queue[1..][i - 1] == queue[i];
    assert forall o :: o in queue[1..] ==> o in queue;
    hide Reachable;
  }

  /** What the rest of the load relies on. */
  lemma TracksBase(db: Db, start: Registry, reg: Registry, registered: seq<Oid>, queue: seq<Oid>, root: Oid)
    requires Tracks(db, start, reg, registered, queue, root)
    ensures Extends(db, start, reg) && (forall o :: o in start ==> o in reg && reg[o] == start[o])
    ensures (forall o :: o in registered <==> o in reg && o !in start) && (forall o :: o in queue ==> o in registered)
    ensures forall o :: o in registered ==> Reachable(db, start.Keys, root, o)
  {
    hide Reachable;
  }

  /** Different OIDs, different shells. */
  lemma OtherShells(db: Db, start: Registry, reg: Registry, registered: seq<Oid>, queue: seq<Oid>, root: Oid)
    requires Tracks(db, start, reg, registered, queue, root)
    ensures forall o, p :: o in registered && p in registered && o != p ==> reg[o] != reg[p]
  {
    hide Reachable, Extends;
  }

  lemma FillTracks(db: Db, start: Registry, r0: Registry, r1: Registry, d0: seq<Oid>, d1: seq<Oid>, q0: seq<Oid>, q1: seq<Oid>, root: Oid, o: Oid)
    requires Tracks(db, start, r0, d0, q0, root) && o in d0 && Known(db, o)
    requires Linked(db, r0, r1, d0, d1, q0, q1, EagerRefs(db, o))
    ensures Tracks(db, start, r1, d1, q1, root) && Extends(db, r0, r1)
  {
    hide Reachable, EagerRefs, Shapely, Follows, Distinct, Derivable, StoredRefs;
    FillMembers(db, r0, r1, d0, d1, q0, q1, EagerRefs(db, o));
    var added := d1[|d0|..];
    assert forall p :: p in d1 <==> p in d0 || p in added;
    forall p | p in added
      ensures Reachable(db, start.Keys, root, p)
    {
      EagerRefFollows(db, start, o, p);
      ReachNext(db, start.Keys, root, o, p);
    }
    StillDistinct(r0, r1, d0, d1, q0, q1);
  }

  lemma StillDistinct(r0: Registry, r1: Registry, d0: seq<Oid>, d1: seq<Oid>, q0: seq<Oid>, q1: seq<Oid>)
    requires Distinct(q0) && (forall o :: o in q0 ==> o in r0) && d0 <= d1 && q1 == q0 + d1[|d0|..]
    requires (forall o :: o in d1[|d0|..] ==> o !in r0) && forall i, j :: |d0| <= i < j < |d1| ==> d1[i] != d1[j]
    ensures Distinct(q1)
  {
    var added := d1[|d0|..];
    forall i, j | 0 <= i < j < |q1|
      ensures q1[i] != q1[j]
    {
      if j >= |q0| {
        assert q1[j] == added[j - |q0|] == d1[|d0| + j - |q0|];
        if i < |q0| {
          assert q1[i] in q0 && q1[j] in added;
        } else {
          assert q1[i] == added[i - |q0|] == d1[|d0| + i - |q0|];
        }
      }
    }
  }

  lemma FillMembers(db: Db, r0: Registry, r1: Registry, d0: seq<Oid>, d1: seq<Oid>, q0: seq<Oid>, q1: seq<Oid>, wanted: set<Oid>)
    requires Linked(db, r0, r1, d0, d1, q0, q1, wanted)
    ensures d0 <= d1 && (forall p :: p in r0 ==> p in r1 && r1[p] == r0[p])
    ensures forall p :: p in q1 <==> p in q0 || (p in r1 && p !in r0)
    ensures forall p :: p in d1 <==> p in d0 || (p in r1 && p !in r0)
  {
    var added := d1[|d0|..];
    assert d1 == d0 + added;
    assert forall p :: p in d1 <==> p in d0 || p in added;
    assert forall p :: p in q1 <==> p in q0 || p in added;
  }

  lemma FillMeasure(db: Db, r0: Registry, r1: Registry, d0: seq<Oid>, d1: seq<Oid>, q0: seq<Oid>, q1: seq<Oid>, wanted: set<Oid>)
    requires Linked(db, r0, r1, d0, d1, q0, q1, wanted)
    ensures |Left(db, r1)| < |Left(db, r0)| || (|Left(db, r1)| == |Left(db, r0)| && q1 == q0)
  {
    var added := d1[|d0|..];
    if added == [] {
      assert Left(db, r1) == Left(db, r0);
    } else {
      assert added[0] in added;
      assert Left(db, r1) <= Left(db, r0) - {added[0]};
      Smaller(Left(db, r1), Left(db, r0) - {added[0]});
    }
  }

  lemma EagerRefFollows(db: Db, start: Registry, o: Oid, t: Oid)
    requires Known(db, o) && t in EagerRefs(db, o) && t !in start && Known(db, t) && !ClassOf(db, t).guarded
    ensures Follows(db, start.Keys, o, t)
  {
    EagerUpToHolds(db, o, |ClassOf(db, o).plan|, t);
  }

  lemma FillFails(db: Db, start: Registry, reg: Registry, o: Oid, root: Oid)
    requires Extends(db, start, reg) && Known(db, o) && Reachable(db, start.Keys, root, o)
    requires !Shapely(db, o) || Underivable(db, o) || exists t :: RefersEagerly(db, o, t) && Dangles(db, reg, t)
    ensures Fails(db, start.Keys, root)
  {
    hide RefersEagerly, Shapely, Reachable, Underivable;
    assert Unfillable(db, start.Keys, o);
  }

  lemma CompleteStays(db: Db, values: seq<Hydrated>, o: Oid, a: Registry, b: Registry)
    requires Complete(db, values, o, a) && Extends(db, a, b)
    ensures Complete(db, values, o, b)
  {
    hide Extends;
    FilledStays(db, values, o, |ClassOf(db, o).plan|, a, b);
  }

  /** With the queue empty, the registered are the whole closure and nothing in it was unfillable. */
  lemma AllReached(db: Db, start: Registry, reg: Registry, registered: seq<Oid>, values: map<Oid, seq<Hydrated>>, root: Oid)
    requires Tracks(db, start, reg, registered, [], root) && root in registered
    requires forall o :: o in registered ==> o in values && Complete(db, values[o], o, reg)
    ensures forall o :: o in reg <==> o in start || Reachable(db, start.Keys, root, o)
    ensures Known(db, root) && !Fails(db, start.Keys, root)
  {
    hide Complete, RefersEagerly, Reachable;
    var held := ToSet(registered);
    forall a, b | a in held && Follows(db, start.Keys, a, b)
      ensures b in held
    {
      CompleteRefs(db, values[a], a, reg, b);
    }
    forall o | Reachable(db, start.Keys, root, o)
      ensures o in held
    {
      ReachableHeld(db, start.Keys, root, held, o);
    }
    forall o | o in held
      ensures !Unfillable(db, start.Keys, o)
    {
      CompleteFillable(db, start, reg, values[o], o);
    }
    CompleteKnown(db, values[root], root, reg);
  }

  lemma CompleteKnown(db: Db, values: seq<Hydrated>, o: Oid, reg: Registry)
    requires Complete(db, values, o, reg)
    ensures Known(db, o) && Shapely(db, o) && !Underivable(db, o)
  {
    forall i | 0 <= i < |ClassOf(db, o).plan|
      ensures Derivable(db, o, i)
    {
      assert FieldFrom(db, values, o, reg, i);
    }
  }

  lemma ReachableHeld(db: Db, start: set<Oid>, root: Oid, held: set<Oid>, o: Oid)
    requires root in held && Reachable(db, start, root, o)
    requires forall a, b :: a in held && Follows(db, start, a, b) ==> b in held
    ensures o in held
  {
    var p :| IsPath(db, start, root, o, p);
    ClosedHoldsAll(db, start, root, held, p, o);
  }

  lemma CompleteFillable(db: Db, start: Registry, reg: Registry, values: seq<Hydrated>, o: Oid)
    requires Extends(db, start, reg) && Complete(db, values, o, reg)
    ensures !Unfillable(db, start.Keys, o)
  {
    CompleteKnown(db, values, o, reg);
    hide Complete, RefersEagerly, Underivable;
    forall t | RefersEagerly(db, o, t)
      ensures t in start || Known(db, t)
    {
      CompleteRefs(db, values, o, reg, t);
    }
  }
}
