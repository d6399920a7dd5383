/**
 The query transformation: a condition becomes candidate OIDs answered from an index and a residual
 evaluated on their rows, without changing which rows it selects.
 */
module Planner {
  import opened Wire
  import opened Keys
  import opened IndexSpec
  import opened Conditions

  datatype Planned = Planned(bitmap: Option<set<Oid>>, residual: Option<Cond>)

  // ------------------------------------------------------------ range slices

  /** Unites the postings of the listed keys. */
  function UnionOf(col: Column, keys: seq<Key>): set<Oid> {
    if keys == [] then {} else UnionOf(col, keys[..|keys| - 1]) + Posting(col, keys[|keys| - 1])
  }

  lemma {:induction false} InUnion(col: Column, keys: seq<Key>, o: Oid)
    ensures o in UnionOf(col, keys) <==> exists k :: k in keys && o in Posting(col, k)
  {
    if keys != [] {
      InUnion(col, keys[..|keys| - 1], o);
      assert keys == keys[..|keys| - 1] + [keys[|keys| - 1]];
      assert forall k :: k in keys <==> k in keys[..|keys| - 1] || k == keys[|keys| - 1];
    }
  }

  /** The part of a sorted run that satisfies an ordering, by bisection. */
  function Slice(run: seq<Key>, op: Ordering, bound: Key): seq<Key> {
    match op
    case Ge => run[BisectLeft(run, bound)..]
    case Gt => run[BisectRight(run, bound)..]
    case Le => run[..BisectRight(run, bound)]
    case Lt => run[..BisectLeft(run, bound)]
  }

  /** The keys of the head when the first `n` keys are those with a property. */
  lemma HeadKeys(run: seq<Key>, n: nat, k: Key, low: bool)
    requires n <= |run| && forall i :: 0 <= i < |run| && run[i] == k ==> (i < n <==> low)
    ensures k in run[..n] <==> k in run && low
  {
    if i :| 0 <= i < |run| && run[i] == k && low {
      assert run[..n][i] == k;
    }
  }

  /** The keys of the tail are the others. */
  lemma TailKeys(run: seq<Key>, n: nat, k: Key, low: bool)
    requires n <= |run| && forall i :: 0 <= i < |run| && run[i] == k ==> (i < n <==> low)
    ensures k in run[n..] <==> k in run && !low
  {
    if i :| 0 <= i < |run| && run[i] == k && !low {
      assert run[n..][i - n] == k;
    }
  }

  lemma SliceIsFilter(run: seq<Key>, op: Ordering, bound: Key, k: Key)
    requires StrictlySorted(run)
    ensures k in Slice(run, op, bound) <==> k in run && Compare(op, k, bound)
  {
    hide BisectLeft, BisectRight, StrictlySorted, Less;
    if op == Ge || op == Lt {
      BisectLeftSplits(run, bound);
      HeadKeys(run, BisectLeft(run, bound), k, Less(k, bound));
      TailKeys(run, BisectLeft(run, bound), k, Less(k, bound));
    } else {
      BisectRightSplits(run, bound);
      HeadKeys(run, BisectRight(run, bound), k, !Less(bound, k));
      TailKeys(run, BisectRight(run, bound), k, !Less(bound, k));
    }
  }

  /** The OIDs whose sorted key satisfies the comparison; a None bound matches nothing. */
  function RangeSlice(v: View, f: Field, op: Ordering, bound: Key): set<Oid>
    requires f in v.runs && f in v.eq
  {
    if bound == Null then {} else UnionOf(v.eq[f], Slice(v.runs[f], op, bound))
  }

  /** The row of `o` holds exactly this key. */
  ghost predicate HasKey(rows: Rows, f: Field, k: Key, o: Oid) {
    o in rows && f in rows[o] && rows[o][f] == Scalar(k)
  }

  lemma ScalarColumn(s: Schema, v: View, rows: Rows, f: Field, o: Oid)
    requires Exact(s, v, rows) && f in s.eqFields && f !in s.listFields
    ensures forall k :: o in Posting(v.eq[f], k) <==> HasKey(rows, f, k, o)
    ensures o in rows ==> f in rows[o] && rows[o][f].Scalar?
  {
    assert ColumnExact(v.eq[f], rows, f, false);
    forall k
      ensures o in Posting(v.eq[f], k) <==> HasKey(rows, f, k, o)
    {
      assert o in Posting(v.eq[f], k) <==> Filed(rows, f, false, k, o);
    }
    assert o in rows ==> WellTyped(s, rows[o]);
  }

  lemma SliceUnion(col: Column, run: seq<Key>, rows: Rows, f: Field, op: Ordering, bound: Key, o: Oid)
    requires RunExact(run, col) && bound != Null && forall k :: o in Posting(col, k) <==> HasKey(rows, f, k, o)
    requires o in rows ==> f in rows[o] && rows[o][f].Scalar?
    ensures o in UnionOf(col, Slice(run, op, bound)) <==> o in rows && Holds(Ordered(op, bound), rows[o][f])
  {
    hide Slice, UnionOf, Compare, StrictlySorted;
    assert StrictlySorted(run);
    InUnion(col, Slice(run, op, bound), o);
    forall k
      ensures k in Slice(run, op, bound) <==> k in run && Compare(op, k, bound)
    {
      SliceIsFilter(run, op, bound, k);
    }
    if o in rows {
      assert HasKey(rows, f, rows[o][f].k, o);
    }
  }

  lemma RangeSliceExact(s: Schema, v: View, rows: Rows, f: Field, op: Ordering, bound: Key, o: Oid)
    requires Exact(s, v, rows) && f in s.sortedFields
    ensures o in RangeSlice(v, f, op, bound) <==> o in rows && f in rows[o] && Holds(Ordered(op, bound), rows[o][f])
  {
    hide Slice, UnionOf, Compare, StrictlySorted, ColumnExact, UniqueExact, WellTyped;
    ScalarColumn(s, v, rows, f, o);
    assert RunExact(v.runs[f], v.eq[f]);
    if bound != Null {
      SliceUnion(v.eq[f], v.runs[f], rows, f, op, bound, o);
    }
  }

  /** What a range read returns, in terms of the keys: the rows whose key is a number on the asked side of the
      bound by size, or a text on it in dictionary order. */
  lemma RangeSliceMeans(s: Schema, v: View, rows: Rows, f: Field, op: Ordering, bound: Key, o: Oid)
    requires Exact(s, v, rows) && f in s.sortedFields
    ensures f in v.runs && f in v.eq
    ensures o in RangeSlice(v, f, op, bound) <==>
      o in rows && f in rows[o] && rows[o][f].Scalar? && Satisfies(op, rows[o][f].k, bound)
  {
    RangeSliceExact(s, v, rows, f, op, bound, o);
    hide RangeSlice, Exact, Holds, Satisfies;
    if o in rows && f in rows[o] {
      OrderedMeans(op, bound, rows[o][f]);
    }
  }

  // ------------------------------------------------------------ leaf planning

  function ScalarKeys(vs: seq<Value>): seq<Key> {
    if vs == [] then []
    else ScalarKeys(vs[..|vs| - 1]) + (if vs[|vs| - 1].Scalar? then [vs[|vs| - 1].k] else [])
  }

  lemma {:induction false} ScalarKeysAre(vs: seq<Value>, k: Key)
    ensures k in ScalarKeys(vs) <==> Scalar(k) in vs
  {
    if vs != [] {
      ScalarKeysAre(vs[..|vs| - 1], k);
      assert vs == vs[..|vs| - 1] + [vs[|vs| - 1]];
    }
  }

  predicate MatchesStringKey(t: Test, k: Key)
    requires t.Contains? || t.StartsWith?
  {
    k.Text? && if t.Contains? then IsSubstring(t.needle, k.s) else IsPrefix(t.prefix, k.s)
  }

  function PlanListField(v: View, f: Field, t: Test): Planned
    requires f in v.eq
  {
    if t.Contains? then Planned(Some(Posting(v.eq[f], Text(t.needle))), None) else Planned(None, Some(Pred(f, t)))
  }

  /** Answers from the postings of an indexed field, if it can. */
  function PlanEqIndexed(s: Schema, v: View, f: Field, t: Test): Option<Planned>
    requires f in v.eq && v.runs.Keys == s.sortedFields
  {
    if t.Ordered? && f in s.sortedFields then Some(Planned(Some(RangeSlice(v, f, t.op, t.bound)), None))
    else if f in s.listFields then Some(PlanListField(v, f, t))
    else match t
      case Eq(lit) => Some(Planned(Some(if lit.Scalar? then Posting(v.eq[f], lit.k) else {}), None))
      case In(lits) => Some(Planned(Some(UnionOf(v.eq[f], ScalarKeys(lits))), None))
      case Contains(_) => Some(Planned(Some(set k, o | k in v.eq[f] && MatchesStringKey(t, k) && o in v.eq[f][k] :: o), None))
      case StartsWith(_) => Some(Planned(Some(set k, o | k in v.eq[f] && MatchesStringKey(t, k) && o in v.eq[f][k] :: o), None))
      case _ => None
  }

  function HolderCandidates(holder: map<Key, Oid>, t: Test): set<Oid>
    requires t.Eq? || t.In? || t.Contains? || t.StartsWith?
  {
    match t
    case Eq(lit) => if lit.Scalar? && lit.k in holder then {holder[lit.k]} else {}
    case In(lits) => set k | k in ScalarKeys(lits) && k in holder :: holder[k]
    case Contains(_) => set k | k in holder && MatchesStringKey(t, k) :: holder[k]
    case StartsWith(_) => set k | k in holder && MatchesStringKey(t, k) :: holder[k]
  }

  /** Answers from the holder map of a field that only carries the unique marker, if it can. */
  function PlanUniqueOnly(v: View, f: Field, t: Test): Option<Planned>
    requires f in v.unique
  {
    if t.Eq? || t.In? || t.Contains? || t.StartsWith? then Some(Planned(Some(HolderCandidates(v.unique[f], t)), None))
    else None
  }

  function PlanPred(s: Schema, v: View, f: Field, t: Test): Planned
    requires v.runs.Keys == s.sortedFields
  {
    var fromEq := if f in v.eq then PlanEqIndexed(s, v, f, t) else None;
    if fromEq.Some? then fromEq.value
    else
      var fromUnique := if f in v.unique then PlanUniqueOnly(v, f, t) else None;
      if fromUnique.Some? then fromUnique.value else Planned(None, Some(Pred(f, t)))
  }

  // ------------------------------------------------------------ tree planning

  function Meet(a: Option<set<Oid>>, b: Option<set<Oid>>): Option<set<Oid>> {
    if b.None? then a else if a.None? then b else Some(a.value * b.value)
  }

  function Conjoin(residuals: seq<Cond>): Option<Cond> {
    if residuals == [] then None else if |residuals| == 1 then Some(residuals[0]) else Some(And(residuals))
  }

  function Plan(s: Schema, v: View, c: Cond): Planned
    requires v.runs.Keys == s.sortedFields
    decreases c
  {
    match c
    case Pred(f, t) => PlanPred(s, v, f, t)
    case And(parts) =>
      var (bitmap, residuals) := PlanAll(s, v, parts);
      Planned(bitmap, Conjoin(residuals))
    case Or(parts) =>
      var bitmap := PlanAny(s, v, parts);
      if bitmap.Some? then Planned(bitmap, None) else Planned(None, Some(c))
    case Not(_) => Planned(None, Some(c))
  }

  /** Conjuncts contribute their candidates and their residuals independently. */
  function PlanAll(s: Schema, v: View, parts: seq<Cond>): (Option<set<Oid>>, seq<Cond>)
    requires v.runs.Keys == s.sortedFields
    decreases parts
  {
    if parts == [] then (None, [])
    else
      var (bitmap, residuals) := PlanAll(s, v, parts[..|parts| - 1]);
      var p := Plan(s, v, parts[|parts| - 1]);
      (Meet(bitmap, p.bitmap), residuals + if p.residual.Some? then [p.residual.value] else [])
  }

  /** Disjuncts unite only if every one of them is fully indexed. */
  function PlanAny(s: Schema, v: View, parts: seq<Cond>): Option<set<Oid>>
    requires v.runs.Keys == s.sortedFields
    decreases parts
  {
    if parts == [] then Some({})
    else
      var front := PlanAny(s, v, parts[..|parts| - 1]);
      var p := Plan(s, v, parts[|parts| - 1]);
      if front.None? || p.bitmap.None? || p.residual.Some? then None else Some(front.value + p.bitmap.value)
  }

  // ---------------------------------------------------- what a plan selects

  /** The hydrated rows agree with the indexed ones on every maintained field. */
  ghost predicate Hydrates(full: Rows, rows: Rows) {
    full.Keys == rows.Keys && forall o, f :: o in rows && f in rows[o] ==> FieldOf(full[o], f) == rows[o][f]
  }

  ghost predicate Selects(p: Planned, row: Row, o: Oid) {
    && (p.bitmap.Some? ==> o in p.bitmap.value)
    && (p.residual.Some? ==> Evaluate(row, p.residual.value))
  }

  /** The test is also answered by None: the unique map cannot know, for it holds no None. */
  predicate AsksNone(t: Test) {
    (t.Eq? && t.v == Scalar(Null)) || (t.In? && Scalar(Null) in t.vs)
  }

  ghost predicate HasNone(full: Rows, f: Field) {
    exists o :: o in full && FieldOf(full[o], f) == Scalar(Null)
  }

  /** A pure-Unique field that some row leaves None is not asked about None. */
  ghost predicate LeafSafe(s: Schema, full: Rows, f: Field, t: Test) {
    f in s.uniqueFields && f !in s.eqFields && AsksNone(t) ==> !HasNone(full, f)
  }

  /** A negation is never planned, so what it asks does not matter. */
  ghost predicate NoneSafe(s: Schema, full: Rows, c: Cond)
    decreases c
  {
    match c
    case Pred(f, t) => LeafSafe(s, full, f, t)
    case And(parts) => forall i :: 0 <= i < |parts| ==> NoneSafe(s, full, parts[i])
    case Or(parts) => forall i :: 0 <= i < |parts| ==> NoneSafe(s, full, parts[i])
    case Not(_) => true
  }

  /** What an exact posting test over scalars amounts to. */
  ghost predicate Answers(bitmap: set<Oid>, rows: Rows, f: Field, t: Test, o: Oid) {
    o in bitmap <==> o in rows && f in rows[o] && Holds(t, rows[o][f])
  }

  lemma KeyedAnswers(col: Column, rows: Rows, f: Field, t: Test, o: Oid)
    requires forall k :: o in Posting(col, k) <==> HasKey(rows, f, k, o)
    requires o in rows ==> f in rows[o] && rows[o][f].Scalar?
    ensures t.Eq? ==> Answers(if t.v.Scalar? then Posting(col, t.v.k) else {}, rows, f, t, o)
    ensures t.In? ==> Answers(UnionOf(col, ScalarKeys(t.vs)), rows, f, t, o)
    ensures t.Contains? || t.StartsWith? ==>
      Answers(set k, p | k in col && MatchesStringKey(t, k) && p in col[k] :: p, rows, f, t, o)
  {
    hide IsSubstring, IsPrefix, UnionOf, ScalarKeys;
    if t.In? {
      InUnion(col, ScalarKeys(t.vs), o);
      forall k
        ensures k in ScalarKeys(t.vs) <==> Scalar(k) in t.vs
      {
        ScalarKeysAre(t.vs, k);
      }
    }
    if o in rows {
      assert HasKey(rows, f, rows[o][f].k, o);
    }
    if t.Contains? || t.StartsWith? {
      var bitmap := set k, p | k in col && MatchesStringKey(t, k) && p in col[k] :: p;
      if o in bitmap {
        var k :| k in col && MatchesStringKey(t, k) && o in col[k];
        assert o in Posting(col, k);
      }
      if o in rows && Holds(t, rows[o][f]) {
        assert o in Posting(col, rows[o][f].k);
      }
    }
  }

  lemma ListAnswers(col: Column, rows: Rows, f: Field, needle: string, o: Oid)
    requires ColumnExact(col, rows, f, true)
    requires o in rows ==> f in rows[o] && (rows[o][f] == Scalar(Null) || rows[o][f].ListOf?)
    ensures Answers(Posting(col, Text(needle)), rows, f, Contains(needle), o)
  {
    assert o in Posting(col, Text(needle)) <==> Filed(rows, f, true, Text(needle), o);
  }

  /** On an indexed field the candidates are the matching rows, whichever path answers. */
  lemma EqPlanExact(s: Schema, v: View, rows: Rows, f: Field, t: Test, o: Oid)
    requires Exact(s, v, rows) && f in s.eqFields
    ensures f in v.eq && v.runs.Keys == s.sortedFields
    ensures var p := PlanEqIndexed(s, v, f, t);
      p.Some? ==> (p.value.bitmap.Some? && p.value.residual.None? && Answers(p.value.bitmap.value, rows, f, t, o))
                  || p.value == Planned(None, Some(Pred(f, t)))
  {
    hide UniqueExact, RunExact, RangeSlice, UnionOf, Holds, MatchesStringKey;
    if f in s.listFields {
      assert ColumnExact(v.eq[f], rows, f, true);
      assert o in rows ==> WellTyped(s, rows[o]);
      if t.Contains? {
        ListAnswers(v.eq[f], rows, f, t.needle, o);
      }
    } else {
      ScalarColumn(s, v, rows, f, o);
      KeyedAnswers(v.eq[f], rows, f, t, o);
      if t.Ordered? && f in s.sortedFields {
        RangeSliceExact(s, v, rows, f, t.op, t.bound, o);
      }
    }
  }

  /** The candidates a holder map gives, told apart by the key of each row. */
  lemma HolderAnswers(holder: map<Key, Oid>, rows: Rows, f: Field, t: Test, o: Oid)
    requires UniqueExact(holder, rows, f) && (o in rows ==> rows[o][f].Scalar?)
    requires t.Eq? || t.In? || t.Contains? || t.StartsWith?
    ensures var bitmap := HolderCandidates(holder, t);
      o in bitmap <==> o in rows && f in rows[o] && Holds(t, rows[o][f]) && rows[o][f] != Scalar(Null)
  {
    hide IsSubstring, IsPrefix, ScalarKeys;
    if t.In? {
      forall k
        ensures k in ScalarKeys(t.vs) <==> Scalar(k) in t.vs
      {
        ScalarKeysAre(t.vs, k);
      }
    }
    var bitmap := HolderCandidates(holder, t);
    if o in rows {
      var k := UniqueKey(rows[o][f]);
      assert k in holder && holder[k] == o <==> k != Null;
    }
  }

  ghost predicate Matches(full: Rows, c: Cond, o: Oid) {
    o in full && Evaluate(full[o], c)
  }

  lemma UniquePlan(s: Schema, v: View, rows: Rows, full: Rows, f: Field, t: Test, o: Oid)
    requires Exact(s, v, rows) && Hydrates(full, rows) && f in s.uniqueFields
    requires t.Eq? || t.In? || t.Contains? || t.StartsWith?
    ensures o in HolderCandidates(v.unique[f], t) <==> Matches(full, Pred(f, t), o) && FieldOf(full[o], f) != Scalar(Null)
  {
    hide Holds, HolderCandidates, ColumnExact, RunExact;
    assert UniqueExact(v.unique[f], rows, f);
    if o in rows {
      assert WellTyped(s, rows[o]);
      assert FieldOf(full[o], f) == rows[o][f];
    }
    HolderAnswers(v.unique[f], rows, f, t, o);
  }

  lemma OnlyNoneAsks(t: Test)
    ensures (t.Eq? || t.In? || t.Contains? || t.StartsWith?) ==> (Holds(t, Scalar(Null)) <==> AsksNone(t))
  {
  }

  /** A leaf either becomes exactly its matching OIDs or stays a residual. */
  lemma LeafPlan(s: Schema, v: View, rows: Rows, full: Rows, f: Field, t: Test, o: Oid)
    requires Exact(s, v, rows) && Hydrates(full, rows) && LeafSafe(s, full, f, t)
    ensures v.runs.Keys == s.sortedFields
    ensures var p := PlanPred(s, v, f, t);
      if p.bitmap.Some? then p.residual.None? && (o in p.bitmap.value <==> Matches(full, Pred(f, t), o))
      else p.residual == Some(Pred(f, t))
  {
    hide Holds, HolderCandidates, ColumnExact, RunExact, UniqueExact, WellTyped, UnionOf, RangeSlice, MatchesStringKey;
    assert v.eq.Keys == s.eqFields && v.unique.Keys == s.uniqueFields;
    assert o in rows && f in s.eqFields + s.uniqueFields ==> f in rows[o] && FieldOf(full[o], f) == rows[o][f] by {
      if o in rows {
        TypedRow(s, rows, o);
      }
    }
    if f in v.eq {
      EqPlanExact(s, v, rows, f, t, o);
      if o in rows {
        TypedRow(s, rows, o);
      }
    } else if f in v.unique && (t.Eq? || t.In? || t.Contains? || t.StartsWith?) {
      UniquePlan(s, v, rows, full, f, t, o);
      OnlyNoneAsks(t);
    }
  }

  lemma TypedRow(s: Schema, rows: Rows, o: Oid)
    requires RowsOk(s, rows) && o in rows
    ensures rows[o].Keys == s.eqFields + s.uniqueFields
  {
    assert WellTyped(s, rows[o]);
  }

  /** Exactly when a pure-Unique field's map answers right: unless None is asked for and some row has it. */
  lemma PureUniqueIff(s: Schema, v: View, rows: Rows, full: Rows, f: Field, t: Test)
    requires Exact(s, v, rows) && Hydrates(full, rows) && f in s.uniqueFields && f !in s.eqFields
    requires t.Eq? || t.In? || t.Contains? || t.StartsWith?
    ensures v.runs.Keys == s.sortedFields && PlanPred(s, v, f, t).bitmap.Some?
    ensures (forall o :: o in PlanPred(s, v, f, t).bitmap.value <==> Matches(full, Pred(f, t), o))
            <==> !(AsksNone(t) && HasNone(full, f))
  {
    hide Holds, HolderCandidates, PostingsExact, RunsExact, UniquesExact, AsksNone;
    assert v.eq.Keys == s.eqFields && v.unique.Keys == s.uniqueFields && v.runs.Keys == s.sortedFields by {
      ViewKeys(s, v, rows);
    }
    OnlyNoneAsks(t);
    forall o
      ensures o in PlanPred(s, v, f, t).bitmap.value <==> Matches(full, Pred(f, t), o) && FieldOf(full[o], f) != Scalar(Null)
    {
      UniquePlan(s, v, rows, full, f, t, o);
    }
    if AsksNone(t) && HasNone(full, f) {
      var o :| o in full && FieldOf(full[o], f) == Scalar(Null);
      assert Matches(full, Pred(f, t), o);
    }
  }

  /** One row without a key, in a class that only says the key is unique: asked for None, the plan answers
      nothing and leaves no residual, although the row matches. */
  lemma PureUniqueMissesNone(f: Field, o: Oid)
    ensures var s := Schema({}, {f}, {}, {});
      var v := View({o}, map[], map[f := map[]], map[]);
      var rows: Rows := map[o := map[f := Scalar(Null)]];
      var c := Pred(f, Eq(Scalar(Null)));
      && Exact(s, v, rows) && Hydrates(rows, rows)
      && Plan(s, v, c) == Planned(Some({}), None) && Matches(rows, c, o)
  {
    var s := Schema({}, {f}, {}, {});
    var v := View({o}, map[], map[f := map[]], map[]);
    var rows: Rows := map[o := map[f := Scalar(Null)]];
    assert Exact(s, v, rows);
    PureUniqueIff(s, v, rows, rows, f, Eq(Scalar(Null)));
  }

  lemma ViewKeys(s: Schema, v: View, rows: Rows)
    requires Exact(s, v, rows)
    ensures v.eq.Keys == s.eqFields && v.unique.Keys == s.uniqueFields && v.runs.Keys == s.sortedFields && v.extent == rows.Keys
  {
  }

  // ---------------------------------------------------------- whole conditions

  ghost predicate SelectsExactly(p: Planned, full: Rows, c: Cond) {
    && (p.bitmap.Some? ==> p.bitmap.value <= full.Keys)
    && (forall o :: o in full ==> (Selects(p, full[o], o) <==> Evaluate(full[o], c)))
  }

  /** The candidates whose rows satisfy the residual are the extent's rows that satisfy the condition. */
  lemma {:induction false} PlanKeepsMeaning(s: Schema, v: View, rows: Rows, full: Rows, c: Cond)
    requires Exact(s, v, rows) && Hydrates(full, rows) && NoneSafe(s, full, c)
    ensures v.runs.Keys == s.sortedFields && v.extent == full.Keys
    ensures SelectsExactly(Plan(s, v, c), full, c)
    decreases c
  {
    hide Exact, Hydrates, PlanPred, Holds, LeafSafe, AllHold, AnyHolds, PlanAll, PlanAny;
    ViewKeys(s, v, rows);
    SameKeys(full, rows);
    match c
    case Pred(f, t) =>
      LeafPlan(s, v, rows, full, f, t, 0);
      forall o
        ensures PlanPred(s, v, f, t).bitmap.Some? ==> (o in PlanPred(s, v, f, t).bitmap.value <==> Matches(full, c, o))
      {
        LeafPlan(s, v, rows, full, f, t, o);
      }
    case And(parts) =>
      ConjunctsKeepMeaning(s, v, rows, full, parts);
      var residuals := PlanAll(s, v, parts).1;
      forall o | o in full
        ensures Selects(Plan(s, v, c), full[o], o) <==> Evaluate(full[o], c)
      {
        ConjoinMeans(full[o], residuals);
        AndMeans(full[o], parts);
      }
    case Or(parts) =>
      DisjunctsKeepMeaning(s, v, rows, full, parts);
      forall o | o in full
        ensures Evaluate(full[o], c) <==> AnyHolds(full[o], parts)
      {
        OrMeans(full[o], parts);
      }
    case Not(_) =>
  }

  lemma SameKeys(full: Rows, rows: Rows)
    requires Hydrates(full, rows)
    ensures full.Keys == rows.Keys
  {
  }

  lemma AndMeans(row: Row, parts: seq<Cond>)
    ensures Evaluate(row, And(parts)) <==> AllHold(row, parts)
  {
  }

  lemma OrMeans(row: Row, parts: seq<Cond>)
    ensures Evaluate(row, Or(parts)) <==> AnyHolds(row, parts)
  {
  }

  lemma ConjoinMeans(row: Row, residuals: seq<Cond>)
    ensures (Conjoin(residuals).Some? ==> Evaluate(row, Conjoin(residuals).value)) <==> AllHold(row, residuals)
  {
    if |residuals| > 1 {
      AndMeans(row, residuals);
    }
  }

  lemma {:induction false} ConjunctsKeepMeaning(s: Schema, v: View, rows: Rows, full: Rows, parts: seq<Cond>)
    requires Exact(s, v, rows) && Hydrates(full, rows) && forall i :: 0 <= i < |parts| ==> NoneSafe(s, full, parts[i])
    ensures v.runs.Keys == s.sortedFields
    ensures var (bitmap, residuals) := PlanAll(s, v, parts);
      && (bitmap.Some? ==> bitmap.value <= full.Keys)
      && (forall o :: o in full ==> ((bitmap.Some? ==> o in bitmap.value) && AllHold(full[o], residuals) <==> AllHold(full[o], parts)))
    decreases parts
  {
    hide Exact, Hydrates, NoneSafe, Plan, AllHold;
    ViewKeys(s, v, rows);
    if parts == [] {
      assert forall o :: o in full ==> AllHold(full[o], []) by {
        NoneToHold(full);
      }
    } else {
      var front, c := parts[..|parts| - 1], parts[|parts| - 1];
      assert parts == front + [c];
      assert forall i :: 0 <= i < |front| ==> front[i] == parts[i];
      ConjunctsKeepMeaning(s, v, rows, full, front);
      PlanKeepsMeaning(s, v, rows, full, c);
      var p, residuals := Plan(s, v, c), PlanAll(s, v, front).1;
      var mine := if p.residual.Some? then [p.residual.value] else [];
      forall o | o in full
        ensures AllHold(full[o], parts) <==> AllHold(full[o], front) && Evaluate(full[o], c)
        ensures AllHold(full[o], residuals + mine) <==> AllHold(full[o], residuals) && (p.residual.Some? ==> Evaluate(full[o], p.residual.value))
      {
        AllOfBoth(full[o], front, [c]);
        AllOfBoth(full[o], residuals, mine);
        OneToHold(full[o], c);
        if p.residual.Some? {
          OneToHold(full[o], p.residual.value);
        }
        NoneToHold(full);
      }
    }
  }

  lemma OneToHold(row: Row, c: Cond)
    ensures AllHold(row, [c]) <==> Evaluate(row, c)
    ensures AnyHolds(row, [c]) <==> Evaluate(row, c)
  {
    assert [c][0] == c;
  }

  lemma NoneToHold(full: Rows)
    ensures forall o :: o in full ==> AllHold(full[o], []) && !AnyHolds(full[o], [])
  {
  }

  lemma {:induction false} DisjunctsKeepMeaning(s: Schema, v: View, rows: Rows, full: Rows, parts: seq<Cond>)
    requires Exact(s, v, rows) && Hydrates(full, rows) && forall i :: 0 <= i < |parts| ==> NoneSafe(s, full, parts[i])
    ensures v.runs.Keys == s.sortedFields
    ensures var bitmap := PlanAny(s, v, parts);
      bitmap.Some? ==> bitmap.value <= full.Keys && forall o :: o in full ==> (o in bitmap.value <==> AnyHolds(full[o], parts))
    decreases parts
  {
    hide Exact, Hydrates, NoneSafe, Plan, AnyHolds;
    ViewKeys(s, v, rows);
    NoneToHold(full);
    if parts != [] {
      var front, c := parts[..|parts| - 1], parts[|parts| - 1];
      assert parts == front + [c];
      assert forall i :: 0 <= i < |front| ==> front[i] == parts[i];
      DisjunctsKeepMeaning(s, v, rows, full, front);
      PlanKeepsMeaning(s, v, rows, full, c);
      forall o | o in full
        ensures AnyHolds(full[o], parts) <==> AnyHolds(full[o], front) || Evaluate(full[o], c)
      {
        AnyOfBoth(full[o], front, [c]);
        OneToHold(full[o], c);
      }
    }
  }

  // ------------------------------------------------- which conditions use an index

  /** A comparison needs a sorted field; a list field answers containment only; any other indexed or unique
      field answers equality, membership, containment and prefixes. */
  ghost predicate AnsweredBy(s: Schema, f: Field, t: Test) {
    if f in s.eqFields && t.Ordered? then f in s.sortedFields
    else if f in s.eqFields && f in s.listFields then t.Contains?
    else (f in s.eqFields || f in s.uniqueFields) && (t.Eq? || t.In? || t.Contains? || t.StartsWith?)
  }

  /** Nothing is left to evaluate on the rows: every part is answered, and a disjunction only if each of its
      parts also narrows. */
  ghost predicate Settled(s: Schema, c: Cond)
    decreases c, 0
  {
    match c
    case Pred(f, t) => AnsweredBy(s, f, t)
    case And(parts) => forall i :: 0 <= i < |parts| ==> Settled(s, parts[i])
    case Or(parts) => forall i :: 0 <= i < |parts| ==> Settled(s, parts[i]) && Narrowed(s, parts[i])
    case Not(_) => false
  }

  /** The indexes give candidates. */
  ghost predicate Narrowed(s: Schema, c: Cond)
    decreases c, 1
  {
    match c
    case Pred(f, t) => AnsweredBy(s, f, t)
    case And(parts) => exists i :: 0 <= i < |parts| && Narrowed(s, parts[i])
    case Or(_) => Settled(s, c)
    case Not(_) => false
  }

  lemma LeafUses(s: Schema, v: View, f: Field, t: Test)
    requires v.eq.Keys == s.eqFields && v.unique.Keys == s.uniqueFields && v.runs.Keys == s.sortedFields
    ensures PlanPred(s, v, f, t).residual.None? <==> AnsweredBy(s, f, t)
    ensures PlanPred(s, v, f, t).bitmap.Some? <==> AnsweredBy(s, f, t)
  {
    hide RangeSlice, Posting, UnionOf, HolderCandidates, ScalarKeys;
  }

  /** The planner uses an index wherever it may: a plan has candidates exactly when the condition is narrowed
      and a residual exactly when it is not settled. */
  lemma {:induction false} PlanUses(s: Schema, v: View, c: Cond)
    requires v.eq.Keys == s.eqFields && v.unique.Keys == s.uniqueFields && v.runs.Keys == s.sortedFields
    ensures Plan(s, v, c).residual.None? <==> Settled(s, c)
    ensures Plan(s, v, c).bitmap.Some? <==> Narrowed(s, c)
    decreases c
  {
    match c
    case Pred(f, t) => LeafUses(s, v, f, t);
    case And(parts) =>
      hide PlanPred, AnsweredBy;
      AllUse(s, v, parts);
    case Or(parts) =>
      hide PlanPred, AnsweredBy;
      AnyUses(s, v, parts);
    case Not(_) =>
  }

  lemma {:induction false} AllUse(s: Schema, v: View, parts: seq<Cond>)
    requires v.eq.Keys == s.eqFields && v.unique.Keys == s.uniqueFields && v.runs.Keys == s.sortedFields
    ensures PlanAll(s, v, parts).1 == [] <==> forall i :: 0 <= i < |parts| ==> Settled(s, parts[i])
    ensures PlanAll(s, v, parts).0.Some? <==> exists i :: 0 <= i < |parts| && Narrowed(s, parts[i])
    decreases parts
  {
    hide Plan, Settled, Narrowed;
    if parts != [] {
      var front, n := parts[..|parts| - 1], |parts| - 1;
      AllUse(s, v, front);
      PlanUses(s, v, parts[n]);
      assert forall i :: 0 <= i < n ==> front[i] == parts[i];
    }
  }

  lemma {:induction false} AnyUses(s: Schema, v: View, parts: seq<Cond>)
    requires v.eq.Keys == s.eqFields && v.unique.Keys == s.uniqueFields && v.runs.Keys == s.sortedFields
    ensures PlanAny(s, v, parts).Some? <==> forall i :: 0 <= i < |parts| ==> Settled(s, parts[i]) && Narrowed(s, parts[i])
    decreases parts
  {
    hide Plan, Settled, Narrowed;
    if parts != [] {
      var front, n := parts[..|parts| - 1], |parts| - 1;
      AnyUses(s, v, front);
      PlanUses(s, v, parts[n]);
      assert forall i :: 0 <= i < n ==> front[i] == parts[i];
    }
  }
}
