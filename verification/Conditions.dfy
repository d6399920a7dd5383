/** Query conditions: predicates over one row's fields, composed with and, or, not. */
module Conditions {
  import opened Keys
  import opened IndexSpec

  datatype Ordering = Lt | Le | Gt | Ge

  datatype Test =
    | Eq(v: Value)
    | Ne(v: Value)
    | Ordered(op: Ordering, bound: Key)
    | In(vs: seq<Value>)
    | Contains(needle: string)
    | StartsWith(prefix: string)

  datatype Cond =
    | Pred(f: Field, t: Test)
    | And(parts: seq<Cond>)
    | Or(parts: seq<Cond>)
    | Not(part: Cond)

  /** Attribute access; a hydrated row has every field of its class. */
  function FieldOf(row: Row, f: Field): Value {
    if f in row then row[f] else Scalar(Null)
  }

  predicate IsPrefix(p: string, s: string) {
    |p| <= |s| && s[..|p|] == p
  }

  predicate IsSubstring(p: string, s: string) {
    exists i :: 0 <= i <= |s| && IsPrefix(p, s[i..])
  }

  predicate Compare(op: Ordering, a: Key, b: Key) {
    match op
    case Lt => Less(a, b)
    case Le => !Less(b, a)
    case Gt => Less(b, a)
    case Ge => !Less(a, b)
  }

  /** A leaf predicate on a field value. None is equal to None but ordered against nothing. */
  predicate Holds(t: Test, actual: Value) {
    match t
    case Eq(v) => actual == v
    case Ne(v) => actual != v
    case In(vs) => actual in vs
    case Contains(needle) =>
      (match actual
       case ListOf(elems) => Text(needle) in elems
       case Scalar(k) => k.Text? && IsSubstring(needle, k.s))
    case StartsWith(p) => actual.Scalar? && actual.k.Text? && IsPrefix(p, actual.k.s)
    case Ordered(op, bound) => actual.Scalar? && actual.k != Null && bound != Null && Compare(op, actual.k, bound)
  }

  predicate Evaluate(row: Row, c: Cond)
    decreases c
  {
    match c
    case Pred(f, t) => Holds(t, FieldOf(row, f))
    case And(parts) => forall i :: 0 <= i < |parts| ==> Evaluate(row, parts[i])
    case Or(parts) => exists i :: 0 <= i < |parts| && Evaluate(row, parts[i])
    case Not(part) => !Evaluate(row, part)
  }

  /** What a comparison asks of a key, in terms of the keys themselves; None answers none and is asked by none. */
  ghost predicate Satisfies(op: Ordering, k: Key, bound: Key) {
    k != Null && bound != Null &&
    match op
    case Lt => Precedes(k, bound)
    case Le => k == bound || Precedes(k, bound)
    case Gt => Precedes(bound, k)
    case Ge => k == bound || Precedes(bound, k)
  }

  lemma OrderedMeans(op: Ordering, bound: Key, actual: Value)
    ensures Holds(Ordered(op, bound), actual) <==> actual.Scalar? && Satisfies(op, actual.k, bound)
  {
    if actual.Scalar? {
      LessIff(actual.k, bound);
      LessIff(bound, actual.k);
      LessTotal(actual.k, bound);
    }
  }

  lemma PrefixMeans(p: string, s: string)
    ensures IsPrefix(p, s) <==> exists after :: s == p + after
  {
    if IsPrefix(p, s) {
      assert s == p + s[|p|..];
    }
    if after :| s == p + after {
      assert s[..|p|] == p;
    }
  }

  lemma SubstringMeans(p: string, s: string)
    ensures IsSubstring(p, s) <==> exists before, after :: s == before + p + after
  {
    if i :| 0 <= i <= |s| && IsPrefix(p, s[i..]) {
      assert s == s[..i] + p + s[i + |p|..];
    }
    if before, after :| s == before + p + after {
      assert s[|before|..] == p + after;
      PrefixMeans(p, s[|before|..]);
    }
  }

  /** A text contains what stands somewhere in it and starts with what stands at its front; a list contains
      its elements. Nothing else contains or starts with anything. */
  lemma TextTestsMean(needle: string, actual: Value)
    ensures Holds(Contains(needle), actual) <==>
      match actual
      case ListOf(elems) => exists i :: 0 <= i < |elems| && elems[i] == Text(needle)
      case Scalar(Text(s)) => exists before, after :: s == before + needle + after
      case Scalar(_) => false
    ensures Holds(StartsWith(needle), actual) <==>
      match actual
      case Scalar(Text(s)) => exists after :: s == needle + after
      case _ => false
  {
    hide IsSubstring, IsPrefix;
    if actual.Scalar? && actual.k.Text? {
      SubstringMeans(needle, actual.k.s);
      PrefixMeans(needle, actual.k.s);
    }
  }

  /** The tests of equality, and a field that is absent reads as None. */
  lemma EqualityTestsMean(row: Row, f: Field, v: Value, vs: seq<Value>)
    ensures Evaluate(row, Pred(f, Eq(v))) <==> if f in row then row[f] == v else v == Scalar(Null)
    ensures Evaluate(row, Pred(f, Ne(v))) <==> !Evaluate(row, Pred(f, Eq(v)))
    ensures Evaluate(row, Pred(f, In(vs))) <==> exists i :: 0 <= i < |vs| && Evaluate(row, Pred(f, Eq(vs[i])))
  {
    if Evaluate(row, Pred(f, In(vs))) {
      var i :| 0 <= i < |vs| && vs[i] == FieldOf(row, f);
      assert Evaluate(row, Pred(f, Eq(vs[i])));
    }
  }

  function Negated(parts: seq<Cond>): seq<Cond> {
    seq(|parts|, i requires 0 <= i < |parts| => Not(parts[i]))
  }

  /** Negation turns conjunctions into disjunctions and back. */
  lemma NegationLaws(row: Row, parts: seq<Cond>)
    ensures Evaluate(row, Not(And(parts))) <==> Evaluate(row, Or(Negated(parts)))
    ensures Evaluate(row, Not(Or(parts))) <==> Evaluate(row, And(Negated(parts)))
  {
    var nots := Negated(parts);
    forall i | 0 <= i < |parts|
      ensures Evaluate(row, nots[i]) <==> !Evaluate(row, parts[i])
    {
      NegationFlips(row, parts[i]);
    }
    NegationFlips(row, And(parts));
    NegationFlips(row, Or(parts));
    AllOrAny(row, parts);
    AllOrAny(row, nots);
    hide Evaluate;
  }

  lemma NegationFlips(row: Row, c: Cond)
    ensures Evaluate(row, Not(c)) <==> !Evaluate(row, c)
  {
  }

  /** Conjunctions hold when every part does, disjunctions when some part does. */
  lemma AllOrAny(row: Row, parts: seq<Cond>)
    ensures Evaluate(row, And(parts)) <==> AllHold(row, parts)
    ensures Evaluate(row, Or(parts)) <==> AnyHolds(row, parts)
  {
  }

  /** The `&` and `|` operators flatten nested conjunctions and disjunctions of the same kind. */
  function FlattenAnd(c: Cond): seq<Cond> {
    if c.And? then c.parts else [c]
  }

  function FlattenOr(c: Cond): seq<Cond> {
    if c.Or? then c.parts else [c]
  }

  function Both(a: Cond, b: Cond): Cond {
    And(FlattenAnd(a) + FlattenAnd(b))
  }

  function Either(a: Cond, b: Cond): Cond {
    Or(FlattenOr(a) + FlattenOr(b))
  }

  /** Flattening keeps the meaning of the operators. */
  lemma FlatteningKeepsMeaning(row: Row, a: Cond, b: Cond)
    ensures Evaluate(row, Both(a, b)) <==> Evaluate(row, a) && Evaluate(row, b)
    ensures Evaluate(row, Either(a, b)) <==> Evaluate(row, a) || Evaluate(row, b)
  {
    var xs, ys := FlattenAnd(a), FlattenAnd(b);
    assert (a.And? || xs[0] == a) && (b.And? || ys[0] == b);
    assert AllHold(row, xs) <==> Evaluate(row, a);
    assert AllHold(row, ys) <==> Evaluate(row, b);
    AllOfBoth(row, xs, ys);
    var us, ws := FlattenOr(a), FlattenOr(b);
    assert (a.Or? || us[0] == a) && (b.Or? || ws[0] == b);
    assert AnyHolds(row, us) <==> Evaluate(row, a);
    assert AnyHolds(row, ws) <==> Evaluate(row, b);
    AnyOfBoth(row, us, ws);
  }

  predicate AllHold(row: Row, parts: seq<Cond>) {
    forall i :: 0 <= i < |parts| ==> Evaluate(row, parts[i])
  }

  predicate AnyHolds(row: Row, parts: seq<Cond>) {
    exists i :: 0 <= i < |parts| && Evaluate(row, parts[i])
  }

  lemma AllOfBoth(row: Row, xs: seq<Cond>, ys: seq<Cond>)
    ensures AllHold(row, xs + ys) <==> AllHold(row, xs) && AllHold(row, ys)
  {
    var both := xs + ys;
    assert forall i :: 0 <= i < |xs| ==> both[i] == xs[i];
    assert forall i :: 0 <= i < |ys| ==> both[|xs| + i] == ys[i];
  }

  lemma AnyOfBoth(row: Row, xs: seq<Cond>, ys: seq<Cond>)
    ensures AnyHolds(row, xs + ys) <==> AnyHolds(row, xs) || AnyHolds(row, ys)
  {
    var both := xs + ys;
    assert forall i :: 0 <= i < |xs| ==> both[i] == xs[i];
    assert forall i :: 0 <= i < |ys| ==> both[|xs| + i] == ys[i];
  }
}
