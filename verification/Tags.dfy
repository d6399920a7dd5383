/**
 Column tags of the columnar mirror: every value has a tag, a column takes the join of the tags it has
 seen, and the join does not depend on the order or the batching of the values.
 */
module Tags {

  datatype Tag =
    | Null | Bool | Int | Float | Str | Bytes | Ref | Ts | TsUtc | Date | Time
    | Decimal(precision: nat, scale: nat)
    | List(inner: Tag)
    | Fallback

  const MAX_PRECISION: nat := 38
  const INT64_MIN := -0x8000_0000_0000_0000
  const INT64_MAX := 0x7FFF_FFFF_FFFF_FFFF

  /** A decoded cell; a decimal is its digits and exponent, an int its value, the rest only their kind. */
  datatype Cell =
    | VNull | VBool | VInt(n: int) | VFloat | VStr | VBytes | VRef
    | VDateTime(aware: bool) | VDate | VTime(aware: bool)
    | VDecimal(finite: bool, digits: seq<nat>, exponent: int)
    | VList(items: seq<Cell>)
    | VOther

  function Max(a: int, b: int): int {
    if a >= b then a else b
  }

  // ---------------------------------------------------------------------- join

  predicate Numeric(t: Tag) {
    t.Bool? || t.Int? || t.Float?
  }

  function Rank(t: Tag): nat {
    if t.Bool? then 0 else if t.Int? then 1 else 2
  }

  /** Digits before and after the point, each as many as either side needs; past 38 in all, the fallback. */
  function UnifyDecimals(a: Tag, b: Tag): Tag
    requires a.Decimal? && b.Decimal?
  {
    var scale := if a.scale >= b.scale then a.scale else b.scale;
    var precision := Max(a.precision - a.scale, b.precision - b.scale) + scale;
    if precision > MAX_PRECISION || precision < 0 then Fallback else Decimal(precision, scale)
  }

  function Unify(a: Tag, b: Tag): Tag
    decreases a
  {
    if a == b then a
    else if a.Decimal? && b.Decimal? then UnifyDecimals(a, b)
    else if a.Null? then b
    else if b.Null? then a
    else if Numeric(a) && Numeric(b) then (if Rank(a) >= Rank(b) then a else b)
    else if a.List? && b.List? then
      var inner := Unify(a.inner, b.inner);
      if inner.Fallback? then Fallback else List(inner)
    else Fallback
  }

  /** The tags that values and joins produce. */
  predicate Reachable(t: Tag) {
    match t
    case Decimal(p, s) => 1 <= p - s && p <= MAX_PRECISION
    case List(inner) => !inner.Fallback? && Reachable(inner)
    case _ => true
  }

  lemma {:induction false} UnifyReachable(a: Tag, b: Tag)
    requires Reachable(a) && Reachable(b)
    ensures Reachable(Unify(a, b))
    decreases a
  {
    if a != b && a.List? && b.List? {
      UnifyReachable(a.inner, b.inner);
    }
  }

  lemma {:induction false} UnifyCommutes(a: Tag, b: Tag)
    ensures Unify(a, b) == Unify(b, a)
    decreases a
  {
    if a != b && a.List? && b.List? {
      UnifyCommutes(a.inner, b.inner);
    }
  }

  lemma {:induction false} UnifyIdempotent(a: Tag)
    ensures Unify(a, a) == a && Unify(Null, a) == a && Unify(a, Null) == a
    ensures Unify(Fallback, a) == Fallback && Unify(a, Fallback) == Fallback
  {
  }

  /** Tags of different families, None and the fallback aside, only meet in the fallback. */
  function Family(t: Tag): nat {
    match t
    case Null => 0
    case Fallback => 1
    case Bool => 2
    case Int => 2
    case Float => 2
    case Decimal(_, _) => 3
    case List(_) => 4
    case Str => 5
    case Bytes => 6
    case Ref => 7
    case Ts => 8
    case TsUtc => 9
    case Date => 10
    case Time => 11
  }

  lemma {:induction false} FamiliesMeet(a: Tag, b: Tag)
    requires Family(a) > 1 && Family(b) > 1
    ensures Family(a) != Family(b) ==> Unify(a, b) == Fallback
    ensures Family(a) == Family(b) ==> Family(Unify(a, b)) == Family(a) || Unify(a, b) == Fallback
    ensures Family(a) == Family(b) && Family(a) > 4 ==> a == b
  {
  }

  function DecimalOf(whole: int, scale: int): Tag
    requires whole >= 1 && scale >= 0
  {
    if whole + scale > MAX_PRECISION then Fallback else Decimal(whole + scale, scale)
  }

  lemma {:induction false} DecimalsJoin(a: Tag, b: Tag)
    requires a.Decimal? && b.Decimal? && Reachable(a) && Reachable(b)
    ensures Unify(a, b) == DecimalOf(Max(a.precision - a.scale, b.precision - b.scale), Max(a.scale, b.scale))
  {
  }

  lemma {:induction false} DecimalsAssociate(a: Tag, b: Tag, c: Tag)
    requires a.Decimal? && b.Decimal? && c.Decimal? && Reachable(a) && Reachable(b) && Reachable(c)
    ensures Unify(Unify(a, b), c) == Unify(a, Unify(b, c))
  {
    hide Unify;
    DecimalsJoin(a, b);
    DecimalsJoin(b, c);
    UnifyIdempotent(a);
    UnifyIdempotent(c);
    if Unify(a, b).Decimal? {
      DecimalsJoin(Unify(a, b), c);
    }
    if Unify(b, c).Decimal? {
      DecimalsJoin(a, Unify(b, c));
    }
  }

  lemma {:induction false} NumbersAssociate(a: Tag, b: Tag, c: Tag)
    requires Numeric(a) && Numeric(b) && Numeric(c)
    ensures Unify(Unify(a, b), c) == Unify(a, Unify(b, c))
  {
    NumbersJoin(a, b);
    NumbersJoin(b, c);
    hide Unify;
    NumbersJoin(Unify(a, b), c);
    NumbersJoin(a, Unify(b, c));
  }

  lemma {:induction false} NumbersJoin(a: Tag, b: Tag)
    requires Numeric(a) && Numeric(b)
    ensures Unify(a, b) == if Rank(a) >= Rank(b) then a else b
    ensures Numeric(Unify(a, b))
  {
  }

  /** A join of decimals, of lists, or of anything else keeps its kind or falls back. */
  lemma {:induction false} UnifyAssociates(a: Tag, b: Tag, c: Tag)
    requires Reachable(a) && Reachable(b) && Reachable(c)
    ensures Unify(Unify(a, b), c) == Unify(a, Unify(b, c))
    decreases a
  {
    hide Unify;
    if Family(a) <= 1 || Family(b) <= 1 || Family(c) <= 1 {
      EndsAssociate(a, b, c);
    } else if Family(a) == Family(b) == Family(c) {
      if a.List? {
        UnifyAssociates(a.inner, b.inner, c.inner);
        ListsAssociate(a.inner, b.inner, c.inner);
      } else if a.Decimal? {
        DecimalsAssociate(a, b, c);
      } else if Numeric(a) {
        NumbersAssociate(a, b, c);
      } else {
        FamiliesMeet(a, b);
        FamiliesMeet(b, c);
        UnifyIdempotent(a);
      }
    } else {
      MixedAssociate(a, b, c);
    }
  }

  lemma {:induction false} EndsAssociate(a: Tag, b: Tag, c: Tag)
    requires Family(a) <= 1 || Family(b) <= 1 || Family(c) <= 1
    ensures Unify(Unify(a, b), c) == Unify(a, Unify(b, c))
  {
    hide Unify;
    UnifyIdempotent(a);
    UnifyIdempotent(b);
    UnifyIdempotent(c);
    UnifyIdempotent(Unify(a, b));
    UnifyIdempotent(Unify(b, c));
  }

  lemma {:induction false} MixedAssociate(a: Tag, b: Tag, c: Tag)
    requires Family(a) > 1 && Family(b) > 1 && Family(c) > 1 && !(Family(a) == Family(b) == Family(c))
    ensures Unify(Unify(a, b), c) == Fallback == Unify(a, Unify(b, c))
  {
    hide Unify;
    FamiliesMeet(a, b);
    FamiliesMeet(b, c);
    UnifyIdempotent(a);
    UnifyIdempotent(c);
    if Family(Unify(a, b)) > 1 {
      FamiliesMeet(Unify(a, b), c);
    }
    if Family(Unify(b, c)) > 1 {
      FamiliesMeet(a, Unify(b, c));
    }
  }

  lemma {:induction false} ListsJoin(x: Tag, y: Tag)
    requires !x.Fallback? && !y.Fallback?
    ensures Unify(List(x), List(y)) == if Unify(x, y).Fallback? then Fallback else List(Unify(x, y))
  {
  }

  lemma {:induction false} ListsAssociate(x: Tag, y: Tag, z: Tag)
    requires !x.Fallback? && !y.Fallback? && !z.Fallback? && Unify(Unify(x, y), z) == Unify(x, Unify(y, z))
    ensures Unify(Unify(List(x), List(y)), List(z)) == Unify(List(x), Unify(List(y), List(z)))
  {
    hide Unify;
    ListsJoin(x, y);
    ListsJoin(y, z);
    UnifyIdempotent(List(x));
    UnifyIdempotent(List(z));
    UnifyIdempotent(x);
    UnifyIdempotent(z);
    if !Unify(x, y).Fallback? {
      ListsJoin(Unify(x, y), z);
    }
    if !Unify(y, z).Fallback? {
      ListsJoin(x, Unify(y, z));
    }
  }

  predicate Below(a: Tag, b: Tag) {
    Unify(a, b) == b
  }

  /** The join is the least tag above both. */
  lemma {:induction false} UnifyIsLeast(a: Tag, b: Tag, c: Tag)
    requires Reachable(a) && Reachable(b) && Reachable(c)
    ensures Below(a, Unify(a, b)) && Below(b, Unify(a, b))
    ensures Below(a, c) && Below(b, c) ==> Below(Unify(a, b), c)
  {
    hide Unify;
    UnifyAssociates(a, a, b);
    UnifyAssociates(b, b, a);
    UnifyIdempotent(a);
    UnifyIdempotent(b);
    UnifyCommutes(a, b);
    UnifyAssociates(a, b, c);
  }

  // --------------------------------------------------------------------- folds

  function FoldTags(ts: seq<Tag>): Tag {
    if ts == [] then Null else Unify(FoldTags(ts[..|ts| - 1]), ts[|ts| - 1])
  }

  ghost predicate AllReachable(ts: seq<Tag>) {
    forall i :: 0 <= i < |ts| ==> Reachable(ts[i])
  }

  lemma {:induction false} FoldReachable(ts: seq<Tag>)
    requires AllReachable(ts)
    ensures Reachable(FoldTags(ts))
  {
    hide Unify, Reachable;
    if ts == [] {
      NullReachable();
    } else {
      FoldReachable(ts[..|ts| - 1]);
      UnifyReachable(FoldTags(ts[..|ts| - 1]), ts[|ts| - 1]);
    }
  }

  lemma {:induction false} NullReachable()
    ensures Reachable(Null)
  {
  }

  /** Batching does not matter: a column's tag is the join of its batches' tags. */
  lemma {:induction false} FoldConcat(a: seq<Tag>, b: seq<Tag>)
    requires AllReachable(a) && AllReachable(b)
    ensures FoldTags(a + b) == Unify(FoldTags(a), FoldTags(b))
  {
    hide Unify, Reachable;
    FoldReachable(a);
    if b == [] {
      assert a + b == a;
      UnifyIdempotent(FoldTags(a));
    } else {
      var front, t := b[..|b| - 1], b[|b| - 1];
      assert (a + b)[..|a + b| - 1] == a + front;
      FoldConcat(a, front);
      FoldReachable(front);
      UnifyAssociates(FoldTags(a), FoldTags(front), t);
    }
  }

  lemma {:induction false} TakeOut(ts: seq<Tag>, i: nat)
    requires i < |ts| && AllReachable(ts)
    ensures FoldTags(ts) == Unify(FoldTags(ts[..i] + ts[i + 1..]), ts[i])
  {
    hide Unify, Reachable;
    var a, t, b := ts[..i], ts[i], ts[i + 1..];
    assert ts == (a + [t]) + b && AllReachable(a) && AllReachable(b) && AllReachable([t]);
    FoldConcat(a + [t], b);
    FoldConcat(a, [t]);
    FoldConcat(a, b);
    FoldOne(t);
    FoldReachable(a);
    FoldReachable(b);
    UnifyAssociates(FoldTags(a), t, FoldTags(b));
    UnifyCommutes(t, FoldTags(b));
    UnifyAssociates(FoldTags(a), FoldTags(b), t);
  }

  lemma {:induction false} FoldOne(t: Tag)
    ensures FoldTags([t]) == t
  {
    assert [t][..0] == [];
    UnifyIdempotent(t);
  }

  /** Order does not matter. */
  lemma {:induction false} FoldPermutes(a: seq<Tag>, b: seq<Tag>)
    requires multiset(a) == multiset(b) && AllReachable(a)
    ensures FoldTags(a) == FoldTags(b)
    decreases |a|
  {
    hide Unify, Reachable;
    if a == [] {
      EmptyOnly(b);
    } else {
      var t := a[|a| - 1];
      assert a == a[..|a| - 1] + [t];
      var i := Find(a, b, t);
      var rest := b[..i] + b[i + 1..];
      Removed(b, i);
      Removed(a, |a| - 1);
      assert a[..|a| - 1] + a[|a|..] == a[..|a| - 1];
      SameReachable(a, b);
      FoldPermutes(a[..|a| - 1], rest);
      TakeOut(b, i);
    }
  }

  lemma {:induction false} Removed(s: seq<Tag>, i: nat)
    requires i < |s|
    ensures multiset(s[..i] + s[i + 1..]) == multiset(s) - multiset{s[i]}
  {
    assert s == s[..i] + [s[i]] + s[i + 1..];
  }

  lemma {:induction false} Find(a: seq<Tag>, b: seq<Tag>, t: Tag) returns (i: nat)
    requires multiset(a) == multiset(b) && t in a
    ensures i < |b| && b[i] == t
  {
    assert t in multiset(a);
    assert t in b;
    i :| 0 <= i < |b| && b[i] == t;
  }

  lemma {:induction false} SameReachable(a: seq<Tag>, b: seq<Tag>)
    requires multiset(a) == multiset(b) && AllReachable(a)
    ensures AllReachable(b)
  {
    forall j | 0 <= j < |b|
      ensures Reachable(b[j])
    {
      assert b[j] in multiset(b) && b[j] in multiset(a);
    }
  }

  lemma {:induction false} EmptyOnly(b: seq<Tag>)
    requires multiset(b) == multiset{}
    ensures b == []
  {
    assert |b| == |multiset(b)|;
  }

  /** Every tag of a column is below the column's tag. */
  lemma {:induction false} FoldIsAbove(ts: seq<Tag>, i: nat)
    requires i < |ts| && AllReachable(ts)
    ensures Below(ts[i], FoldTags(ts))
  {
    hide Unify, Reachable;
    var rest := ts[..i] + ts[i + 1..];
    assert AllReachable(rest);
    TakeOut(ts, i);
    FoldReachable(rest);
    UnifyIsLeast(FoldTags(rest), ts[i], Null) by {
      NullReachable();
    }
  }

  // ------------------------------------------------------------------ decimals

  ghost function Pow10(n: nat): nat {
    if n == 0 then 1 else 10 * Pow10(n - 1)
  }

  /** The integer a digit string spells. */
  ghost function Coefficient(digits: seq<nat>): nat {
    if digits == [] then 0 else 10 * Coefficient(digits[..|digits| - 1]) + digits[|digits| - 1]
  }

  ghost predicate Digits(digits: seq<nat>) {
    digits != [] && forall i :: 0 <= i < |digits| ==> digits[i] < 10
  }

  function DecimalTag(finite: bool, digits: seq<nat>, exponent: int): Tag {
    if !finite then Fallback
    else
      var scale := Max(-exponent, 0);
      var integerDigits := Max(|digits| + exponent, 1);
      if integerDigits + scale > MAX_PRECISION then Fallback else Decimal(integerDigits + scale, scale)
  }

  /** Written with `scale` digits after the point the value is an integer of at most `precision` digits. */
  ghost predicate Fits(digits: seq<nat>, exponent: int, precision: nat, scale: nat) {
    scale + exponent >= 0 && Coefficient(digits) * Pow10(scale + exponent) < Pow10(precision)
  }

  lemma {:induction false} CoefficientBound(digits: seq<nat>)
    requires forall i :: 0 <= i < |digits| ==> digits[i] < 10
    ensures Coefficient(digits) < Pow10(|digits|)
  {
    if digits != [] {
      CoefficientBound(digits[..|digits| - 1]);
    }
  }

  lemma TimesAssociates(x: nat, y: nat, z: nat)
    ensures x * (y * z) == (x * y) * z
  {
  }

  lemma {:induction false} PowAdds(a: nat, b: nat)
    ensures Pow10(a + b) == Pow10(a) * Pow10(b) && Pow10(a) > 0
  {
    if a > 0 {
      PowAdds(a - 1, b);
      TimesAssociates(10, Pow10(a - 1), Pow10(b));
    }
  }

  lemma {:induction false} PowGrows(a: nat, b: nat)
    requires a <= b
    ensures Pow10(a) <= Pow10(b)
    decreases b
  {
    if a < b {
      PowGrows(a, b - 1);
    }
  }

  lemma {:induction false} TimesBound(c: nat, d: nat, p: nat)
    requires c < d && p > 0
    ensures c * p < d * p
  {
    if p > 1 {
      TimesBound(c, d, p - 1);
      assert c * p == c * (p - 1) + c && d * p == d * (p - 1) + d;
    }
  }

  /** A decimal with a decimal tag fits every decimal tag above its own. */
  lemma {:induction false} DecimalFitsAbove(digits: seq<nat>, exponent: int, above: Tag)
    requires Digits(digits) && DecimalTag(true, digits, exponent).Decimal?
    requires above.Decimal? && Reachable(above) && Below(DecimalTag(true, digits, exponent), above)
    ensures Fits(digits, exponent, above.precision, above.scale)
  {
    var own := DecimalTag(true, digits, exponent);
    OwnDecimalReachable(digits, exponent);
    DecimalBelow(own, above);
    var shift := above.scale + exponent;
    CoefficientBound(digits);
    PowAdds(|digits|, shift);
    PowAdds(shift, 0);
    TimesBound(Coefficient(digits), Pow10(|digits|), Pow10(shift));
    PowGrows(|digits| + shift, above.precision);
  }

  lemma {:induction false} OwnDecimalReachable(digits: seq<nat>, exponent: int)
    ensures Reachable(DecimalTag(true, digits, exponent))
  {
  }

  /** Above means at least as many digits on both sides of the point. */
  lemma {:induction false} DecimalBelow(a: Tag, b: Tag)
    requires a.Decimal? && b.Decimal? && Reachable(a) && Reachable(b)
    ensures Below(a, b) <==> a.scale <= b.scale && a.precision - a.scale <= b.precision - b.scale
  {
  }

  // -------------------------------------------------------------------- values

  function TagOf(v: Cell): Tag
    decreases v
  {
    match v
    case VNull => Null
    case VBool => Bool
    case VInt(n) => if INT64_MIN <= n <= INT64_MAX then Int else Fallback
    case VFloat => Float
    case VStr => Str
    case VBytes => Bytes
    case VRef => Ref
    case VDateTime(aware) => if aware then TsUtc else Ts
    case VDate => Date
    case VTime(aware) => if aware then Fallback else Time
    case VDecimal(finite, digits, exponent) => DecimalTag(finite, digits, exponent)
    case VList(items) => (var inner := ListInner(items); if inner.Fallback? then Fallback else List(inner))
    case VOther => Fallback
  }

  function ListInner(items: seq<Cell>): Tag
    decreases items
  {
    if items == [] then Null else Unify(ListInner(items[..|items| - 1]), TagOf(items[|items| - 1]))
  }

  lemma {:induction false} TagOfReachable(v: Cell)
    ensures Reachable(TagOf(v))
    decreases v
  {
    if v.VList? {
      ListInnerReachable(v.items);
    }
  }

  lemma {:induction false} ListInnerReachable(items: seq<Cell>)
    ensures Reachable(ListInner(items))
    decreases items
  {
    if items != [] {
      ListInnerReachable(items[..|items| - 1]);
      TagOfReachable(items[|items| - 1]);
      UnifyReachable(ListInner(items[..|items| - 1]), TagOf(items[|items| - 1]));
    }
  }

  function TagsOf(vs: seq<Cell>): seq<Tag> {
    seq(|vs|, i requires 0 <= i < |vs| => TagOf(vs[i]))
  }

  /** In a column whose tag is decimal, every decimal cell fits the column's precision and scale. */
  lemma {:induction false} ColumnDecimalsFit(vs: seq<Cell>, i: nat)
    requires i < |vs| && vs[i].VDecimal? && vs[i].finite && Digits(vs[i].digits) && FoldTags(TagsOf(vs)).Decimal?
    ensures Fits(vs[i].digits, vs[i].exponent, FoldTags(TagsOf(vs)).precision, FoldTags(TagsOf(vs)).scale)
  {
    hide Reachable;
    var ts := TagsOf(vs);
    forall j | 0 <= j < |ts|
      ensures Reachable(ts[j])
    {
      TagOfReachable(vs[j]);
    }
    FoldIsAbove(ts, i);
    FoldReachable(ts);
    OwnTagIsDecimal(vs[i], FoldTags(ts));
    DecimalFitsAbove(vs[i].digits, vs[i].exponent, FoldTags(ts));
  }

  lemma {:induction false} OwnTagIsDecimal(v: Cell, above: Tag)
    requires v.VDecimal? && v.finite && above.Decimal? && Below(TagOf(v), above)
    ensures DecimalTag(true, v.digits, v.exponent).Decimal?
  {
    UnifyIdempotent(above);
  }
}
