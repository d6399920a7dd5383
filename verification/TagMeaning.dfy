/**
 What column tags mean: which cells a column of each tag holds. A cell's tag is the least that holds it, one
 tag is below another exactly when it holds no more, and a column's tag is the least that holds all its cells.
 */
module TagMeaning {
  import opened Tags

  // ------------------------------------------------------------ what a tag holds

  ghost predicate InInt64(n: int) {
    -0x8000_0000_0000_0000 <= n < 0x8000_0000_0000_0000
  }

  /** Written out, the decimal has at most this many digits before and after the point. */
  ghost predicate DigitsFit(digits: seq<nat>, exponent: int, precision: int, scale: int) {
    -exponent <= scale && 0 <= scale && 1 <= precision - scale && |digits| + exponent <= precision - scale
  }

  /** A column of this tag holds the cell. Every column holds nulls, wider numbers hold narrower ones, and the
      fallback holds everything. */
  ghost predicate Takes(t: Tag, v: Cell)
    decreases v
  {
    || v.VNull?
    || match t
       case Null => false
       case Bool => v.VBool?
       case Int => v.VBool? || (v.VInt? && InInt64(v.n))
       case Float => v.VBool? || v.VFloat? || (v.VInt? && InInt64(v.n))
       case Str => v.VStr?
       case Bytes => v.VBytes?
       case Ref => v.VRef?
       case Ts => v.VDateTime? && !v.aware
       case TsUtc => v.VDateTime? && v.aware
       case Date => v.VDate?
       case Time => v.VTime? && !v.aware
       case Decimal(p, s) => v.VDecimal? && v.finite && DigitsFit(v.digits, v.exponent, p, s)
       case List(inner) => v.VList? && forall i :: 0 <= i < |v.items| ==> Takes(inner, v.items[i])
       case Fallback => true
  }

  // -------------------------------------------------------------- a cell's tag

  lemma {:induction false} ListsBelow(x: Tag, y: Tag)
    requires !x.Fallback? && !y.Fallback?
    ensures Below(List(x), List(y)) <==> Below(x, y)
  {
  }

  lemma {:induction false} EndsBelow(t: Tag)
    ensures Below(Null, t) && Below(t, Fallback) && (Below(Fallback, t) <==> t == Fallback) && (Below(t, Null) <==> t == Null)
  {
    UnifyIdempotent(t);
  }

  /** The join of the items' tags is below exactly when every item's is. */
  lemma {:induction false} InnerBelow(items: seq<Cell>, t: Tag)
    requires Reachable(t)
    ensures Below(ListInner(items), t) <==> forall i :: 0 <= i < |items| ==> Below(TagOf(items[i]), t)
  {
    hide Unify, Reachable, TagOf, Below;
    if items == [] {
      EndsBelow(t);
    } else {
      var front, last := items[..|items| - 1], items[|items| - 1];
      assert items == front + [last];
      InnerBelow(front, t);
      ListInnerReachable(front);
      TagOfReachable(last);
      JoinBelow(ListInner(front), TagOf(last), t);
    }
  }

  lemma {:induction false} JoinBelow(a: Tag, b: Tag, t: Tag)
    requires Reachable(a) && Reachable(b) && Reachable(t)
    ensures Below(Unify(a, b), t) <==> Below(a, t) && Below(b, t)
  {
    hide Unify, Reachable;
    UnifyIsLeast(a, b, t);
    UnifyReachable(a, b);
    if Below(Unify(a, b), t) {
      BelowTransits(a, Unify(a, b), t);
      BelowTransits(b, Unify(a, b), t);
    }
  }

  lemma {:induction false} BelowTransits(a: Tag, b: Tag, c: Tag)
    requires Reachable(a) && Reachable(b) && Reachable(c) && Below(a, b) && Below(b, c)
    ensures Below(a, c)
  {
    hide Unify, Reachable;
    UnifyAssociates(a, b, c);
  }

  /** A cell's tag is the least that holds the cell. */
  lemma {:induction false} TakesIff(t: Tag, v: Cell)
    requires Reachable(t)
    ensures Takes(t, v) <==> Below(TagOf(v), t)
    decreases v
  {
    EndsBelow(t);
    EndsBelow(TagOf(v));
    if v.VList? && !t.Null? && !t.Fallback? {
      if t.List? {
        ListTakesIff(t.inner, v.items);
      } else {
        hide ListInner, Takes;
        NoListTaken(t, v);
      }
    } else if v.VDecimal? && t.Decimal? {
      DecimalTakesIff(t, v);
    } else {
      hide ListInner, DigitsFit;
    }
  }

  lemma {:induction false} NoListTaken(t: Tag, v: Cell)
    requires v.VList? && !t.Null? && !t.Fallback? && !t.List?
    ensures !Takes(t, v) && !Below(TagOf(v), t)
  {
    hide ListInner;
  }

  lemma {:induction false} DecimalTakesIff(t: Tag, v: Cell)
    requires v.VDecimal? && t.Decimal? && Reachable(t)
    ensures Takes(t, v) <==> Below(TagOf(v), t)
  {
    EndsBelow(t);
    if v.finite && DecimalTag(true, v.digits, v.exponent).Decimal? {
      OwnDecimalReachable(v.digits, v.exponent);
      DecimalBelow(TagOf(v), t);
    }
  }

  lemma {:induction false} ListTakesIff(inner: Tag, items: seq<Cell>)
    requires !inner.Fallback? && Reachable(inner)
    ensures Takes(List(inner), VList(items)) <==> Below(TagOf(VList(items)), List(inner))
    decreases items, 1
  {
    hide Reachable, ListInner;
    forall i | 0 <= i < |items|
      ensures Takes(inner, items[i]) <==> Below(TagOf(items[i]), inner)
    {
      TakesIff(inner, items[i]);
    }
    InnerBelow(items, inner);
    ListMeans(inner, items);
  }

  lemma {:induction false} ListMeans(inner: Tag, items: seq<Cell>)
    requires !inner.Fallback?
    ensures Below(TagOf(VList(items)), List(inner)) <==> Below(ListInner(items), inner)
    ensures Takes(List(inner), VList(items)) <==> forall i :: 0 <= i < |items| ==> Takes(inner, items[i])
  {
    hide ListInner;
    EndsBelow(inner);
    EndsBelow(List(inner));
    var own := ListInner(items);
    if !own.Fallback? {
      ListsBelow(own, inner);
    }
  }

  // --------------------------------------------------------------- tags compared

  /** A cell whose tag this is. */
  function Sample(t: Tag): Cell {
    match t
    case Null => VNull
    case Bool => VBool
    case Int => VInt(0)
    case Float => VFloat
    case Str => VStr
    case Bytes => VBytes
    case Ref => VRef
    case Ts => VDateTime(false)
    case TsUtc => VDateTime(true)
    case Date => VDate
    case Time => VTime(false)
    case Decimal(p, s) => VDecimal(true, seq(p, _ => 0), -(s as int))
    case List(inner) => VList([Sample(inner)])
    case Fallback => VOther
  }

  lemma {:induction false} SampleHasTag(t: Tag)
    requires Reachable(t)
    ensures TagOf(Sample(t)) == t
    decreases t
  {
    if t.List? {
      SampleHasTag(t.inner);
      OneItem(Sample(t.inner));
    }
  }

  lemma {:induction false} OneItem(v: Cell)
    ensures ListInner([v]) == TagOf(v)
  {
    hide Unify, TagOf;
    assert [v][..0] == [];
    assert ListInner([]) == Null;
    UnifyIdempotent(TagOf(v));
  }

  /** One tag is below another exactly when the other holds every cell it holds. */
  lemma {:induction false} BelowMeans(a: Tag, b: Tag)
    requires Reachable(a) && Reachable(b)
    ensures Below(a, b) <==> forall v :: Takes(a, v) ==> Takes(b, v)
  {
    hide Unify, Reachable, Takes, TagOf, Sample, Below;
    if Below(a, b) {
      forall v | Takes(a, v)
        ensures Takes(b, v)
      {
        TakesIff(a, v);
        TakesIff(b, v);
        TagOfReachable(v);
        BelowTransits(TagOf(v), a, b);
      }
    } else {
      SampleHasTag(a);
      TakesIff(a, Sample(a));
      TakesIff(b, Sample(a));
      SelfBelow(a);
      assert Takes(a, Sample(a)) && !Takes(b, Sample(a));
    }
  }

  lemma {:induction false} SelfBelow(a: Tag)
    ensures Below(a, a)
  {
    UnifyIdempotent(a);
  }

  /** The join holds whatever either side holds, and no tag that does so is narrower. */
  lemma {:induction false} JoinTakes(a: Tag, b: Tag, t: Tag)
    requires Reachable(a) && Reachable(b) && Reachable(t)
    ensures forall v :: Takes(a, v) || Takes(b, v) ==> Takes(Unify(a, b), v)
    ensures (forall v :: Takes(a, v) || Takes(b, v) ==> Takes(t, v)) <==> forall v :: Takes(Unify(a, b), v) ==> Takes(t, v)
  {
    hide Unify, Reachable, Takes, TagOf, Below;
    UnifyReachable(a, b);
    UnifyIsLeast(a, b, t);
    BelowMeans(a, Unify(a, b));
    BelowMeans(b, Unify(a, b));
    BelowMeans(a, t);
    BelowMeans(b, t);
    BelowMeans(Unify(a, b), t);
    JoinBelow(a, b, t);
  }

  // --------------------------------------------------------------------- columns

  lemma {:induction false} FoldBelow(ts: seq<Tag>, t: Tag)
    requires AllReachable(ts) && Reachable(t)
    ensures Below(FoldTags(ts), t) <==> forall i :: 0 <= i < |ts| ==> Below(ts[i], t)
  {
    hide Unify, Reachable, Below;
    if ts == [] {
      EndsBelow(t);
    } else {
      var front, last := ts[..|ts| - 1], ts[|ts| - 1];
      assert ts == front + [last];
      FoldBelow(front, t);
      FoldReachable(front);
      JoinBelow(FoldTags(front), last, t);
    }
  }

  /** A tag holds every cell of a column exactly when the column's tag is below it: the column's own is the
      narrowest that loses nothing. */
  lemma {:induction false} ColumnTagIsLeast(vs: seq<Cell>, t: Tag)
    requires Reachable(t)
    ensures (forall i :: 0 <= i < |vs| ==> Takes(t, vs[i])) <==> Below(FoldTags(TagsOf(vs)), t)
    ensures forall i :: 0 <= i < |vs| ==> Takes(FoldTags(TagsOf(vs)), vs[i])
  {
    hide Unify, Reachable, Takes, TagOf, FoldTags, Below;
    var ts := TagsOf(vs);
    forall i | 0 <= i < |vs|
      ensures Reachable(ts[i]) && (Takes(t, vs[i]) <==> Below(ts[i], t))
    {
      TagOfReachable(vs[i]);
      TakesIff(t, vs[i]);
    }
    FoldBelow(ts, t);
    FoldReachable(ts);
    FoldBelow(ts, FoldTags(ts));
    SelfBelow(FoldTags(ts));
    forall i | 0 <= i < |vs|
      ensures Takes(FoldTags(ts), vs[i])
    {
      TakesIff(FoldTags(ts), vs[i]);
    }
  }
}
