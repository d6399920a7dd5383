/**
 Index keys and their order: the values an indexed field may hold, None among them, and the total
 order a sorted run is kept in.
 */
module Keys {

  datatype Key = Null | Num(n: int) | Text(s: string)

  predicate TextLess(a: string, b: string) {
    if b == "" then false
    else if a == "" then true
    else if a[0] != b[0] then a[0] < b[0]
    else TextLess(a[1..], b[1..])
  }

  /** A strict total order: None first, then numbers, then text. */
  predicate Less(a: Key, b: Key) {
    match (a, b)
    case (Null, Null) => false
    case (Null, _) => true
    case (_, Null) => false
    case (Num(m), Num(n)) => m < n
    case (Num(_), Text(_)) => true
    case (Text(_), Num(_)) => false
    case (Text(s), Text(t)) => TextLess(s, t)
  }

  lemma {:induction false} TextTotal(a: string, b: string)
    ensures !TextLess(a, a)
    ensures TextLess(a, b) || a == b || TextLess(b, a)
    ensures !(TextLess(a, b) && TextLess(b, a))
  {
    if a != "" {
      TextTotal(a[1..], if b != "" then b[1..] else "");
      if b != "" && a[0] == b[0] && a[1..] == b[1..] {
        assert a == [a[0]] + a[1..] == b;
      }
    }
  }

  lemma {:induction false} TextTransitive(a: string, b: string, c: string)
    requires TextLess(a, b) && TextLess(b, c)
    ensures TextLess(a, c)
  {
    if a != "" && a[0] == b[0] == c[0] {
      TextTransitive(a[1..], b[1..], c[1..]);
    }
  }

  lemma LessTotal(a: Key, b: Key)
    ensures !Less(a, a)
    ensures Less(a, b) || a == b || Less(b, a)
    ensures !(Less(a, b) && Less(b, a))
  {
    if a.Text? {
      TextTotal(a.s, if b.Text? then b.s else "");
    }
  }

  lemma LessTransitive(a: Key, b: Key, c: Key)
    requires Less(a, b) && Less(b, c)
    ensures Less(a, c)
  {
    if a.Text? && b.Text? && c.Text? {
      TextTransitive(a.s, b.s, c.s);
    }
  }

  // ------------------------------------------------------ what the order means

  /** Dictionary order: a proper prefix comes first, and otherwise the first difference decides. */
  ghost predicate InDictionaryOrder(a: string, b: string) {
    ProperPrefix(a, b) || exists i: nat :: SmallerAt(a, b, i)
  }

  ghost predicate ProperPrefix(a: string, b: string) {
    |a| < |b| && b[..|a|] == a
  }

  /** The texts agree before position `i` and `a` has the smaller character there. */
  ghost predicate SmallerAt(a: string, b: string, i: nat) {
    i < |a| && i < |b| && a[..i] == b[..i] && a[i] < b[i]
  }

  lemma {:induction false} TextLessIff(a: string, b: string)
    ensures TextLess(a, b) <==> InDictionaryOrder(a, b)
  {
    if a != "" && b != "" {
      if a[0] == b[0] {
        TextLessIff(a[1..], b[1..]);
        TailPrefix(a, b);
        if i: nat :| SmallerAt(a, b, i) {
          TailSmaller(a, b, i - 1);
        }
        if i: nat :| SmallerAt(a[1..], b[1..], i) {
          TailSmaller(a, b, i);
        }
      } else {
        if a[0] < b[0] {
          assert SmallerAt(a, b, 0);
        }
        FirstDecides(a, b);
      }
    }
  }

  lemma FirstDecides(a: string, b: string)
    requires a != "" && b != "" && a[0] != b[0]
    ensures !ProperPrefix(a, b)
    ensures forall i: nat :: SmallerAt(a, b, i) ==> i == 0
  {
    if |a| < |b| {
      assert b[..|a|][0] == b[0];
    }
    forall i: nat | 0 < i < |a| && i < |b|
      ensures a[..i] != b[..i]
    {
      assert a[..i][0] != b[..i][0];
    }
  }

  /** A shared first character does not count. */
  lemma TailPrefix(a: string, b: string)
    requires a != "" && b != "" && a[0] == b[0]
    ensures ProperPrefix(a, b) <==> ProperPrefix(a[1..], b[1..])
  {
    if |a| < |b| {
      assert b[..|a|] == [a[0]] + b[1..][..|a| - 1] && a == [a[0]] + a[1..];
      assert b[..|a|][1..] == b[1..][..|a| - 1];
    }
  }

  lemma TailSmaller(a: string, b: string, i: nat)
    requires a != "" && b != "" && a[0] == b[0]
    ensures SmallerAt(a, b, i + 1) <==> SmallerAt(a[1..], b[1..], i)
  {
    if i + 1 < |a| && i + 1 < |b| {
      assert a[..i + 1] == [a[0]] + a[1..][..i] && b[..i + 1] == [a[0]] + b[1..][..i];
      assert a[..i + 1][1..] == a[1..][..i] && b[..i + 1][1..] == b[1..][..i];
    }
  }

  /** None before everything, numbers by size and before text, text in dictionary order. */
  ghost predicate Precedes(a: Key, b: Key) {
    || (a.Null? && !b.Null?)
    || (a.Num? && b.Num? && a.n < b.n)
    || (a.Num? && b.Text?)
    || (a.Text? && b.Text? && InDictionaryOrder(a.s, b.s))
  }

  lemma LessIff(a: Key, b: Key)
    ensures Less(a, b) <==> Precedes(a, b)
  {
    if a.Text? && b.Text? {
      TextLessIff(a.s, b.s);
    }
  }

  // ------------------------------------------------------------- sorted runs

  ghost predicate StrictlySorted(run: seq<Key>) {
    forall i, j :: 0 <= i < j < |run| ==> Less(run[i], run[j])
  }

  /** Where a key belongs: the number of leading keys below it. */
  function BisectLeft(run: seq<Key>, k: Key): (n: nat)
    ensures n <= |run|
  {
    if run == [] || !Less(run[0], k) then 0 else 1 + BisectLeft(run[1..], k)
  }

  /** Past an equal key: the number of leading keys not above it. */
  function BisectRight(run: seq<Key>, k: Key): (n: nat)
    ensures n <= |run|
  {
    if run == [] || Less(k, run[0]) then 0 else 1 + BisectRight(run[1..], k)
  }

  lemma {:induction false} BisectLeftSplits(run: seq<Key>, k: Key)
    requires StrictlySorted(run)
    ensures forall i :: 0 <= i < |run| ==> (Less(run[i], k) <==> i < BisectLeft(run, k))
  {
    if run != [] {
      if Less(run[0], k) {
        BisectLeftSplits(run[1..], k);
        forall i | 0 <= i < |run|
          ensures Less(run[i], k) <==> i < BisectLeft(run, k)
        {
          if i > 0 {
            assert run[i] == run[1..][i - 1];
          }
        }
      } else {
        forall i | 0 <= i < |run|
          ensures !Less(run[i], k)
        {
          if i > 0 && Less(run[i], k) {
            LessTransitive(run[0], run[i], k);
          }
        }
      }
    }
  }

  lemma {:induction false} BisectRightSplits(run: seq<Key>, k: Key)
    requires StrictlySorted(run)
    ensures forall i :: 0 <= i < |run| ==> (Less(k, run[i]) <==> i >= BisectRight(run, k))
  {
    if run != [] {
      if Less(k, run[0]) {
        forall i | 0 <= i < |run|
          ensures Less(k, run[i])
        {
          if i > 0 {
            LessTransitive(k, run[0], run[i]);
          }
        }
      } else {
        BisectRightSplits(run[1..], k);
        forall i | 0 <= i < |run|
          ensures Less(k, run[i]) <==> i >= BisectRight(run, k)
        {
          if i > 0 {
            assert run[i] == run[1..][i - 1];
          }
        }
      }
    }
  }

  /** Insertion at the bisection point. */
  function Insort(run: seq<Key>, k: Key): seq<Key> {
    run[..BisectRight(run, k)] + [k] + run[BisectRight(run, k)..]
  }

  lemma InsortKeepsOrder(run: seq<Key>, k: Key)
    requires StrictlySorted(run) && k !in run
    ensures StrictlySorted(Insort(run, k))
    ensures forall x :: x in Insort(run, k) <==> x in run || x == k
  {
    var n := BisectRight(run, k);
    BisectRightSplits(run, k);
    var r := Insort(run, k);
    forall i, j | 0 <= i < j < |r|
      ensures Less(r[i], r[j])
    {
      if i < n && j == n {
        LessTotal(run[i], k);
      }
    }
    forall x
      ensures x in r <==> x in run || x == k
    {
      assert run == run[..n] + run[n..];
      if x == k {
        assert r[n] == k;
      }
    }
  }

  predicate IsLeast(k: Key, keys: set<Key>) {
    k in keys && forall x :: x in keys && x != k ==> Less(k, x)
  }

  /** Sorting a set of keys into its run. */
  function SortKeys(keys: set<Key>): (run: seq<Key>)
    ensures StrictlySorted(run)
    ensures forall k :: k in run <==> k in keys
  {
    if keys == {} then []
    else
      LeastExists(keys);
      var k :| IsLeast(k, keys);
      LeastIsUnique(keys);
      [k] + SortKeys(keys - {k})
  }

  lemma LeastIsUnique(keys: set<Key>)
    ensures forall a, b :: IsLeast(a, keys) && IsLeast(b, keys) ==> a == b
  {
    forall a, b | IsLeast(a, keys) && IsLeast(b, keys)
      ensures a == b
    {
      LessTotal(a, b);
    }
  }

  lemma {:induction false} LeastExists(keys: set<Key>)
    requires keys != {}
    ensures exists k :: IsLeast(k, keys)
  {
    var a :| a in keys;
    if keys == {a} {
      assert IsLeast(a, keys);
    } else {
      var rest := keys - {a};
      LeastExists(rest);
      var b :| IsLeast(b, rest);
      LessTotal(a, b);
      if Less(a, b) {
        forall x | x in keys && x != a
          ensures Less(a, x)
        {
          if x != b {
            LessTransitive(a, b, x);
          }
        }
        assert IsLeast(a, keys);
      } else {
        assert IsLeast(b, keys);
      }
    }
  }

  /** A strictly sorted sequence is determined by the set of its keys. */
  lemma {:induction false} SortedRunIsUnique(a: seq<Key>, b: seq<Key>)
    requires StrictlySorted(a) && StrictlySorted(b) && forall k :: k in a <==> k in b
    ensures a == b
  {
    if a == [] {
      if b != [] {
        HasFirst(b);
      }
    } else {
      assert a[0] in b && b != [];
      assert b[0] in a;
      LessTotal(a[0], b[0]);
      forall k
        ensures k in a[1..] <==> k in b[1..]
      {
        LessTotal(a[0], a[0]);
        TailMembers(a, k);
        TailMembers(b, k);
      }
      SortedRunIsUnique(a[1..], b[1..]);
      assert a == [a[0]] + a[1..] && b == [b[0]] + b[1..];
    }
  }

  lemma HasFirst(run: seq<Key>)
    requires run != []
    ensures exists k :: k in run
  {
    assert run[0] in run;
  }

  lemma TailMembers(run: seq<Key>, k: Key)
    requires run != [] && StrictlySorted(run)
    ensures k in run[1..] <==> k in run && k != run[0]
  {
    LessTotal(run[0], k);
    LessTotal(run[0], run[0]);
    if k in run && k != run[0] {
      var i :| 0 <= i < |run| && run[i] == k;
      assert run[1..][i - 1] == k;
    }
  }
}
