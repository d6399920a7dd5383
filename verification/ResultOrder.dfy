/**
 Ordered and windowed reads: by one field, None last, ties by ascending OID in both directions. The
 index path walks postings key by key and may stop early; the scan path sorts the matched rows.
 */
module ResultOrder {
  import opened Wire
  import opened Keys
  import opened IndexSpec

  /** The order every ordered read promises. */
  ghost predicate Before(values: map<Oid, Key>, descending: bool, a: Oid, b: Oid)
    requires a in values && b in values
  {
    KeyBefore(values[a], values[b], descending) || (values[a] == values[b] && a < b)
  }

  predicate KeyBefore(a: Key, b: Key, descending: bool) {
    a != Null && a != b && (b == Null || if descending then Less(b, a) else Less(a, b))
  }

  ghost predicate InOrder(values: map<Oid, Key>, descending: bool, s: seq<Oid>) {
    && (forall o :: o in s ==> o in values)
    && forall i, j :: 0 <= i < j < |s| ==> Before(values, descending, s[i], s[j])
  }

  ghost predicate Lists(s: seq<Oid>, oids: set<Oid>) {
    forall o :: o in s <==> o in oids
  }

  lemma BeforeIsStrict(values: map<Oid, Key>, descending: bool, a: Oid, b: Oid)
    requires a in values && b in values
    ensures !(Before(values, descending, a, b) && Before(values, descending, b, a))
  {
    LessTotal(values[a], values[b]);
  }

  /** The order determines the sequence. */
  lemma {:induction false} OrderIsUnique(values: map<Oid, Key>, descending: bool, s: seq<Oid>, t: seq<Oid>)
    requires InOrder(values, descending, s) && InOrder(values, descending, t) && forall o :: o in s <==> o in t
    ensures s == t
  {
    hide Before;
    if s == [] {
      if t != [] {
        HasMember(t);
      }
    } else {
      assert s[0] in t && t != [];
      assert t[0] in s;
      BeforeIsStrict(values, descending, s[0], t[0]);
      assert s[0] == t[0];
      forall o
        ensures o in s[1..] <==> o in t[1..]
      {
        InTail(values, descending, s, o);
        InTail(values, descending, t, o);
      }
      OrderIsUnique(values, descending, s[1..], t[1..]);
      assert s == [s[0]] + s[1..] && t == [t[0]] + t[1..];
    }
  }

  lemma InTail(values: map<Oid, Key>, descending: bool, s: seq<Oid>, o: Oid)
    requires InOrder(values, descending, s) && s != []
    ensures o in s[1..] <==> o in s && o != s[0]
    ensures InOrder(values, descending, s[1..])
  {
    assert forall i :: 1 <= i < |s| ==> s[1..][i - 1] == s[i];
    forall i | 1 <= i < |s|
      ensures s[i] != s[0]
    {
      assert s[0] in s && s[i] in s && Before(values, descending, s[0], s[i]);
      BeforeIsStrict(values, descending, s[0], s[i]);
    }
  }

  // ----------------------------------------------------------- bitmap iteration

  predicate IsMin(o: Oid, oids: set<Oid>) {
    o in oids && forall p :: p in oids ==> o <= p
  }

  lemma {:induction false} MinExists(oids: set<Oid>)
    requires oids != {}
    ensures exists o :: IsMin(o, oids)
  {
    var o :| o in oids;
    if oids == {o} {
      assert IsMin(o, oids);
    } else {
      MinExists(oids - {o});
      var p :| IsMin(p, oids - {o});
      assert forall x :: x in oids ==> x == o || x in oids - {o};
      assert IsMin(if o <= p then o else p, oids);
    }
  }

  /** A bitmap iterates in ascending OID. */
  function Ascending(oids: set<Oid>): (s: seq<Oid>)
    ensures Lists(s, oids)
    ensures forall i, j :: 0 <= i < j < |s| ==> s[i] < s[j]
  {
    if oids == {} then []
    else
      MinExists(oids);
      var o :| IsMin(o, oids);
      [o] + Ascending(oids - {o})
  }

  // ------------------------------------------------------------------ by index

  /** The matched OIDs, key by key. */
  function ByKeys(col: Column, matched: set<Oid>, keys: seq<Key>): seq<Oid> {
    if keys == [] then []
    else ByKeys(col, matched, keys[..|keys| - 1]) + Ascending(Posting(col, keys[|keys| - 1]) * matched)
  }

  function Reversed(keys: seq<Key>): seq<Key> {
    if keys == [] then [] else [keys[|keys| - 1]] + Reversed(keys[..|keys| - 1])
  }

  /** The distinct non-None keys in reading order; a sorted field has them ready. */
  function ReadingKeys(s: Schema, v: View, f: Field, descending: bool): seq<Key>
    requires f in v.eq && v.runs.Keys == s.sortedFields
  {
    var ascending := if f in s.sortedFields then v.runs[f] else SortKeys(v.eq[f].Keys - {Null});
    if descending then Reversed(ascending) else ascending
  }

  function IndexOrder(s: Schema, v: View, matched: set<Oid>, f: Field, descending: bool): seq<Oid>
    requires f in v.eq && v.runs.Keys == s.sortedFields
  {
    ByKeys(v.eq[f], matched, ReadingKeys(s, v, f, descending)) + Ascending(Posting(v.eq[f], Null) * matched)
  }

  /** Keys in reading order: each before the next, none None. */
  ghost predicate InReadingOrder(keys: seq<Key>, descending: bool) {
    forall i, j :: 0 <= i < j < |keys| ==> KeyBefore(keys[i], keys[j], descending)
  }

  lemma {:induction false} ReversedAt(keys: seq<Key>)
    ensures |Reversed(keys)| == |keys| && forall i :: 0 <= i < |keys| ==> Reversed(keys)[i] == keys[|keys| - 1 - i]
  {
    if keys != [] {
      var front, r := keys[..|keys| - 1], Reversed(keys);
      ReversedAt(front);
      assert r == [keys[|keys| - 1]] + Reversed(front);
      hide Reversed;
      forall i | 0 <= i < |keys|
        ensures r[i] == keys[|keys| - 1 - i]
      {
        if i > 0 {
          assert r[i] == Reversed(front)[i - 1];
        }
      }
    }
  }

  lemma ReadingKeysInOrder(s: Schema, v: View, rows: Rows, f: Field, descending: bool)
    requires Exact(s, v, rows) && f in s.eqFields
    ensures f in v.eq && v.runs.Keys == s.sortedFields
    ensures var keys := ReadingKeys(s, v, f, descending);
      InReadingOrder(keys, descending) && forall k :: k in keys <==> k in v.eq[f] && k != Null
  {
    var ascending := if f in s.sortedFields then v.runs[f] else SortKeys(v.eq[f].Keys - {Null});
    assert StrictlySorted(ascending) && forall k :: k in ascending <==> k in v.eq[f] && k != Null by {
      if f in s.sortedFields {
        assert RunExact(v.runs[f], v.eq[f]);
      }
    }
    DirectedOrder(ascending, descending);
  }

  lemma DirectedOrder(ascending: seq<Key>, descending: bool)
    requires StrictlySorted(ascending) && Null !in ascending
    ensures var keys := if descending then Reversed(ascending) else ascending;
      InReadingOrder(keys, descending) && forall k :: k in keys <==> k in ascending
  {
    var keys := if descending then Reversed(ascending) else ascending;
    ReversedAt(ascending);
    forall i, j | 0 <= i < j < |keys|
      ensures KeyBefore(keys[i], keys[j], descending)
    {
      LessTotal(keys[i], keys[j]);
      if descending {
        assert Less(ascending[|ascending| - 1 - j], ascending[|ascending| - 1 - i]);
      }
      assert keys[i] in ascending && keys[j] in ascending;
    }
    forall k
      ensures k in keys <==> k in ascending
    {
      if k in ascending {
        var i :| 0 <= i < |ascending| && ascending[i] == k;
        assert keys[if descending then |ascending| - 1 - i else i] == k;
      }
      if k in keys {
        var i :| 0 <= i < |keys| && keys[i] == k;
        assert ascending[if descending then |ascending| - 1 - i else i] == k;
      }
    }
  }

  /** The column files every OID under its value. */
  ghost predicate Files(col: Column, values: map<Oid, Key>) {
    forall k, o {:trigger o in Posting(col, k)} :: o in Posting(col, k) <==> o in values && values[o] == k
  }

  lemma AppendBlock(values: map<Oid, Key>, descending: bool, s: seq<Oid>, t: seq<Oid>, k: Key)
    requires InOrder(values, descending, s)
    requires forall o :: o in s ==> KeyBefore(values[o], k, descending)
    requires forall o :: o in t ==> o in values && values[o] == k
    requires forall i, j :: 0 <= i < j < |t| ==> t[i] < t[j]
    ensures InOrder(values, descending, s + t)
  {
    var both := s + t;
    assert forall i :: 0 <= i < |s| ==> both[i] == s[i] && s[i] in s;
    assert forall i :: 0 <= i < |t| ==> both[|s| + i] == t[i] && t[i] in t;
    forall i, j | 0 <= i < j < |both|
      ensures Before(values, descending, both[i], both[j])
    {
      if j >= |s| && i >= |s| {
        assert t[i - |s|] < t[j - |s|];
      }
    }
  }

  lemma {:induction false} ByKeysInOrder(col: Column, values: map<Oid, Key>, matched: set<Oid>, keys: seq<Key>, descending: bool)
    requires Files(col, values) && InReadingOrder(keys, descending)
    ensures InOrder(values, descending, ByKeys(col, matched, keys))
    ensures forall o :: o in ByKeys(col, matched, keys) <==> o in matched && o in values && values[o] in keys
  {
    hide Before, KeyBefore, Posting;
    if keys != [] {
      var front, k := keys[..|keys| - 1], keys[|keys| - 1];
      assert keys == front + [k];
      ByKeysInOrder(col, values, matched, front, descending);
      assert forall i :: 0 <= i < |front| ==> KeyBefore(front[i], k, descending);
      var block := Ascending(Posting(col, k) * matched);
      assert forall o :: o in block ==> o in Posting(col, k);
      AppendBlock(values, descending, ByKeys(col, matched, front), block, k);
    }
  }

  /** The index path lists exactly the matched OIDs, in order. */
  lemma IndexOrderInOrder(s: Schema, v: View, values: map<Oid, Key>, matched: set<Oid>, f: Field, descending: bool)
    requires f in v.eq && v.runs.Keys == s.sortedFields && Files(v.eq[f], values) && matched <= values.Keys
    requires var keys := ReadingKeys(s, v, f, descending);
      InReadingOrder(keys, descending) && forall k :: k in keys <==> k in v.eq[f] && k != Null
    ensures InOrder(values, descending, IndexOrder(s, v, matched, f, descending))
    ensures Lists(IndexOrder(s, v, matched, f, descending), matched)
  {
    var keys, col := ReadingKeys(s, v, f, descending), v.eq[f];
    hide ReadingKeys, Before, InReadingOrder;
    ByKeysInOrder(col, values, matched, keys, descending);
    var nulls := Ascending(Posting(col, Null) * matched);
    assert forall o :: o in nulls ==> o in Posting(col, Null);
    AppendBlock(values, descending, ByKeys(col, matched, keys), nulls, Null);
    forall o
      ensures o in IndexOrder(s, v, matched, f, descending) <==> o in matched
    {
      if o in matched && values[o] != Null {
        assert o in Posting(col, values[o]);
      }
    }
  }

  /** The one key of a single-valued field, row by row. */
  function ValuesOf(rows: Rows, f: Field): map<Oid, Key> {
    map o | o in rows :: if f in rows[o] then UniqueKey(rows[o][f]) else Null
  }

  lemma ColumnFiles(s: Schema, v: View, rows: Rows, f: Field)
    requires Exact(s, v, rows) && f in s.eqFields && f !in s.listFields
    ensures f in v.eq && Files(v.eq[f], ValuesOf(rows, f))
  {
    assert ColumnExact(v.eq[f], rows, f, false);
    forall k, o
      ensures o in Posting(v.eq[f], k) <==> o in rows && ValuesOf(rows, f)[o] == k
    {
      assert o in Posting(v.eq[f], k) <==> Filed(rows, f, false, k, o);
      if o in rows {
        assert WellTyped(s, rows[o]);
      }
    }
  }

  /** The index path's order is the promised one. */
  lemma IndexOrderExact(s: Schema, v: View, rows: Rows, matched: set<Oid>, f: Field, descending: bool)
    requires Exact(s, v, rows) && f in s.eqFields && f !in s.listFields && matched <= v.extent
    ensures f in v.eq && v.runs.Keys == s.sortedFields
    ensures InOrder(ValuesOf(rows, f), descending, IndexOrder(s, v, matched, f, descending))
    ensures Lists(IndexOrder(s, v, matched, f, descending), matched)
  {
    hide ReadingKeys, IndexOrder, InOrder, InReadingOrder, Files;
    ReadingKeysInOrder(s, v, rows, f, descending);
    ColumnFiles(s, v, rows, f);
    IndexOrderInOrder(s, v, ValuesOf(rows, f), matched, f, descending);
  }

  /** The promised order in terms of the keys: ascending or descending by `Precedes`, rows without a value
      last, equal keys by ascending OID. */
  ghost predicate ReadsInOrder(values: map<Oid, Key>, descending: bool, s: seq<Oid>) {
    && (forall o :: o in s ==> o in values)
    && forall i, j :: 0 <= i < j < |s| ==> ReadsBefore(values[s[i]], values[s[j]], descending, s[i], s[j])
  }

  ghost predicate ReadsBefore(a: Key, b: Key, descending: bool, x: Oid, y: Oid) {
    if a == b then x < y
    else if a == Null then false
    else b == Null || if descending then Precedes(b, a) else Precedes(a, b)
  }

  lemma InOrderMeans(values: map<Oid, Key>, descending: bool, s: seq<Oid>)
    ensures InOrder(values, descending, s) <==> ReadsInOrder(values, descending, s)
  {
    hide Less, Precedes;
    forall i, j | 0 <= i < j < |s| && s[i] in values && s[j] in values
      ensures Before(values, descending, s[i], s[j]) <==> ReadsBefore(values[s[i]], values[s[j]], descending, s[i], s[j])
    {
      LessIff(values[s[i]], values[s[j]]);
      LessIff(values[s[j]], values[s[i]]);
    }
  }

  /** The index path lists the matched OIDs in it. */
  lemma IndexOrderMeans(s: Schema, v: View, rows: Rows, matched: set<Oid>, f: Field, descending: bool)
    requires Exact(s, v, rows) && f in s.eqFields && f !in s.listFields && matched <= v.extent
    ensures f in v.eq && v.runs.Keys == s.sortedFields
    ensures ReadsInOrder(ValuesOf(rows, f), descending, IndexOrder(s, v, matched, f, descending))
    ensures Lists(IndexOrder(s, v, matched, f, descending), matched)
  {
    IndexOrderExact(s, v, rows, matched, f, descending);
    InOrderMeans(ValuesOf(rows, f), descending, IndexOrder(s, v, matched, f, descending));
    hide IndexOrder, InOrder, ReadsInOrder, Exact;
  }

  method OrderViaIndex(s: Schema, v: View, matched: set<Oid>, f: Field, descending: bool) returns (out: seq<Oid>)
    requires f in v.eq && v.runs.Keys == s.sortedFields
    ensures out == IndexOrder(s, v, matched, f, descending)
  {
    hide Ascending;
    var keys := ReadingKeys(s, v, f, descending);
    out := [];
    for i := 0 to |keys|
      invariant out == ByKeys(v.eq[f], matched, keys[..i])
    {
      assert keys[..i + 1][..i] == keys[..i];
      out := out + Ascending(Posting(v.eq[f], keys[i]) * matched);
    }
    assert keys[..|keys|] == keys;
    out := out + Ascending(Posting(v.eq[f], Null) * matched);
  }

  // -------------------------------------------------------------------- windows

  function Min(a: nat, b: nat): nat {
    if a <= b then a else b
  }

  /** Slicing clamps to the length. */
  function Window<T>(s: seq<T>, limit: Option<nat>, offset: nat): seq<T> {
    var rest := s[Min(offset, |s|)..];
    if limit.Some? then rest[..Min(limit.value, |rest|)] else rest
  }

  /** A window skips the first `offset` rows and takes at most `limit` of those after them, in order. */
  lemma WindowMeans<T>(s: seq<T>, limit: Option<nat>, offset: nat)
    ensures var w, left := Window(s, limit, offset), if offset <= |s| then |s| - offset else 0;
      && |w| == (if limit.Some? && limit.value < left then limit.value else left)
      && forall i :: 0 <= i < |w| ==> w[i] == s[offset + i]
  {
  }

  lemma {:induction false} ByKeysPrefix(col: Column, matched: set<Oid>, keys: seq<Key>, n: nat)
    requires n <= |keys|
    ensures ByKeys(col, matched, keys[..n]) <= ByKeys(col, matched, keys)
    decreases |keys| - n
  {
    hide Ascending;
    if n < |keys| {
      assert keys[..n + 1][..n] == keys[..n];
      ByKeysPrefix(col, matched, keys, n + 1);
    } else {
      assert keys[..n] == keys;
    }
  }

  lemma WindowOfPrefix<T>(head: seq<T>, whole: seq<T>, limit: nat, offset: nat)
    requires head <= whole && (|head| >= offset + limit || head == whole)
    ensures Window(whole, Some(limit), offset) == head[Min(offset, |head|)..Min(offset + limit, |head|)]
  {
  }

  /** Stops after `offset + limit` OIDs, yet returns that slice of the whole order. */
  method WindowedIndexOrder(s: Schema, v: View, matched: set<Oid>, f: Field, descending: bool, limit: Option<nat>, offset: nat)
    returns (out: seq<Oid>)
    requires f in v.eq && v.runs.Keys == s.sortedFields
    ensures out == Window(IndexOrder(s, v, matched, f, descending), limit, offset)
  {
    hide Ascending, Window, ReadingKeys;
    ghost var whole := IndexOrder(s, v, matched, f, descending);
    if limit.None? {
      var ordered := OrderViaIndex(s, v, matched, f, descending);
      return Window(ordered, None, offset);
    }
    var stop := offset + limit.value;
    var keys := ReadingKeys(s, v, f, descending);
    out := [];
    for i := 0 to |keys|
      invariant out == ByKeys(v.eq[f], matched, keys[..i])
    {
      assert keys[..i + 1][..i] == keys[..i];
      out := out + Ascending(Posting(v.eq[f], keys[i]) * matched);
      if |out| >= stop {
        ByKeysPrefix(v.eq[f], matched, keys, i + 1);
        WindowOfPrefix(out, whole, limit.value, offset);
        return out[Min(offset, |out|)..Min(stop, |out|)];
      }
    }
    assert keys[..|keys|] == keys;
    if |out| < stop {
      out := out + Ascending(Posting(v.eq[f], Null) * matched);
    }
    WindowOfPrefix(out, whole, limit.value, offset);
    out := out[Min(offset, |out|)..Min(stop, |out|)];
  }

  lemma TakenIsWindow<T>(candidates: seq<T>, limit: Option<nat>, offset: nat, i: nat)
    requires i == if limit.Some? then Min(offset + limit.value, |candidates|) else |candidates|
    ensures Taken(candidates, offset, i) == Window(candidates, limit, offset)
  {
  }

  function Taken<T>(candidates: seq<T>, offset: nat, i: nat): seq<T>
    requires i <= |candidates|
  {
    candidates[Min(offset, i)..i]
  }

  lemma NothingTaken<T>(candidates: seq<T>, offset: nat)
    ensures Taken(candidates, offset, 0) == []
  {
  }

  lemma TakeOneMore<T>(candidates: seq<T>, offset: nat, i: nat)
    requires i < |candidates|
    ensures Taken(candidates, offset, i + 1) == Taken(candidates, offset, i) + if i >= offset then [candidates[i]] else []
  {
  }

  /** Takes the window off a sorted iterator, reading no further than its end. */
  method WindowIter<T>(candidates: seq<T>, limit: Option<nat>, offset: nat) returns (out: seq<T>)
    ensures out == Window(candidates, limit, offset)
  {
    hide Window, Taken;
    out := [];
    var i := 0;
    assert Taken(candidates, offset, 0) == [] by {
      NothingTaken(candidates, offset);
    }
    while i < |candidates| && (limit.None? || i < offset + limit.value)
      invariant 0 <= i <= |candidates| && (limit.Some? ==> i <= offset + limit.value)
      invariant out == Taken(candidates, offset, i)
    {
      TakeOneMore(candidates, offset, i);
      if i >= offset {
        out := out + [candidates[i]];
      }
      i := i + 1;
    }
    TakenIsWindow(candidates, limit, offset, i);
  }

  // ------------------------------------------------------------------ by sorting

  /** Where a later element goes in a stable sort: behind every element it is not strictly before. */
  function Place(s: seq<Oid>, values: map<Oid, Key>, descending: bool, o: Oid): seq<Oid>
    requires o in values && forall p :: p in s ==> p in values
  {
    if s == [] then [o]
    else if KeyBefore(values[o], values[s[0]], descending) then [o] + s
    else [s[0]] + Place(s[1..], values, descending, o)
  }

  /** The built-in sort by key: stable, also in reverse. */
  function StableSort(s: seq<Oid>, values: map<Oid, Key>, descending: bool): (r: seq<Oid>)
    requires forall p :: p in s ==> p in values
    ensures forall p :: p in r ==> p in values
  {
    if s == [] then [] else
      PlaceMembers(StableSort(s[..|s| - 1], values, descending), values, descending, s[|s| - 1]);
      Place(StableSort(s[..|s| - 1], values, descending), values, descending, s[|s| - 1])
  }

  lemma {:induction false} PlaceMembers(s: seq<Oid>, values: map<Oid, Key>, descending: bool, o: Oid)
    requires o in values && forall p :: p in s ==> p in values
    ensures forall p :: p in Place(s, values, descending, o) <==> p in s || p == o
  {
    if s != [] && !KeyBefore(values[o], values[s[0]], descending) {
      PlaceMembers(s[1..], values, descending, o);
      assert s == [s[0]] + s[1..];
    }
  }

  lemma {:induction false} PlaceKeepsOrder(s: seq<Oid>, values: map<Oid, Key>, descending: bool, o: Oid)
    requires o in values && InOrder(values, descending, s) && forall p :: p in s ==> p < o && values[p] != Null
    requires values[o] != Null
    ensures InOrder(values, descending, Place(s, values, descending, o))
  {
    PlaceMembers(s, values, descending, o);
    if s != [] {
      var r := Place(s, values, descending, o);
      if KeyBefore(values[o], values[s[0]], descending) {
        forall j | 0 < j < |r|
          ensures Before(values, descending, r[0], r[j])
        {
          assert r[j] == s[j - 1];
          if j > 1 {
            FirstLeads(s, values, descending, o, j - 1);
          }
        }
      } else {
        InTail(values, descending, s, s[0]);
        PlaceKeepsOrder(s[1..], values, descending, o);
        PlaceMembers(s[1..], values, descending, o);
        forall j | 0 < j < |r|
          ensures Before(values, descending, r[0], r[j])
        {
          assert r[j] in Place(s[1..], values, descending, o);
          assert s[0] in s;
          LessTotal(values[s[0]], values[o]);
          if r[j] != o {
            var i :| 0 <= i < |s| - 1 && s[1..][i] == r[j];
            assert Before(values, descending, s[0], s[i + 1]);
          }
        }
      }
    }
  }

  lemma FirstLeads(s: seq<Oid>, values: map<Oid, Key>, descending: bool, o: Oid, j: nat)
    requires InOrder(values, descending, s) && o in values && 0 < j < |s| && forall p :: p in s ==> values[p] != Null
    requires KeyBefore(values[o], values[s[0]], descending)
    ensures KeyBefore(values[o], values[s[j]], descending)
  {
    assert Before(values, descending, s[0], s[j]) && s[0] in s && s[j] in s;
    if values[s[0]] != values[s[j]] {
      if descending {
        LessTransitive(values[s[j]], values[s[0]], values[o]);
        LessTotal(values[s[j]], values[o]);
      } else {
        LessTransitive(values[o], values[s[0]], values[s[j]]);
        LessTotal(values[s[j]], values[o]);
      }
    }
  }

  lemma {:induction false} StableSortInOrder(s: seq<Oid>, values: map<Oid, Key>, descending: bool)
    requires forall p :: p in s ==> p in values && values[p] != Null
    requires forall i, j :: 0 <= i < j < |s| ==> s[i] < s[j]
    ensures InOrder(values, descending, StableSort(s, values, descending))
    ensures forall p :: p in StableSort(s, values, descending) <==> p in s
  {
    hide Before, KeyBefore;
    if s != [] {
      var front, o := s[..|s| - 1], s[|s| - 1];
      assert s == front + [o];
      StableSortInOrder(front, values, descending);
      var sorted := StableSort(front, values, descending);
      PlaceMembers(sorted, values, descending, o);
      assert forall p :: p in sorted ==> p < o && values[p] != Null;
      PlaceKeepsOrder(sorted, values, descending, o);
    }
  }

  /** The scan path: rows without a value last, the others by a stable sort. */
  method OrderByValues(matched: seq<Oid>, values: map<Oid, Key>, descending: bool) returns (out: seq<Oid>)
    requires forall i, j :: 0 <= i < j < |matched| ==> matched[i] < matched[j]
    requires forall o :: o in matched ==> o in values
    ensures InOrder(values, descending, out) && forall o :: o in out <==> o in matched
  {
    hide Before, InOrder;
    var present, absent := [], [];
    for i := 0 to |matched|
      invariant forall o :: o in present <==> o in matched[..i] && values[o] != Null
      invariant forall o :: o in absent <==> o in matched[..i] && values[o] == Null
      invariant i < |matched| ==> forall a :: 0 <= a < |present| ==> present[a] < matched[i]
      invariant i < |matched| ==> forall a :: 0 <= a < |absent| ==> absent[a] < matched[i]
      invariant forall a, b :: 0 <= a < b < |present| ==> present[a] < present[b]
      invariant forall a, b :: 0 <= a < b < |absent| ==> absent[a] < absent[b]
    {
      var o := matched[i];
      assert matched[..i + 1] == matched[..i] + [o];
      if values[o] == Null {
        absent := absent + [o];
      } else {
        present := present + [o];
      }
    }
    assert matched[..|matched|] == matched;
    StableSortInOrder(present, values, descending);
    present := StableSort(present, values, descending);
    AppendBlock(values, descending, present, absent, Null);
    out := present + absent;
  }

  /** Both paths agree: whatever the scan path returns for the matched rows, the index path returns. */
  lemma IndexedOrderIsStableSort(s: Schema, v: View, rows: Rows, matched: set<Oid>, f: Field, descending: bool, scanned: seq<Oid>)
    requires Exact(s, v, rows) && f in s.eqFields && f !in s.listFields && matched <= v.extent
    requires InOrder(ValuesOf(rows, f), descending, scanned) && Lists(scanned, matched)
    ensures f in v.eq && v.runs.Keys == s.sortedFields
    ensures IndexOrder(s, v, matched, f, descending) == scanned
  {
    hide IndexOrder, InOrder, Exact;
    IndexOrderExact(s, v, rows, matched, f, descending);
    OrderIsUnique(ValuesOf(rows, f), descending, IndexOrder(s, v, matched, f, descending), scanned);
  }
}
