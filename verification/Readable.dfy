/**
 The readable set as a bitmap: the twin of the row predicate, compiled from the label columns by
 visiting only the principal's own memberships and the implicit world one.
 */
module Readable {
  import opened Wire
  import opened Keys
  import opened IndexSpec
  import opened Conditions
  import opened Planner
  import opened Permissions

  const OWNER := "_dc_owner"
  const GROUPS := "_dc_groups"
  const READ_FLOOR := "_dc_read_floor"

  /** The label columns of a protected class: owner indexed, groups multi-valued, read floor sorted. */
  ghost predicate ProtectedSchema(s: Schema) {
    OWNER in s.eqFields && OWNER !in s.listFields && GROUPS in s.listFields && READ_FLOOR in s.sortedFields
  }

  function Nums(gs: seq<int>): (r: seq<Key>)
    ensures |r| == |gs| && forall i :: 0 <= i < |r| ==> r[i] == Num(gs[i])
  {
    seq(|gs|, i requires 0 <= i < |gs| => Num(gs[i]))
  }

  /** The row carries these labels. */
  ghost predicate Labelled(row: Row, l: Labels) {
    && OWNER in row && row[OWNER] == Scalar(Num(l.owner))
    && GROUPS in row && row[GROUPS] == ListOf(Nums(l.groups))
    && READ_FLOOR in row && row[READ_FLOOR] == Scalar(Num(l.readFloor))
  }

  /** What the bitmap admits: ownership, or a held group whose level clears the read floor. */
  ghost predicate Admits(p: Principal, l: Labels) {
    IsOwner(p, l.owner) || exists g :: g in l.groups && AdmitsBy(p, l, g)
  }

  ghost predicate AdmitsBy(p: Principal, l: Labels, g: int) {
    (g in p.memberships || g == WORLD) && Level(p, g) >= l.readFloor
  }

  /** The only rows on which the two disagree: a floor nobody can fail, seen by a stranger. */
  ghost predicate FloorBelowLadder(p: Principal, l: Labels) {
    && l.readFloor <= NO_STANDING && !Admits(p, l)
    && (l.groups == [] || exists g :: g in l.groups && g !in p.memberships && g != WORLD)
  }

  /** The row predicate says yes exactly when the bitmap does, or on such a row. */
  lemma AdmitsIff(p: Principal, l: Labels)
    requires !IsRoot(p)
    ensures CanReadRow(p, l.owner, l.groups, l.readFloor) <==> Admits(p, l) || FloorBelowLadder(p, l)
    ensures l.readFloor >= VIEWER ==> !FloorBelowLadder(p, l)
  {
    hide AuthorityTowards;
    AuthorityClears(p, l.owner, l.groups, l.readFloor);
    if g :| g in l.groups && Level(p, g) >= l.readFloor {
      assert g in p.memberships || g == WORLD ==> AdmitsBy(p, l, g);
    }
    if FloorBelowLadder(p, l) && l.groups != [] {
      var g :| g in l.groups && g !in p.memberships && g != WORLD;
      assert Level(p, g) == NO_STANDING;
    }
    if !IsOwner(p, l.owner) && Admits(p, l) {
      var g :| g in l.groups && AdmitsBy(p, l, g);
      assert Level(p, g) >= l.readFloor;
    }
  }

  /** A stranger and a record shared with nobody whose floor is no standing at all. */
  lemma FloorBelowLadderIsReal()
    ensures var p, l := Principal(7, map[]), Labels(3, [], NO_STANDING, VIEWER);
      !IsRoot(p) && CanReadRow(p, l.owner, l.groups, l.readFloor) && !Admits(p, l)
  {
    AdmitsIff(Principal(7, map[]), Labels(3, [], NO_STANDING, VIEWER));
  }

  function WithWorld(p: Principal): map<int, int> {
    if WORLD in p.memberships then p.memberships else p.memberships[WORLD := VIEWER]
  }

  /** The OIDs filed under group `g` with a read floor of at most `lvl`. */
  function Cleared(v: View, g: int, lvl: int): set<Oid>
    requires GROUPS in v.eq && READ_FLOOR in v.eq && READ_FLOOR in v.runs
  {
    Posting(v.eq[GROUPS], Num(g)) * RangeSlice(v, READ_FLOOR, Le, Num(lvl))
  }

  lemma ClearedExact(s: Schema, v: View, rows: Rows, o: Oid, l: Labels, g: int, lvl: int)
    requires Exact(s, v, rows) && ProtectedSchema(s) && o in rows && Labelled(rows[o], l)
    ensures GROUPS in v.eq && READ_FLOOR in v.eq && READ_FLOOR in v.runs
    ensures o in Cleared(v, g, lvl) <==> g in l.groups && l.readFloor <= lvl
  {
    hide RangeSlice, WellTyped, RunExact, UniqueExact;
    RangeSliceExact(s, v, rows, READ_FLOOR, Le, Num(lvl), o);
    GroupFiled(s, v, rows, o, l, g);
  }

  lemma GroupFiled(s: Schema, v: View, rows: Rows, o: Oid, l: Labels, g: int)
    requires Exact(s, v, rows) && ProtectedSchema(s) && o in rows && Labelled(rows[o], l)
    ensures GROUPS in v.eq && (o in Posting(v.eq[GROUPS], Num(g)) <==> g in l.groups)
  {
    assert ColumnExact(v.eq[GROUPS], rows, GROUPS, true);
    assert o in Posting(v.eq[GROUPS], Num(g)) <==> Filed(rows, GROUPS, true, Num(g), o);
    if g in l.groups {
      var i :| 0 <= i < |l.groups| && l.groups[i] == g;
      assert Nums(l.groups)[i] == Num(g);
    }
    if Num(g) in Nums(l.groups) {
      var i :| 0 <= i < |l.groups| && Nums(l.groups)[i] == Num(g);
      assert l.groups[i] == g;
    }
  }

  lemma OwnerFiled(s: Schema, v: View, rows: Rows, o: Oid, l: Labels, uid: int)
    requires Exact(s, v, rows) && ProtectedSchema(s) && o in rows && Labelled(rows[o], l)
    ensures OWNER in v.eq && (o in Posting(v.eq[OWNER], Num(uid)) <==> l.owner == uid)
  {
    assert ColumnExact(v.eq[OWNER], rows, OWNER, false);
    assert o in Posting(v.eq[OWNER], Num(uid)) <==> Filed(rows, OWNER, false, Num(uid), o);
  }

  lemma OnlyRows(s: Schema, v: View, rows: Rows, k: Key, f: Field)
    requires Exact(s, v, rows) && f in s.eqFields
    ensures f in v.eq && Posting(v.eq[f], k) <= rows.Keys && v.extent == rows.Keys
  {
    assert ColumnExact(v.eq[f], rows, f, f in s.listFields);
    assert forall o :: o in Posting(v.eq[f], k) ==> Filed(rows, f, f in s.listFields, k, o);
  }

  ghost predicate AllLabelled(rows: Rows, labels: map<Oid, Labels>) {
    forall o :: o in rows ==> o in labels && Labelled(rows[o], labels[o])
  }

  /** The loop over memberships: exactly the admitted rows, and nothing outside the extent. */
  method ReadableBitmap(s: Schema, v: View, p: Principal, ghost rows: Rows, ghost labels: map<Oid, Labels>) returns (r: Option<set<Oid>>)
    requires Exact(s, v, rows) && ProtectedSchema(s) && rows.Keys <= labels.Keys && AllLabelled(rows, labels)
    ensures r.None? <==> IsRoot(p)
    ensures r.Some? ==> r.value <= v.extent && forall o :: o in rows ==> (o in r.value <==> Admits(p, labels[o]))
  {
    hide Exact, Labelled, Cleared, Posting, AllLabelled;
    if IsRoot(p) {
      return None;
    }
    ProtectedKeys(s, v, rows);
    var acc: set<Oid> := {};
    if p.uid != 0 {
      acc := acc + Posting(v.eq[OWNER], Num(p.uid));
      OnlyRows(s, v, rows, Num(p.uid), OWNER);
    }
    assert forall o :: o in rows ==> (o in acc <==> IsOwner(p, labels[o].owner)) by {
      forall o | o in rows
        ensures p.uid != 0 ==> (o in Posting(v.eq[OWNER], Num(p.uid)) <==> labels[o].owner == p.uid)
      {
        LabelOf(rows, labels, o);
        OwnerFiled(s, v, rows, o, labels[o], p.uid);
      }
    }
    var memberships := WithWorld(p);
    var todo := memberships.Keys;
    while todo != {}
      invariant todo <= memberships.Keys && acc <= v.extent
      invariant forall o :: o in rows ==> (o in acc <==> AdmittedButFor(p, labels[o], todo))
      decreases todo
    {
      Inhabited(todo);
      var g :| g in todo;
      OnlyRows(s, v, rows, Num(g), GROUPS);
      forall o | o in rows
        ensures o in Cleared(v, g, memberships[g]) <==> g in labels[o].groups && labels[o].readFloor <= memberships[g]
        ensures AdmittedButFor(p, labels[o], todo - {g})
                <==> AdmittedButFor(p, labels[o], todo) || (g in labels[o].groups && labels[o].readFloor <= memberships[g])
      {
        LabelOf(rows, labels, o);
        ClearedExact(s, v, rows, o, labels[o], g, memberships[g]);
        OneMoreGroup(p, labels[o], todo, g);
      }
      assert Cleared(v, g, memberships[g]) <= Posting(v.eq[GROUPS], Num(g)) by {
        ClearedInGroup(v, g, memberships[g]);
      }
      acc := acc + Cleared(v, g, memberships[g]);
      todo := todo - {g};
    }
    r := Some(acc);
  }

  lemma ClearedInGroup(v: View, g: int, lvl: int)
    requires GROUPS in v.eq && READ_FLOOR in v.eq && READ_FLOOR in v.runs
    ensures Cleared(v, g, lvl) <= Posting(v.eq[GROUPS], Num(g))
  {
  }

  lemma LabelOf(rows: Rows, labels: map<Oid, Labels>, o: Oid)
    requires AllLabelled(rows, labels) && o in rows
    ensures o in labels && Labelled(rows[o], labels[o])
  {
  }

  lemma ProtectedKeys(s: Schema, v: View, rows: Rows)
    requires Exact(s, v, rows) && ProtectedSchema(s)
    ensures OWNER in v.eq && GROUPS in v.eq && READ_FLOOR in v.eq && READ_FLOOR in v.runs
    ensures OWNER in s.eqFields && GROUPS in s.eqFields
  {
  }

  /** Ownership, or a group already visited that clears the floor. */
  ghost predicate AdmittedButFor(p: Principal, l: Labels, todo: set<int>) {
    IsOwner(p, l.owner) || exists g :: g in l.groups && g !in todo && AdmitsBy(p, l, g)
  }

  lemma OneMoreGroup(p: Principal, l: Labels, todo: set<int>, g: int)
    requires g in todo && todo <= WithWorld(p).Keys
    ensures AdmittedButFor(p, l, todo - {g})
            <==> AdmittedButFor(p, l, todo) || (g in l.groups && l.readFloor <= WithWorld(p)[g])
  {
    assert AdmitsBy(p, l, g) <==> l.readFloor <= WithWorld(p)[g];
  }
}
