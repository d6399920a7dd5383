/** Principals, labels and the predicates that decide who may read or write a protected record. */
module Permissions {

  const WORLD := 0
  const NO_STANDING := -1
  const VIEWER := 0
  const EXECUTIVE := 600

  datatype Principal = Principal(uid: int, memberships: map<int, int>)
  datatype Labels = Labels(owner: int, groups: seq<int>, readFloor: int, writeFloor: int)

  /** The level held in a group; everyone is at least a viewer of the world. */
  function Level(p: Principal, g: int): int {
    if g in p.memberships then p.memberships[g] else if g == WORLD then VIEWER else NO_STANDING
  }

  /** Uid 0 is anonymous and owns nothing. */
  predicate IsOwner(p: Principal, owner: int) {
    p.uid != 0 && owner == p.uid
  }

  function MaxOf(xs: seq<int>): (m: int)
    requires xs != []
    ensures m in xs && forall x :: x in xs ==> x <= m
  {
    if |xs| == 1 then xs[0]
    else
      assert xs == [xs[0]] + xs[1..];
      var m := MaxOf(xs[1..]);
      if xs[0] > m then xs[0] else m
  }

  predicate IsGreatest(m: int, xs: set<int>) {
    m in xs && forall x :: x in xs ==> x <= m
  }

  lemma Inhabited(xs: set<int>)
    requires xs != {}
    ensures exists x :: x in xs
  {
    if x: int :| x in xs {
    } else {
      forall x | x in xs
        ensures false
      {
      }
    }
  }

  lemma {:induction false} GreatestExists(xs: set<int>)
    requires xs != {}
    ensures exists m :: IsGreatest(m, xs)
  {
    Inhabited(xs);
    var x :| x in xs;
    if xs == {x} {
      assert IsGreatest(x, xs);
    } else {
      GreatestExists(xs - {x});
      var m :| IsGreatest(m, xs - {x});
      assert forall y :: y in xs ==> y == x || y in xs - {x};
      assert IsGreatest(if x > m then x else m, xs);
    }
  }

  /** A principal's best level anywhere. */
  function PersonalBest(p: Principal): int {
    var held := p.memberships.Values;
    if held == {} then VIEWER
    else
      GreatestExists(held);
      var m :| IsGreatest(m, held);
      m
  }

  function LevelsIn(p: Principal, groups: seq<int>): (ls: seq<int>)
    ensures |ls| == |groups| && forall i :: 0 <= i < |ls| ==> ls[i] == Level(p, groups[i])
  {
    seq(|groups|, i requires 0 <= i < |groups| => Level(p, groups[i]))
  }

  /** The highest level held in a group of the record; the owner of an unshared record acts at their best. */
  function AuthorityTowards(p: Principal, owner: int, groups: seq<int>): int {
    var levels := LevelsIn(p, groups) + if IsOwner(p, owner) && groups == [] then [PersonalBest(p)] else [];
    if levels == [] then NO_STANDING else MaxOf(levels)
  }

  predicate IsRoot(p: Principal) {
    p.uid != 0 && (if WORLD in p.memberships then p.memberships[WORLD] else VIEWER) >= EXECUTIVE
  }

  predicate CanReadRow(p: Principal, owner: int, groups: seq<int>, readFloor: int) {
    IsRoot(p) || IsOwner(p, owner) || AuthorityTowards(p, owner, groups) >= readFloor
  }

  /** Authority clears a floor exactly when some group's level does, or nothing needs clearing, or the
      owner's best does on an unshared record. */
  lemma AuthorityClears(p: Principal, owner: int, groups: seq<int>, floor: int)
    ensures AuthorityTowards(p, owner, groups) >= floor <==>
      if groups != [] then exists g :: g in groups && Level(p, g) >= floor
      else if IsOwner(p, owner) then PersonalBest(p) >= floor
      else NO_STANDING >= floor
  {
    hide PersonalBest, Level;
    if groups != [] {
      var levels := LevelsIn(p, groups);
      assert levels + [] == levels;
      var m := MaxOf(levels);
      var i :| 0 <= i < |levels| && levels[i] == m;
      assert groups[i] in groups;
      forall g | g in groups
        ensures Level(p, g) <= m
      {
        var j :| 0 <= j < |groups| && groups[j] == g;
        assert levels[j] in levels;
      }
    }
  }
}
