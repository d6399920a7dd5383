/**
 What the write gate lets through, said in terms of the memberships a principal holds: exactly which rewrites,
 births and deletions of protected records pass, and that a durable commit that passes leaves what it staged.
 */
module WriteGate {
  import opened Wire
  import opened Permissions
  import opened Authority

  /** The level held in a group is at least this one; a viewer of the world is everybody. */
  ghost predicate Reaches(p: Principal, g: int, lvl: int) {
    if g in p.memberships then p.memberships[g] >= lvl else lvl <= if g == 0 then 0 else -1
  }

  ghost predicate StandsIn(p: Principal, g: int) {
    if g in p.memberships then p.memberships[g] != -1 else g == 0
  }

  ghost predicate BestReaches(p: Principal, lvl: int) {
    if p.memberships == map[] then lvl <= 0 else exists g :: g in p.memberships && p.memberships[g] >= lvl
  }

  /** A floor of a record is cleared through one of its groups or, on an unshared record, by its owner's best
      anywhere; on an unshared record of somebody else only a floor below the ladder is. */
  ghost predicate Clears(p: Principal, owner: int, groups: seq<int>, floor: int) {
    if groups != [] then exists i :: 0 <= i < |groups| && Reaches(p, groups[i], floor)
    else if p.uid != 0 && p.uid == owner then BestReaches(p, floor)
    else floor <= -1
  }

  /** Root: a named principal at the executive level of the world. */
  ghost predicate HoldsTheWorld(p: Principal) {
    p.uid != 0 && 0 in p.memberships && p.memberships[0] >= 600
  }

  ghost predicate RelabelPasses(p: Principal, staged: Labels, groups: seq<int>, readFloor: int, writeFloor: int) {
    && (forall i :: 0 <= i < |staged.groups| && staged.groups[i] !in groups ==> StandsIn(p, staged.groups[i]))
    && (staged.readFloor == readFloor || Clears(p, staged.owner, staged.groups, staged.readFloor))
    && (staged.writeFloor == writeFloor || Clears(p, staged.owner, staged.groups, staged.writeFloor))
  }

  /** Every level an actor row grants was there before, or is at most the committer's own. */
  ghost predicate GrantsPass(p: Principal, actor: Option<Actor>, prior: Option<Actor>) {
    actor.Some? ==> forall g :: g in actor.value.memberships ==>
      || (prior.Some? && g in prior.value.memberships && prior.value.memberships[g] == actor.value.memberships[g])
      || Reaches(p, g, actor.value.memberships[g])
  }

  /** The owner is kept and the write floor as persisted is cleared. */
  ghost predicate RewritePasses(p: Principal, rec: Record, prior: Record) {
    && Clears(p, prior.labels.owner, prior.labels.groups, prior.labels.writeFloor)
    && rec.labels.owner == prior.labels.owner
    && RelabelPasses(p, rec.labels, prior.labels.groups, prior.labels.readFloor, prior.labels.writeFloor)
    && GrantsPass(p, rec.actor, prior.actor)
  }

  /** A named principal stores it for the owner it was born with; what it staged beyond its birth labels, or
      beyond an open unshared record when those were lost, is a relabelling. */
  ghost predicate BirthPasses(p: Principal, rec: Record, birth: Option<Labels>) {
    && p.uid != 0
    && (birth.Some? ==> rec.labels.owner == birth.value.owner)
    && (if birth.Some? then RelabelPasses(p, rec.labels, birth.value.groups, birth.value.readFloor, birth.value.writeFloor)
        else RelabelPasses(p, rec.labels, [], 0, 0))
    && GrantsPass(p, rec.actor, None)
  }

  ghost predicate Passes(p: Principal, reg: Registry, w: Write) {
    match w
    case Stage(oid, rec, birth) => if oid in reg then RewritePasses(p, rec, reg[oid]) else BirthPasses(p, rec, birth)
    case Remove(oid) => oid in reg ==> Clears(p, reg[oid].labels.owner, reg[oid].labels.groups, reg[oid].labels.writeFloor)
  }

  // ------------------------------------------------------- what the gate decides

  lemma ReachesIff(p: Principal, g: int, lvl: int)
    ensures Reaches(p, g, lvl) <==> Level(p, g) >= lvl
    ensures StandsIn(p, g) <==> Level(p, g) != NO_STANDING
  {
  }

  lemma NoKeysNoMap(m: map<int, int>)
    ensures m.Keys == {} ==> m == map[]
  {
  }

  lemma BestReachesIff(p: Principal, lvl: int)
    ensures BestReaches(p, lvl) <==> PersonalBest(p) >= lvl
  {
    var held := p.memberships.Values;
    if p.memberships != map[] {
      NoKeysNoMap(p.memberships);
      Inhabited(p.memberships.Keys);
      var k :| k in p.memberships.Keys;
      ValuesOfKeys(p.memberships, k);
      HeldSomewhere(p.memberships, PersonalBest(p));
      forall g | g in p.memberships
        ensures p.memberships[g] <= PersonalBest(p)
      {
        ValuesOfKeys(p.memberships, g);
      }
    }
  }

  lemma ClearsIff(p: Principal, owner: int, groups: seq<int>, floor: int)
    ensures Clears(p, owner, groups, floor) <==> AuthorityTowards(p, owner, groups) >= floor
  {
    AuthorityClears(p, owner, groups, floor);
    BestReachesIff(p, floor);
    hide AuthorityTowards, BestReaches, PersonalBest, Reaches, Level;
    if groups != [] {
      forall i | 0 <= i < |groups|
        ensures Reaches(p, groups[i], floor) <==> Level(p, groups[i]) >= floor
      {
        ReachesIff(p, groups[i], floor);
      }
      if g :| g in groups && Level(p, g) >= floor {
        var i :| 0 <= i < |groups| && groups[i] == g;
        assert Reaches(p, groups[i], floor);
      }
    }
  }

  lemma RootIff(p: Principal)
    ensures HoldsTheWorld(p) <==> IsRoot(p)
  {
  }

  lemma RelabelIff(p: Principal, staged: Labels, base: Labels)
    ensures RelabelPasses(p, staged, base.groups, base.readFloor, base.writeFloor) <==> MayRelabel(p, staged, base)
  {
    ClearsIff(p, staged.owner, staged.groups, staged.readFloor);
    ClearsIff(p, staged.owner, staged.groups, staged.writeFloor);
    hide Clears, AuthorityTowards, StandsIn, Level;
    forall g
      ensures StandsIn(p, g) <==> Level(p, g) != NO_STANDING
    {
      ReachesIff(p, g, 0);
    }
    assert forall i :: 0 <= i < |staged.groups| ==> staged.groups[i] in staged.groups;
  }

  lemma GrantsIff(p: Principal, granted: map<int, int>, prior: Option<Actor>)
    ensures var before := if prior.Some? then prior.value.memberships else map[];
      MayGrant(p, granted, before) <==>
        forall g :: g in granted ==>
          (prior.Some? && g in prior.value.memberships && prior.value.memberships[g] == granted[g]) || Reaches(p, g, granted[g])
  {
    hide Reaches, Level;
    forall g | g in granted
      ensures Reaches(p, g, granted[g]) <==> granted[g] <= Level(p, g)
    {
      ReachesIff(p, g, granted[g]);
    }
  }

  /** The verdict on one write. */
  lemma PassesIff(p: Principal, reg: Registry, w: Write)
    ensures Passes(p, reg, w) <==> MayWrite(p, reg, w)
  {
    hide Clears, AuthorityTowards, RelabelPasses, MayRelabel, MayGrant, Reaches;
    match w
    case Stage(oid, rec, birth) =>
      RelabelIff(p, rec.labels, Baseline(reg, oid, rec, birth));
      var prior := if oid in reg then reg[oid].actor else None;
      if rec.actor.Some? {
        GrantsIff(p, rec.actor.value.memberships, prior);
      }
      if oid in reg {
        ClearsIff(p, reg[oid].labels.owner, reg[oid].labels.groups, reg[oid].labels.writeFloor);
      }
    case Remove(oid) =>
      if oid in reg {
        ClearsIff(p, reg[oid].labels.owner, reg[oid].labels.groups, reg[oid].labels.writeFloor);
      }
  }

  /** The gate passes exactly root's commits and those all of whose writes pass. */
  lemma GateIff(p: Principal, reg: Registry, writes: seq<Write>)
    ensures Allowed(p, reg, writes) <==> HoldsTheWorld(p) || forall i :: 0 <= i < |writes| ==> Passes(p, reg, writes[i])
  {
    RootIff(p);
    hide Passes, MayWrite, IsRoot, HoldsTheWorld;
    forall i | 0 <= i < |writes|
      ensures Passes(p, reg, writes[i]) <==> MayWrite(p, reg, writes[i])
    {
      PassesIff(p, reg, writes[i]);
    }
  }

  /** In every run a durable commit whose writes pass does what it says: staged records are there as staged,
      removed ones are gone for good, and no other record is touched. One that does not pass does nothing. */
  lemma CommitDoesWhatPasses(states: seq<Session>, ops: seq<Authority.Op>, n: nat, oid: Oid)
    requires Run(states, ops) && n < |ops| && ops[n].Commit? && ops[n].durable
    ensures var x, y, writes := states[n], states[n + 1], ops[n].writes;
      if HoldsTheWorld(Acting(x)) || forall i :: 0 <= i < |writes| ==> Passes(Acting(x), x.reg, writes[i])
      then
        && (forall i :: 0 <= i < |writes| && OidOf(writes[i]) == oid ==>
              if writes[i].Stage? then oid in y.reg && y.reg[oid] == writes[i].rec
              else oid !in y.reg && (oid in x.reg ==> oid in y.gone))
        && ((forall i :: 0 <= i < |writes| ==> OidOf(writes[i]) != oid) ==>
              (oid in y.reg <==> oid in x.reg) && (oid in x.reg ==> y.reg[oid] == x.reg[oid]))
        && y.scopes == x.scopes && y.ambient == x.ambient
      else y == x
  {
    var x, y := states[n], states[n + 1];
    assert Step(x, ops[n], y);
    GateIff(Acting(x), x.reg, ops[n].writes);
    AppliedLookup(x, ops[n].writes, oid);
    hide Allowed, Passes, HoldsTheWorld, Applied, Run;
  }

  /** A registered actor answers for itself when human, or has a registered human who does. */
  ghost predicate Answers(reg: Registry, a: Actor) {
    a.human || (a.sponsor.Some? && exists o :: o in reg && reg[o].actor.Some? && IsSponsor(a, reg[o].actor.value))
  }

  ghost predicate IsSponsor(a: Actor, s: Actor) {
    s.human && a.sponsor == Some(s.uid)
  }

  /** A scope that is entered acts as a registered actor of that uid that answers, with the memberships of its
      row, and leaving it acts as before. */
  lemma ScopesNest(x: Session, uid: int, y: Session, z: Session)
    requires Step(x, ActAs(uid), y) && y != x && Step(y, Leave, z)
    ensures exists oid ::
      (oid in x.reg && x.reg[oid].actor.Some? && Answers(x.reg, x.reg[oid].actor.value)
       && x.reg[oid].actor.value.uid == uid && Acting(y) == Principal(uid, x.reg[oid].actor.value.memberships))
    ensures z == x && Acting(z) == Acting(x)
  {
    var oid :| Resolves(x.reg, uid, oid) && y == x.(scopes := x.scopes + [PrincipalOf(x.reg[oid].actor.value)]);
    assert (x.scopes + [PrincipalOf(x.reg[oid].actor.value)])[..|x.scopes|] == x.scopes;
    var a := x.reg[oid].actor.value;
    if !a.human {
      var o :| IsHuman(x.reg, o, a.sponsor.value);
      assert IsSponsor(a, x.reg[o].actor.value);
    }
    assert Answers(x.reg, a) && Acting(y) == Principal(uid, a.memberships);
  }
}
