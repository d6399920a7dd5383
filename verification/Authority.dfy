/**
 The write gate over whole runs. Principals come from the committed actor registry or are the fixed
 ambient one; an actor's memberships are authority, so the gate caps every change to them by what the
 committer holds.
 */
module Authority {
  import opened Wire
  import opened Permissions

  datatype Actor = Actor(uid: int, human: bool, sponsor: Option<int>, memberships: map<int, int>)
  /** A protected record; registry rows also carry an actor. */
  datatype Record = Record(labels: Labels, actor: Option<Actor>)
  type Registry = map<Oid, Record>

  /** A staged write carries the labels its record was born with, unless those were lost to a retry. */
  datatype Write = Stage(oid: Oid, rec: Record, birth: Option<Labels>) | Remove(oid: Oid)
  datatype Op = ActAs(uid: int) | Leave | Commit(writes: seq<Write>, durable: bool)
  datatype Session = Session(reg: Registry, gone: set<Oid>, scopes: seq<Principal>, ambient: Principal)

  /** The innermost scope's principal, else the ambient one. */
  function Acting(x: Session): Principal {
    if x.scopes == [] then x.ambient else x.scopes[|x.scopes| - 1]
  }

  // --------------------------------------------------------------------- gate

  function Baseline(reg: Registry, oid: Oid, rec: Record, birth: Option<Labels>): Labels {
    if oid in reg then reg[oid].labels
    else if birth.Some? then birth.value
    else Labels(rec.labels.owner, [], VIEWER, VIEWER)
  }

  predicate MayRegister(p: Principal, rec: Record, base: Labels) {
    p.uid != 0 && rec.labels.owner == base.owner
  }

  /** The write floor binds everyone, and ownership is immutable after birth. */
  predicate MayRewrite(p: Principal, rec: Record, prior: Labels) {
    AuthorityTowards(p, prior.owner, prior.groups) >= prior.writeFloor && rec.labels.owner == prior.owner
  }

  /** Only into groups one stands in, and no changed floor above one's own authority. */
  predicate MayRelabel(p: Principal, staged: Labels, base: Labels) {
    var ceiling := AuthorityTowards(p, staged.owner, staged.groups);
    && (forall g :: g in staged.groups && g !in base.groups ==> Level(p, g) != NO_STANDING)
    && (staged.readFloor != base.readFloor ==> staged.readFloor <= ceiling)
    && (staged.writeFloor != base.writeFloor ==> staged.writeFloor <= ceiling)
  }

  /** Every changed membership is capped by the committer's own level in that group. */
  predicate MayGrant(p: Principal, granted: map<int, int>, prior: map<int, int>) {
    forall g :: g in granted && !(g in prior && prior[g] == granted[g]) ==> granted[g] <= Level(p, g)
  }

  function PriorMemberships(reg: Registry, oid: Oid): map<int, int> {
    if oid in reg && reg[oid].actor.Some? then reg[oid].actor.value.memberships else map[]
  }

  predicate MayStage(p: Principal, reg: Registry, oid: Oid, rec: Record, birth: Option<Labels>) {
    var base := Baseline(reg, oid, rec, birth);
    && (if oid in reg then MayRewrite(p, rec, base) else MayRegister(p, rec, base))
    && MayRelabel(p, rec.labels, base)
    && (rec.actor.Some? ==> MayGrant(p, rec.actor.value.memberships, PriorMemberships(reg, oid)))
  }

  predicate MayRemove(p: Principal, labels: Labels) {
    AuthorityTowards(p, labels.owner, labels.groups) >= labels.writeFloor
  }

  predicate MayWrite(p: Principal, reg: Registry, w: Write) {
    match w
    case Stage(oid, rec, birth) => MayStage(p, reg, oid, rec, birth)
    case Remove(oid) => oid in reg ==> MayRemove(p, reg[oid].labels)
  }

  /** The gate over a whole commit; root passes on the principal alone. */
  predicate Allowed(p: Principal, reg: Registry, writes: seq<Write>) {
    IsRoot(p) || forall i :: 0 <= i < |writes| ==> MayWrite(p, reg, writes[i])
  }

  /** The gate as it runs: record by record, stopping at the first refusal. */
  method CheckWriteGate(p: Principal, reg: Registry, writes: seq<Write>) returns (denied: Option<nat>)
    ensures denied.None? <==> Allowed(p, reg, writes)
    ensures denied.Some? ==> denied.value < |writes| && !MayWrite(p, reg, writes[denied.value])
    ensures denied.Some? ==> forall i :: 0 <= i < denied.value ==> MayWrite(p, reg, writes[i])
  {
    hide MayWrite;
    if IsRoot(p) {
      return None;
    }
    for i := 0 to |writes|
      invariant forall j :: 0 <= j < i ==> MayWrite(p, reg, writes[j])
    {
      if !MayWrite(p, reg, writes[i]) {
        return Some(i);
      }
    }
    denied := None;
  }

  // --------------------------------------------------------------------- steps

  function Applied(reg: Registry, writes: seq<Write>): Registry {
    if writes == [] then reg
    else
      var front := Applied(reg, writes[..|writes| - 1]);
      match writes[|writes| - 1]
      case Stage(oid, rec, _) => front[oid := rec]
      case Remove(oid) => front - {oid}
  }

  function OidOf(w: Write): Oid {
    match w
    case Stage(oid, _, _) => oid
    case Remove(oid) => oid
  }

  /** One write per record, and no OID of a deleted record is ever used again. */
  ghost predicate WellFormed(x: Session, writes: seq<Write>) {
    && (forall i, j :: 0 <= i < j < |writes| ==> OidOf(writes[i]) != OidOf(writes[j]))
    && (forall i :: 0 <= i < |writes| ==> OidOf(writes[i]) !in x.gone)
  }

  /** An actor row may be acted as if it is human or names a registered human sponsor. */
  ghost predicate Resolves(reg: Registry, uid: int, oid: Oid) {
    && oid in reg && reg[oid].actor.Some? && reg[oid].actor.value.uid == uid
    && (reg[oid].actor.value.human
        || (reg[oid].actor.value.sponsor.Some? && exists o :: IsHuman(reg, o, reg[oid].actor.value.sponsor.value)))
  }

  ghost predicate IsHuman(reg: Registry, oid: Oid, uid: int) {
    oid in reg && reg[oid].actor.Some? && reg[oid].actor.value.uid == uid && reg[oid].actor.value.human
  }

  function PrincipalOf(a: Actor): Principal {
    Principal(a.uid, a.memberships)
  }

  ghost predicate Step(x: Session, op: Op, y: Session) {
    match op
    case ActAs(uid) =>
      (exists oid :: Resolves(x.reg, uid, oid) && y == x.(scopes := x.scopes + [PrincipalOf(x.reg[oid].actor.value)])) || y == x
    case Leave =>
      if x.scopes == [] then y == x else y == x.(scopes := x.scopes[..|x.scopes| - 1])
    case Commit(writes, durable) =>
      WellFormed(x, writes) &&
      if durable && Allowed(Acting(x), x.reg, writes)
      then y == x.(reg := Applied(x.reg, writes), gone := x.gone + (x.reg.Keys - Applied(x.reg, writes).Keys))
      else y == x
  }

  ghost predicate Run(states: seq<Session>, ops: seq<Op>) {
    |states| == |ops| + 1 && forall i :: 0 <= i < |ops| ==> Step(states[i], ops[i], states[i + 1])
  }

  // ------------------------------------------------------------ the invariant

  /** What everyone holds in a group without a membership. */
  ghost function Default(g: int): int {
    if g == WORLD then VIEWER else NO_STANDING
  }

  ghost predicate Holds(memberships: map<int, int>, g: int, lvl: int) {
    g in memberships && memberships[g] >= lvl
  }

  /** Somebody held at least this level in the group at the start, or everybody does. */
  ghost predicate HeldAtStart(start: Session, g: int, lvl: int) {
    || lvl <= Default(g)
    || Holds(start.ambient.memberships, g, lvl)
    || (exists i :: 0 <= i < |start.scopes| && Holds(start.scopes[i].memberships, g, lvl))
    || (exists oid :: Registers(start.reg, oid, g, lvl))
  }

  ghost predicate Registers(reg: Registry, oid: Oid, g: int, lvl: int) {
    oid in reg && reg[oid].actor.Some? && Holds(reg[oid].actor.value.memberships, g, lvl)
  }

  ghost predicate Covered(start: Session, memberships: map<int, int>) {
    forall g :: g in memberships ==> HeldAtStart(start, g, memberships[g])
  }

  ghost predicate AllCovered(start: Session, x: Session) {
    && Covered(start, x.ambient.memberships)
    && (forall i :: 0 <= i < |x.scopes| ==> Covered(start, x.scopes[i].memberships))
    && RegistryCovered(start, x.reg)
  }

  ghost predicate RegistryCovered(start: Session, reg: Registry) {
    forall oid :: oid in reg && reg[oid].actor.Some? ==> Covered(start, reg[oid].actor.value.memberships)
  }

  lemma StartCovered(start: Session)
    ensures AllCovered(start, start)
  {
    forall oid | oid in start.reg && start.reg[oid].actor.Some?
      ensures Covered(start, start.reg[oid].actor.value.memberships)
    {
      forall g | g in start.reg[oid].actor.value.memberships
        ensures HeldAtStart(start, g, start.reg[oid].actor.value.memberships[g])
      {
        assert Registers(start.reg, oid, g, start.reg[oid].actor.value.memberships[g]);
      }
    }
    forall i | 0 <= i < |start.scopes|
      ensures Covered(start, start.scopes[i].memberships)
    {
      forall g | g in start.scopes[i].memberships
        ensures HeldAtStart(start, g, start.scopes[i].memberships[g])
      {
        assert Holds(start.scopes[i].memberships, g, start.scopes[i].memberships[g]);
      }
    }
  }

  lemma LowerIsHeld(start: Session, g: int, high: int, low: int)
    requires HeldAtStart(start, g, high) && low <= high
    ensures HeldAtStart(start, g, low)
  {
    if i :| 0 <= i < |start.scopes| && Holds(start.scopes[i].memberships, g, high) {
      assert Holds(start.scopes[i].memberships, g, low);
    }
    if oid :| Registers(start.reg, oid, g, high) {
      assert Registers(start.reg, oid, g, low);
    }
  }

  /** Whatever level a covered principal has, was held at the start. */
  lemma LevelIsHeld(start: Session, p: Principal, g: int)
    requires Covered(start, p.memberships)
    ensures HeldAtStart(start, g, Level(p, g))
  {
  }

  lemma GrantsAreHeld(start: Session, p: Principal, granted: map<int, int>, prior: map<int, int>)
    requires Covered(start, p.memberships) && Covered(start, prior) && MayGrant(p, granted, prior)
    ensures Covered(start, granted)
  {
    hide HeldAtStart;
    forall g | g in granted
      ensures HeldAtStart(start, g, granted[g])
    {
      if !(g in prior && prior[g] == granted[g]) {
        LevelIsHeld(start, p, g);
        LowerIsHeld(start, g, Level(p, g), granted[g]);
      }
    }
  }

  ghost predicate StagesCovered(start: Session, writes: seq<Write>) {
    forall i :: 0 <= i < |writes| && writes[i].Stage? && writes[i].rec.actor.Some? ==>
      Covered(start, writes[i].rec.actor.value.memberships)
  }

  lemma AllowedStagesCovered(start: Session, p: Principal, reg: Registry, writes: seq<Write>)
    requires Covered(start, p.memberships) && RegistryCovered(start, reg) && !IsRoot(p) && Allowed(p, reg, writes)
    ensures StagesCovered(start, writes)
  {
    hide Covered, MayRewrite, MayRegister, MayRelabel, MayGrant;
    forall i | 0 <= i < |writes| && writes[i].Stage? && writes[i].rec.actor.Some?
      ensures Covered(start, writes[i].rec.actor.value.memberships)
    {
      assert MayWrite(p, reg, writes[i]);
      NoMembershipsCovered(start);
      GrantsAreHeld(start, p, writes[i].rec.actor.value.memberships, PriorMemberships(reg, writes[i].oid));
    }
  }

  lemma NoMembershipsCovered(start: Session)
    ensures Covered(start, map[])
  {
  }

  lemma {:induction false} AppliedCovered(start: Session, reg: Registry, writes: seq<Write>)
    requires RegistryCovered(start, reg) && StagesCovered(start, writes)
    ensures RegistryCovered(start, Applied(reg, writes))
  {
    hide Covered;
    if writes != [] {
      var front := writes[..|writes| - 1];
      assert forall i :: 0 <= i < |front| ==> front[i] == writes[i];
      AppliedCovered(start, reg, front);
    }
  }

  /** No commit of the steps `m` up to `n` is root's. A registered root that commits nothing is no obstacle. */
  ghost predicate NoRootCommits(states: seq<Session>, ops: seq<Op>, m: nat, n: nat)
    requires m <= n <= |ops| < |states|
  {
    forall i :: m <= i < n && ops[i].Commit? ==> !IsRoot(Acting(states[i]))
  }

  lemma StepKeepsCovered(start: Session, x: Session, op: Op, y: Session)
    requires AllCovered(start, x) && Step(x, op, y) && (op.Commit? ==> !IsRoot(Acting(x)))
    ensures AllCovered(start, y)
  {
    hide Covered, Allowed, Applied;
    match op
    case ActAs(uid) =>
    case Leave =>
    case Commit(writes, durable) =>
      if y != x {
        assert Covered(start, Acting(x).memberships);
        AllowedStagesCovered(start, Acting(x), x.reg, writes);
        AppliedCovered(start, x.reg, writes);
      }
  }

  /** As long as root commits nothing, no level in any group exceeds what somebody held there at the start. */
  lemma {:induction false} AuthorityIsConserved(states: seq<Session>, ops: seq<Op>, n: nat)
    requires Run(states, ops) && n < |states| && NoRootCommits(states, ops, 0, n)
    ensures AllCovered(states[0], states[n])
  {
    hide AllCovered, Step;
    if n == 0 {
      StartCovered(states[0]);
    } else {
      AuthorityIsConserved(states, ops, n - 1);
      StepKeepsCovered(states[0], states[n - 1], ops[n - 1], states[n]);
    }
  }

  /** At the start nobody, registered or ambient, holds the world at the executive level. */
  ghost predicate NoExecutive(start: Session) {
    !HeldAtStart(start, WORLD, EXECUTIVE)
  }

  lemma CoveredIsNotRoot(start: Session, p: Principal)
    requires NoExecutive(start) && Covered(start, p.memberships)
    ensures !IsRoot(p)
  {
    if IsRoot(p) {
      LowerIsHeld(start, WORLD, p.memberships[WORLD], EXECUTIVE);
      assert false;
    }
  }

  /** Without an executive at the start, root commits nothing in the whole run. */
  lemma {:induction false} NoExecutiveNoRootCommits(states: seq<Session>, ops: seq<Op>, n: nat)
    requires Run(states, ops) && n < |states| && NoExecutive(states[0])
    ensures NoRootCommits(states, ops, 0, n)
  {
    hide NoExecutive, Covered, Run, IsRoot;
    if n > 0 {
      NoExecutiveNoRootCommits(states, ops, n - 1);
      AuthorityIsConserved(states, ops, n - 1);
      CoveredIsNotRoot(states[0], Acting(states[n - 1]));
    }
  }

  /** Nobody becomes root: every principal any commit of the run acts under is not. */
  lemma NobodyBecomesRoot(states: seq<Session>, ops: seq<Op>, n: nat)
    requires Run(states, ops) && n < |states| && NoExecutive(states[0])
    ensures !IsRoot(Acting(states[n]))
    ensures forall oid :: oid in states[n].reg && states[n].reg[oid].actor.Some? ==> !IsRoot(PrincipalOf(states[n].reg[oid].actor.value))
  {
    hide NoExecutive, Covered, Run;
    NoExecutiveNoRootCommits(states, ops, n);
    AuthorityIsConserved(states, ops, n);
    CoveredIsNotRoot(states[0], Acting(states[n]));
    forall oid | oid in states[n].reg && states[n].reg[oid].actor.Some?
      ensures !IsRoot(PrincipalOf(states[n].reg[oid].actor.value))
    {
      CoveredIsNotRoot(states[0], PrincipalOf(states[n].reg[oid].actor.value));
    }
  }

  // ------------------------------------------------------------------ records

  lemma {:induction false} AppliedLookup(x: Session, writes: seq<Write>, oid: Oid)
    requires forall i, j :: 0 <= i < j < |writes| ==> OidOf(writes[i]) != OidOf(writes[j])
    ensures (forall i :: 0 <= i < |writes| ==> OidOf(writes[i]) != oid) ==>
      (oid in Applied(x.reg, writes) <==> oid in x.reg) && (oid in x.reg ==> Applied(x.reg, writes)[oid] == x.reg[oid])
    ensures forall i :: 0 <= i < |writes| && OidOf(writes[i]) == oid ==>
      if writes[i].Stage? then oid in Applied(x.reg, writes) && Applied(x.reg, writes)[oid] == writes[i].rec
      else oid !in Applied(x.reg, writes)
  {
    if writes != [] {
      var front := writes[..|writes| - 1];
      assert forall i :: 0 <= i < |front| ==> front[i] == writes[i];
      AppliedLookup(x, front, oid);
      forall i | 0 <= i < |writes| && OidOf(writes[i]) == oid
        ensures if writes[i].Stage? then oid in Applied(x.reg, writes) && Applied(x.reg, writes)[oid] == writes[i].rec
                else oid !in Applied(x.reg, writes)
      {
        if i < |front| {
          assert OidOf(front[i]) == oid && OidOf(writes[|writes| - 1]) != oid;
        }
      }
    }
  }

  /** What a step may do to a persisted record when its committer is not root. */
  lemma RecordStep(x: Session, op: Op, y: Session, oid: Oid)
    requires Step(x, op, y) && (op.Commit? ==> !IsRoot(Acting(x))) && oid in x.reg
    ensures oid in y.reg ==> y.reg[oid].labels.owner == x.reg[oid].labels.owner
    ensures (oid in y.reg && y.reg[oid] == x.reg[oid]) || MayRemove(Acting(x), x.reg[oid].labels)
    ensures oid !in y.reg ==> oid in y.gone
  {
    hide AuthorityTowards, MayRelabel, MayGrant, Resolves, Applied;
    if op.Commit? && y != x {
      AppliedLookup(x, op.writes, oid);
      if i :| 0 <= i < |op.writes| && OidOf(op.writes[i]) == oid {
        assert MayWrite(Acting(x), x.reg, op.writes[i]);
      }
    }
  }

  lemma GoneStep(x: Session, op: Op, y: Session, oid: Oid)
    requires Step(x, op, y) && oid in x.gone && oid !in x.reg
    ensures oid in y.gone && oid !in y.reg
  {
    hide Allowed, Resolves, Applied;
    if op.Commit? && y != x {
      AppliedLookup(x, op.writes, oid);
    }
  }

  /** From `m` on, while root commits nothing, the record is there with its owner, or gone for good. */
  lemma {:induction false} OwnersNeverChange(states: seq<Session>, ops: seq<Op>, m: nat, n: nat, oid: Oid)
    requires Run(states, ops) && m <= n < |states| && NoRootCommits(states, ops, m, n) && oid in states[m].reg
    ensures if oid in states[n].reg then states[n].reg[oid].labels.owner == states[m].reg[oid].labels.owner
            else oid in states[n].gone
    decreases n - m
  {
    hide Step, IsRoot;
    if m < n {
      OwnersNeverChange(states, ops, m, n - 1, oid);
      if oid in states[n - 1].reg {
        RecordStep(states[n - 1], ops[n - 1], states[n], oid);
      } else {
        GoneStep(states[n - 1], ops[n - 1], states[n], oid);
      }
    }
  }

  /** Nobody stood high enough in any of the record's groups at the start. */
  ghost predicate OutOfReach(start: Session, l: Labels) {
    l.groups != [] && forall g :: g in l.groups ==> !HeldAtStart(start, g, l.writeFloor)
  }

  lemma UnreachableFloor(start: Session, p: Principal, l: Labels)
    requires Covered(start, p.memberships) && OutOfReach(start, l)
    ensures !MayRemove(p, l)
  {
    hide AuthorityTowards, HeldAtStart;
    AuthorityClears(p, l.owner, l.groups, l.writeFloor);
    if g :| g in l.groups && Level(p, g) >= l.writeFloor {
      LevelIsHeld(start, p, g);
      LowerIsHeld(start, g, Level(p, g), l.writeFloor);
      assert false;
    }
  }

  /** The curation guarantee: a shared record whose write floor nobody could clear at the start is never
      rewritten, relabelled or deleted while root commits nothing, whatever anyone registers or is granted. */
  lemma {:induction false} CuratedRecordsStay(states: seq<Session>, ops: seq<Op>, n: nat, oid: Oid)
    requires Run(states, ops) && n < |states| && NoRootCommits(states, ops, 0, n)
    requires oid in states[0].reg && OutOfReach(states[0], states[0].reg[oid].labels)
    ensures oid in states[n].reg && states[n].reg[oid] == states[0].reg[oid]
  {
    hide Step, IsRoot, OutOfReach, Covered;
    if n > 0 {
      CuratedRecordsStay(states, ops, n - 1, oid);
      AuthorityIsConserved(states, ops, n - 1);
      UnreachableFloor(states[0], Acting(states[n - 1]), states[0].reg[oid].labels);
      RecordStep(states[n - 1], ops[n - 1], states[n], oid);
    }
  }

  // ----------------------------------------------------------- labels and birth

  /** A level that clears the floor was held by somebody at the start, in one of these groups if any. */
  ghost predicate FloorWasHeld(start: Session, groups: seq<int>, floor: int) {
    exists g :: (groups != [] ==> g in groups) && HeldAtStart(start, g, floor)
  }

  lemma CeilingWasHeld(start: Session, p: Principal, owner: int, groups: seq<int>, floor: int)
    requires Covered(start, p.memberships) && floor <= AuthorityTowards(p, owner, groups)
    ensures FloorWasHeld(start, groups, floor)
  {
    AuthorityClears(p, owner, groups, floor);
    hide HeldAtStart, AuthorityTowards;
    if groups != [] {
      var g :| g in groups && Level(p, g) >= floor;
      LevelIsHeld(start, p, g);
      LowerIsHeld(start, g, Level(p, g), floor);
    } else if IsOwner(p, owner) {
      BestIsLevel(p);
      var g :| Level(p, g) == PersonalBest(p);
      LevelIsHeld(start, p, g);
      LowerIsHeld(start, g, Level(p, g), floor);
    } else {
      DefaultIsHeld(start, WORLD, floor);
    }
  }

  lemma HeldSomewhere(memberships: map<int, int>, lvl: int)
    requires lvl in memberships.Values
    ensures exists g :: g in memberships && memberships[g] == lvl
  {
    if g: int :| g in memberships && memberships[g] == lvl {
    } else {
      forall g | g in memberships
        ensures memberships[g] != lvl
      {
      }
    }
  }

  lemma ValuesOfKeys(memberships: map<int, int>, g: int)
    ensures g in memberships ==> memberships[g] in memberships.Values
  {
  }

  lemma BestIsLevel(p: Principal)
    ensures exists g :: Level(p, g) == PersonalBest(p)
  {
    if p.memberships.Values != {} {
      HeldSomewhere(p.memberships, PersonalBest(p));
      var g :| g in p.memberships && p.memberships[g] == PersonalBest(p);
      assert Level(p, g) == PersonalBest(p);
    } else {
      assert WORLD !in p.memberships.Keys by {
        ValuesOfKeys(p.memberships, WORLD);
      }
      assert Level(p, WORLD) == PersonalBest(p);
    }
  }

  lemma DefaultIsHeld(start: Session, g: int, floor: int)
    requires floor <= Default(g)
    ensures HeldAtStart(start, g, floor)
  {
  }

  /** What one commit of a run may do to the labels of a persisted record: share it only where the
      committer stands, and change a floor only to one that somebody at the start could have cleared. */
  lemma RelabelsAreCapped(states: seq<Session>, ops: seq<Op>, n: nat, oid: Oid)
    requires Run(states, ops) && n < |ops| && NoRootCommits(states, ops, 0, n + 1)
    requires oid in states[n].reg && oid in states[n + 1].reg
    ensures var l, k := states[n].reg[oid].labels, states[n + 1].reg[oid].labels;
      && (forall g :: g in k.groups && g !in l.groups ==> Level(Acting(states[n]), g) != NO_STANDING)
      && (k.readFloor != l.readFloor ==> FloorWasHeld(states[0], k.groups, k.readFloor))
      && (k.writeFloor != l.writeFloor ==> FloorWasHeld(states[0], k.groups, k.writeFloor))
  {
    hide IsRoot, Covered, AuthorityTowards, FloorWasHeld, Step;
    AuthorityIsConserved(states, ops, n);
    var p, k := Acting(states[n]), states[n + 1].reg[oid].labels;
    RelabelStep(states[n], ops[n], states[n + 1], oid);
    assert Covered(states[0], p.memberships);
    if k.readFloor <= AuthorityTowards(p, k.owner, k.groups) {
      CeilingWasHeld(states[0], p, k.owner, k.groups, k.readFloor);
    }
    if k.writeFloor <= AuthorityTowards(p, k.owner, k.groups) {
      CeilingWasHeld(states[0], p, k.owner, k.groups, k.writeFloor);
    }
  }

  lemma RelabelStep(x: Session, op: Op, y: Session, oid: Oid)
    requires Step(x, op, y) && (op.Commit? ==> !IsRoot(Acting(x))) && oid in x.reg && oid in y.reg
    ensures y.reg[oid] == x.reg[oid] || MayRelabel(Acting(x), y.reg[oid].labels, x.reg[oid].labels)
  {
    hide AuthorityTowards, MayGrant, MayRewrite, Resolves, Applied;
    if op.Commit? && y != x {
      AppliedLookup(x, op.writes, oid);
      if i :| 0 <= i < |op.writes| && OidOf(op.writes[i]) == oid {
        assert MayWrite(Acting(x), x.reg, op.writes[i]);
      }
    }
  }

  /** Nobody anonymous creates a protected record, and a birth owner is not assigned by hand. */
  lemma BirthsAreOwned(states: seq<Session>, ops: seq<Op>, n: nat, oid: Oid)
    requires Run(states, ops) && n < |ops| && NoRootCommits(states, ops, n, n + 1)
    requires oid !in states[n].reg && oid in states[n + 1].reg
    ensures Acting(states[n]).uid != 0 && ops[n].Commit?
    ensures exists i :: 0 <= i < |ops[n].writes| && IsBirth(ops[n].writes[i], oid, states[n + 1].reg[oid])
  {
    BirthStep(states[n], ops[n], states[n + 1], oid);
  }

  /** The write that stores the record, with the owner it was born with. */
  ghost predicate IsBirth(w: Write, oid: Oid, rec: Record) {
    w.Stage? && w.oid == oid && w.rec == rec && (w.birth.Some? ==> rec.labels.owner == w.birth.value.owner)
  }

  lemma BirthStep(x: Session, op: Op, y: Session, oid: Oid)
    requires Step(x, op, y) && (op.Commit? ==> !IsRoot(Acting(x))) && oid !in x.reg && oid in y.reg
    ensures Acting(x).uid != 0 && op.Commit?
    ensures exists i :: 0 <= i < |op.writes| && IsBirth(op.writes[i], oid, y.reg[oid])
  {
    hide AuthorityTowards, MayGrant, MayRelabel, MayRewrite, Resolves, Applied;
    if op.Commit? {
      AppliedLookup(x, op.writes, oid);
      var i :| 0 <= i < |op.writes| && OidOf(op.writes[i]) == oid;
      assert MayWrite(Acting(x), x.reg, op.writes[i]);
      assert IsBirth(op.writes[i], oid, y.reg[oid]);
    }
  }
}
