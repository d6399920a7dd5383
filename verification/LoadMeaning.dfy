/**
 When a load succeeds, told from the records alone: which objects belong to it, and what each of them needs.
 */
module LoadMeaning {
  import opened Wire
  import opened Values
  import opened GraphLoad
  import opened References

  ghost predicate IsStored(db: Db, o: Oid) {
    o in db.records && db.records[o].cid in db.classes
  }

  /** The value that field `i` of the record is made from: the one at its place, or what the class derives
      from the record for a field the record's shape does not have. */
  ghost predicate Sourced(db: Db, o: Oid, i: nat, raw: Stored)
    requires IsStored(db, o) && i < |db.classes[db.records[o].cid].plan|
  {
    var step, values := db.classes[db.records[o].cid].plan[i], db.records[o].values;
    match step.index
    case Some(k) => k < |values| && values[k] == raw
    case None => step.fallback != Missing && step.fallback.f(values) == Some(raw)
  }

  ghost predicate HasValue(db: Db, o: Oid, i: nat)
    requires IsStored(db, o) && i < |db.classes[db.records[o].cid].plan|
  {
    exists raw :: Sourced(db, o, i, raw)
  }

  ghost predicate WellShaped(db: Db, o: Oid) {
    && IsStored(db, o) && |db.records[o].values| == db.classes[db.records[o].cid].arity
    && forall i :: 0 <= i < |db.classes[db.records[o].cid].plan| ==> HasSource(db.classes[db.records[o].cid].plan[i])
  }

  ghost predicate HasSource(step: GraphLoad.Step) {
    step.index != None || step.fallback != Missing
  }

  /** Somewhere in a field whose references are not lazy, the record names `t`. */
  ghost predicate NamesEagerly(db: Db, o: Oid, t: Oid) {
    && WellShaped(db, o)
    && exists i: nat, raw :: i < |db.classes[db.records[o].cid].plan| && Sourced(db, o, i, raw)
         && !db.classes[db.records[o].cid].plan[i].lazyRefs && PartOfStored(Ref(t), raw)
  }

  /** The load goes from the one record to the other: it is named eagerly, not in memory, and not guarded. */
  ghost predicate Leads(db: Db, start: set<Oid>, o: Oid, t: Oid) {
    NamesEagerly(db, o, t) && t !in start && IsStored(db, t) && !db.classes[db.records[t].cid].guarded
  }

  /** As wide as its type row, a source for every field that gives a value, and no eager reference to nothing. */
  ghost predicate Loadable(db: Db, start: set<Oid>, o: Oid) {
    && WellShaped(db, o)
    && (forall i: nat :: i < |db.classes[db.records[o].cid].plan| ==> HasValue(db, o, i))
    && (forall t :: NamesEagerly(db, o, t) ==> t in start || IsStored(db, t))
  }

  lemma SourceMeans(db: Db, o: Oid, i: nat)
    requires IsStored(db, o) && i < |db.classes[db.records[o].cid].plan|
    ensures Known(db, o) && ClassOf(db, o) == db.classes[db.records[o].cid]
    ensures Derivable(db, o, i) <==> HasValue(db, o, i)
    ensures forall raw :: Sourced(db, o, i, raw) <==> Derivable(db, o, i) && Raw(db, o, i) == raw
  {
    if Derivable(db, o, i) {
      assert Sourced(db, o, i, Raw(db, o, i));
    }
  }

  lemma ShapeMeans(db: Db, o: Oid)
    ensures Known(db, o) <==> IsStored(db, o)
    ensures Known(db, o) ==> (Shapely(db, o) <==> WellShaped(db, o))
  {
  }

  lemma EagerMeans(db: Db, o: Oid, t: Oid)
    ensures RefersEagerly(db, o, t) <==> NamesEagerly(db, o, t)
  {
    ShapeMeans(db, o);
    hide Shapely, WellShaped, Known, Raw, Derivable, Sourced, IsStored, PartOfStored, StoredRefs, ClassOf;
    if WellShaped(db, o) {
      WellShapedIsStored(db, o);
      forall i: nat | i < |db.classes[db.records[o].cid].plan|
        ensures EagerAt(db, o, i, t)
          <==> exists raw :: Sourced(db, o, i, raw) && !db.classes[db.records[o].cid].plan[i].lazyRefs && PartOfStored(Ref(t), raw)
      {
        SourceMeans(db, o, i);
        if Derivable(db, o, i) {
          StoredReferences(Raw(db, o, i), t);
          assert Sourced(db, o, i, Raw(db, o, i));
        }
      }
    }
  }

  lemma WellShapedIsStored(db: Db, o: Oid)
    ensures WellShaped(db, o) ==> IsStored(db, o) && Known(db, o)
    ensures IsStored(db, o) ==> o in db.records && db.records[o].cid in db.classes && Known(db, o) && ClassOf(db, o) == db.classes[db.records[o].cid]
  {
  }

  lemma LeadsMeans(db: Db, start: set<Oid>, o: Oid, t: Oid)
    ensures Follows(db, start, o, t) <==> Leads(db, start, o, t)
  {
    EagerMeans(db, o, t);
    ShapeMeans(db, t);
    hide RefersEagerly, NamesEagerly, Shapely, WellShaped;
  }

  lemma LoadableMeans(db: Db, start: set<Oid>, o: Oid)
    requires IsStored(db, o)
    ensures Unfillable(db, start, o) <==> !Loadable(db, start, o)
  {
    ShapeMeans(db, o);
    WellShapedIsStored(db, o);
    forall t
      ensures RefersEagerly(db, o, t) <==> NamesEagerly(db, o, t)
      ensures Known(db, t) <==> IsStored(db, t)
    {
      EagerMeans(db, o, t);
      ShapeMeans(db, t);
    }
    forall i: nat | i < |db.classes[db.records[o].cid].plan|
      ensures Derivable(db, o, i) <==> HasValue(db, o, i)
    {
      SourceMeans(db, o, i);
    }
    hide RefersEagerly, NamesEagerly, Shapely, WellShaped, Derivable, HasValue, Known, IsStored, ClassOf;
  }

  /** The objects of a load are the least set with its root that every lead stays inside. */
  lemma ClosureIsLeast(db: Db, start: set<Oid>, root: Oid, all: iset<Oid>)
    requires root in all && forall a, b :: a in all && Leads(db, start, a, b) ==> b in all
    ensures Reachable(db, start, root, root)
    ensures forall o :: Reachable(db, start, root, o) ==> o in all
    ensures forall a, b :: Reachable(db, start, root, a) && Leads(db, start, a, b) ==> Reachable(db, start, root, b)
  {
    hide Leads, Follows, IsPath;
    ReachRoot(db, start, root);
    forall o | Reachable(db, start, root, o)
      ensures o in all
    {
      var p :| IsPath(db, start, root, o, p);
      StaysInside(db, start, root, all, p, o);
    }
    forall a, b | Reachable(db, start, root, a) && Leads(db, start, a, b)
      ensures Reachable(db, start, root, b)
    {
      LeadsMeans(db, start, a, b);
      ReachNext(db, start, root, a, b);
    }
  }

  lemma {:induction false} StaysInside(db: Db, start: set<Oid>, root: Oid, all: iset<Oid>, p: seq<Oid>, o: Oid)
    requires root in all && forall a, b :: a in all && Leads(db, start, a, b) ==> b in all
    requires IsPath(db, start, root, o, p)
    ensures o in all
    decreases |p|
  {
    hide Leads, Follows;
    if |p| > 1 {
      var front := p[..|p| - 1];
      assert IsPath(db, start, root, front[|front| - 1], front) by {
        assert forall i :: 0 < i < |front| ==> (Hop(db, start, p, i) ==> Hop(db, start, front, i));
      }
      StaysInside(db, start, root, all, front, front[|front| - 1]);
      assert Hop(db, start, p, |p| - 1);
      LeadsMeans(db, start, p[|p| - 2], o);
    }
  }

  /** A load of an object that is not in memory fails exactly when it is not stored, or some object of its
      closure is not loadable. */
  lemma LoadFailsIff(db: Db, start: set<Oid>, root: Oid)
    ensures Fails(db, start, root)
      <==> !IsStored(db, root) || exists o :: Reachable(db, start, root, o) && IsStored(db, o) && !Loadable(db, start, o)
  {
    hide Reachable, Unfillable, Loadable, Known, IsStored;
    ShapeMeans(db, root);
    forall o | Reachable(db, start, root, o)
      ensures Unfillable(db, start, o) <==> IsStored(db, o) && !Loadable(db, start, o)
    {
      ShapeMeans(db, o);
      if IsStored(db, o) {
        LoadableMeans(db, start, o);
      } else {
        UnstoredIsLeft(db, start, o);
      }
    }
  }

  lemma UnstoredIsLeft(db: Db, start: set<Oid>, o: Oid)
    requires !IsStored(db, o)
    ensures !Unfillable(db, start, o)
  {
  }

  ghost predicate FilledWith(db: Db, values: seq<Hydrated>, o: Oid, reg: Registry, i: nat)
    requires IsStored(db, o) && i < |values| && i < |db.classes[db.records[o].cid].plan|
  {
    exists raw :: Sourced(db, o, i, raw) && Resolved(db, values[i], raw, db.classes[db.records[o].cid].plan[i].lazyRefs, reg)
  }

  /** A loaded object has every field of its class, each hydrated from its own source. */
  lemma CompleteMeans(db: Db, values: seq<Hydrated>, o: Oid, reg: Registry)
    ensures Complete(db, values, o, reg)
      <==> WellShaped(db, o) && |values| == |db.classes[db.records[o].cid].plan|
           && forall i: nat :: i < |values| ==> FilledWith(db, values, o, reg, i)
  {
    ShapeMeans(db, o);
    WellShapedIsStored(db, o);
    hide Shapely, WellShaped, Known, IsStored, ClassOf, Raw, Derivable, Sourced, Resolved;
    if WellShaped(db, o) && |values| == |db.classes[db.records[o].cid].plan| {
      forall i: nat | i < |values|
        ensures FieldFrom(db, values, o, reg, i) <==> FilledWith(db, values, o, reg, i)
      {
        SourceMeans(db, o, i);
        if Derivable(db, o, i) {
          assert Sourced(db, o, i, Raw(db, o, i));
        }
      }
    }
  }
}
