/**
 What the harvests find, told from the parts of a value: every reference of every part, at any depth, and
 nothing else.
 */
module References {
  import opened Wire
  import opened Values

  /** `p` is `v` or occurs somewhere inside it. */
  ghost predicate PartOf(p: Live, v: Live)
    decreases v
  {
    p == v || match v
      case Items(items) => exists i :: 0 <= i < |items| && PartOf(p, items[i])
      case Mapping(_, vals) => exists i :: 0 <= i < |vals| && PartOf(p, vals[i])
      case _ => false
  }

  ghost predicate PartOfStored(p: Stored, t: Stored)
    decreases t
  {
    p == t || match t
      case Array(items) => exists i :: 0 <= i < |items| && PartOfStored(p, items[i])
      case Dict(_, vals) => exists i :: 0 <= i < |vals| && PartOfStored(p, vals[i])
      case _ => false
  }

  /** An entity refers by its OID; a handle by its own OID, or when it has none by its target's. */
  ghost predicate Names(p: Live, stamps: Stamps, o: Oid) {
    || (exists e :: p == Ent(e) && e in stamps && stamps[e] == o)
    || (exists target :: p == Handle(target, Some(o)))
    || (exists e :: p == Handle(Some(e), None) && e in stamps && stamps[e] == o)
  }

  lemma OwnRefMeans(v: Live, stamps: Stamps, o: Oid)
    ensures o in OwnRef(v, stamps) <==> Names(v, stamps, o)
  {
  }

  lemma {:induction false} LiveReferences(v: Live, stamps: Stamps, o: Oid)
    ensures o in RefsOf(v, stamps) <==> exists p :: PartOf(p, v) && Names(p, stamps, o)
    decreases v
  {
    OwnRefMeans(v, stamps, o);
    hide OwnRef, Names;
    match v
    case Items(items) =>
      LiveReferencesOfAll(items, stamps, o);
      assert forall i, p :: 0 <= i < |items| && PartOf(p, items[i]) ==> PartOf(p, v);
    case Mapping(_, vals) =>
      LiveReferencesOfAll(vals, stamps, o);
      assert forall i, p :: 0 <= i < |vals| && PartOf(p, vals[i]) ==> PartOf(p, v);
    case _ =>
      assert PartOf(v, v);
  }

  lemma {:induction false} LiveReferencesOfAll(vs: seq<Live>, stamps: Stamps, o: Oid)
    ensures o in RefsOfAll(vs, stamps) <==> exists i, p :: 0 <= i < |vs| && PartOf(p, vs[i]) && Names(p, stamps, o)
    decreases vs
  {
    if vs != [] {
      var front, n := vs[..|vs| - 1], |vs| - 1;
      LiveReferencesOfAll(front, stamps, o);
      LiveReferences(vs[n], stamps, o);
      hide PartOf, Names;
      assert forall i :: 0 <= i < n ==> front[i] == vs[i];
    }
  }

  lemma {:induction false} StoredReferences(t: Stored, o: Oid)
    ensures o in StoredRefs(t) <==> PartOfStored(Ref(o), t)
    decreases t
  {
    match t
    case Array(items) => StoredReferencesOfAll(items, o);
    case Dict(_, vals) => StoredReferencesOfAll(vals, o);
    case _ =>
  }

  lemma {:induction false} StoredReferencesOfAll(ts: seq<Stored>, o: Oid)
    ensures o in StoredRefsOfAll(ts) <==> exists i :: 0 <= i < |ts| && PartOfStored(Ref(o), ts[i])
    decreases ts
  {
    if ts != [] {
      var front, n := ts[..|ts| - 1], |ts| - 1;
      StoredReferencesOfAll(front, o);
      StoredReferences(ts[n], o);
      hide PartOfStored;
      assert forall i :: 0 <= i < n ==> front[i] == ts[i];
    }
  }

  /** The handles of a value agree exactly when each loaded one that knows an OID knows its target's. */
  lemma {:induction false} AgreementMeans(v: Live, stamps: Stamps)
    ensures HandlesAgree(v, stamps)
      <==> forall e, o :: PartOf(Handle(Some(e), Some(o)), v) && e in stamps ==> stamps[e] == o
    decreases v
  {
    match v
    case Items(items) =>
      AgreementOfAllMeans(items, stamps);
      assert forall e, o :: PartOf(Handle(Some(e), Some(o)), v) <==> exists i :: 0 <= i < |items| && PartOf(Handle(Some(e), Some(o)), items[i]);
    case Mapping(_, vals) =>
      AgreementOfAllMeans(vals, stamps);
      assert forall e, o :: PartOf(Handle(Some(e), Some(o)), v) <==> exists i :: 0 <= i < |vals| && PartOf(Handle(Some(e), Some(o)), vals[i]);
    case _ =>
      assert PartOf(v, v);
  }

  lemma {:induction false} AgreementOfAllMeans(vs: seq<Live>, stamps: Stamps)
    ensures AllHandlesAgree(vs, stamps)
      <==> forall e, o, i :: 0 <= i < |vs| && PartOf(Handle(Some(e), Some(o)), vs[i]) && e in stamps ==> stamps[e] == o
    decreases vs
  {
    hide PartOf, HandlesAgree;
    if vs != [] {
      var front, n := vs[..|vs| - 1], |vs| - 1;
      AgreementOfAllMeans(front, stamps);
      AgreementMeans(vs[n], stamps);
      assert forall i :: 0 <= i < n ==> front[i] == vs[i];
    }
  }
}
