/** First pass over types: the kinds that have no members and no references to settle. */
module PrimPass {
  import opened BtfTypes
  import opened Meaning
  import opened TypeEquality
  import opened CanonMap
  import opened GraphMatch
  import opened DedupState
  import opened Candidates
  import Hashmap

  /** Whatever a type is mapped to is mapped itself. */
  ghost predicate Settled(m: seq<nat>) {
    forall j :: 0 <= j < |m| && m[j] < |m| ==> Mapped(m[m[j]])
  }

  lemma {:induction false} SettledResolve(m: seq<nat>, j: nat)
    requires Acyclic(m) && Settled(m) && j < |m| && Mapped(m[j])
    ensures m[Resolve(m, j)] == Resolve(m, j)
    decreases RankOf(m)[j]
  {
    if IsLink(m, j) {
      SettledResolve(m, m[j]);
    }
  }

  /** Let a full enum take the place of an empty one. */
  method RelinkEnum(d: State, candId: nat, typeId: nat)
    requires d.Inv() && candId < |d.types| && typeId < |d.types|
    requires Mapped(d.canon[candId]) && !Mapped(d.canon[typeId])
    requires IsEnumFwd(d.types[candId]) && IsAnyEnum(d.types[typeId]) && d.types[candId].name == d.types[typeId].name
    modifies d`canon
    ensures d.Inv() && d.canon == old(d.canon)[candId := typeId]
  {
    hide Signature, Refs, Recorded, Listed, Complete, Distinct, IsDeduped;
    hide Hashmap.Table.Valid, Hashmap.All;
    LinkToEnd(d.canon, candId, typeId);
    RelinkTable(d.types, d.canon, d.startId, d.table.Contents(), candId, typeId);
    d.canon := d.canon[candId := typeId];
  }

  lemma RelinkTable(g: seq<Type>, m: seq<nat>, start: nat, entries: multiset<Hashmap.Entry>, x: nat, y: nat)
    requires ValidGraph(g) && |m| == |g| <= MAX_NR_TYPES + 1 && x < |g| && y < |g| && x != y
    requires IsEnumFwd(g[x]) || g[x].kind.Fwd?
    requires Listed(g, m, entries) && Complete(g, m, entries) && Distinct(g, m, start)
    ensures Listed(g, m[x := y], entries) && Complete(g, m[x := y], entries) && Distinct(g, m[x := y], start)
  {
    hide Signature, Refs, IsDeduped;
    var m' := m[x := y];
    assert forall j :: 0 <= j < |g| && m'[j] == j ==> m[j] == j;
  }

  lemma ListedAt(g: seq<Type>, m: seq<nat>, entries: multiset<Hashmap.Entry>, h: int, id: nat)
    requires ValidGraph(g) && |m| == |g| && Listed(g, m, entries) && Hashmap.Entry(h, id) in entries
    ensures id < |g| && Mapped(m[id]) && (m[id] == id || g[id].kind.Fwd? || IsEnumFwd(g[id]))
  {
  }

  /** Unlike every entry under its signature, a type is unlike every canonical type. */
  lemma UnlikeAll(g: seq<Type>, m: seq<nat>, entries: multiset<Hashmap.Entry>, t: Type)
    requires ValidGraph(g) && |m| == |g| && Complete(g, m, entries) && WellFormed(t) && IsDeduped(t.kind)
    requires forall j :: 0 <= j < |g| && Hashmap.Entry(Signature(t), j) in entries ==> g[j] != t
    ensures forall j :: 0 <= j < |g| && m[j] == j ==> g[j] != t
  {
    hide Signature, Refs;
  }

  /** The canonical type for an enum. An empty enum takes any enum of its name; a full one takes its
      equal, and becomes what empty enums of its name are mapped to. */
  method FindEnum(d: State, typeId: nat) returns (newId: nat)
    requires d.Inv() && typeId < |d.types| && IsAnyEnum(d.types[typeId])
    requires d.canon[typeId] == UNPROCESSED && Settled(d.canon)
    modifies d`canon
    ensures d.Inv() && d.canon[typeId] == UNPROCESSED && MaySettle(d.types, d.canon, typeId, newId)
    ensures newId != typeId ==> Mapped(d.canon[newId])
    ensures forall j :: 0 <= j < |d.types| && d.canon[j] != old(d.canon)[j] ==>
      d.canon[j] == typeId && Mapped(old(d.canon)[j]) && IsEnumFwd(d.types[j])
    ensures NothingToResolve(d.types) ==> d.canon == old(d.canon) && d.types[newId] == d.types[typeId]
  {
    hide Signature, Refs, Recorded, Listed, Complete, Distinct, Acyclic, AllKeep, EqualEnum, CompatEnum, SettledEnums;
    hide Hashmap.Table.Valid, Hashmap.All;
    var t := d.types[typeId];
    var ids := Sharing(d, Signature(t));
    newId := typeId;
    var i := 0;
    while i < |ids|
      invariant i <= |ids| && d.Inv() && d.canon[typeId] == UNPROCESSED
      invariant forall k :: 0 <= k < i ==> d.types[ids[k]] != t
      invariant forall j :: 0 <= j < |d.types| && d.canon[j] != old(d.canon)[j] ==>
        d.canon[j] == typeId && Mapped(old(d.canon)[j]) && IsEnumFwd(d.types[j])
      invariant IsEnumFwd(t) || NothingToResolve(d.types) ==> d.canon == old(d.canon)
    {
      var candId := ids[i];
      var cand := d.types[candId];
      ListedAt(d.types, d.canon, d.table.Contents(), Signature(t), candId);
      EnumEquality(t, cand);
      if EqualEnum(t, cand) || (CompatEnum(t, cand) && IsEnumFwd(t)) {
        EnumTarget(d.types, d.canon, typeId, candId, old(d.canon));
        return candId;
      }
      if CompatEnum(t, cand) {
        assert !SettledEnums(d.types[typeId], d.types[candId]);
        EmptyCandidate(t, cand);
        RelinkEnum(d, candId, typeId);
      }
      i := i + 1;
    }
    UnlikeAll(d.types, d.canon, d.table.Contents(), t);
  }

  lemma EnumTarget(g: seq<Type>, m: seq<nat>, typeId: nat, candId: nat, m0: seq<nat>)
    requires ValidGraph(g) && Acyclic(m) && |m| == |g| <= MAX_NR_TYPES + 1 && typeId < |g| && candId < |g|
    requires IsAnyEnum(g[typeId]) && !Mapped(m[typeId]) && Mapped(m[candId])
    requires m[candId] == candId || IsEnumFwd(g[candId]) || g[candId].kind.Fwd?
    requires g[typeId] == g[candId] || (CompatEnum(g[typeId], g[candId]) && IsEnumFwd(g[typeId]))
    requires IsEnumFwd(g[typeId]) ==> m == m0
    requires Settled(m0)
    ensures MaySettle(g, m, typeId, candId)
  {
    if IsEnumFwd(g[typeId]) {
      SettledResolve(m, candId);
    }
  }

  lemma EmptyCandidate(t: Type, cand: Type)
    requires WellFormed(t) && WellFormed(cand) && IsAnyEnum(t)
    requires CompatEnum(t, cand) && !EqualEnum(t, cand) && !IsEnumFwd(t)
    ensures IsEnumFwd(cand) && t.name == cand.name
  {
  }

  lemma EnumEquality(t: Type, cand: Type)
    requires WellFormed(t) && WellFormed(cand) && IsAnyEnum(t)
    ensures EqualEnum(t, cand) <==> t == cand
    ensures CompatEnum(t, cand) && SettledEnums(t, cand) ==> t == cand
  {
    EqualIsEquality(t, cand);
    if CompatEnum(t, cand) && SettledEnums(t, cand) {
      assert t.elems == cand.elems && t.extra == cand.extra;
    }
  }

  /** Kinds that wait for a later pass, or for none. */
  predicate IsLater(k: Kind) {
    IsRefKind(k) || k.Typedef? || k.Struct? || k.Union? || k.Var? || k.Datasec? || k.Locsec?
  }

  /** Types of primitive kinds get mapped, and of the mapped ones only empty enums change. */
  ghost predicate PrimStepOf(g: seq<Type>, m: seq<nat>, m': seq<nat>) {
    |m| == |m'| == |g| &&
    forall j :: 0 <= j < |m| && m'[j] != m[j] ==>
      Mapped(m'[j]) && IsPrimKind(g[j].kind) && (Mapped(m[j]) ==> IsEnumFwd(g[j]))
  }

  /** The canonical type for one type of a primitive kind. */
  method PrimTarget(d: State, typeId: nat) returns (newId: nat)
    requires d.Inv() && typeId < |d.types| && IsPrimKind(d.types[typeId].kind)
    requires d.canon[typeId] == UNPROCESSED && Settled(d.canon)
    modifies d`canon
    ensures d.Inv() && d.canon[typeId] == UNPROCESSED && MaySettle(d.types, d.canon, typeId, newId)
    ensures newId != typeId ==> Mapped(d.canon[newId])
    ensures forall j :: 0 <= j < |d.types| && d.canon[j] != old(d.canon)[j] ==>
      d.canon[j] == typeId && Mapped(old(d.canon)[j]) && IsEnumFwd(d.types[j])
    ensures NothingToResolve(d.types) ==> d.canon == old(d.canon) && d.types[newId] == d.types[typeId]
  {
    hide Signature, Refs, Recorded, Listed, Complete, Distinct, NothingToResolve;
    hide Hashmap.Table.Valid, Hashmap.All;
    if IsAnyEnum(d.types[typeId]) {
      newId := FindEnum(d, typeId);
    } else {
      newId := FindEqual(d, typeId);
      if newId != typeId {
        ListedAt(d.types, d.canon, d.table.Contents(), Signature(d.types[typeId]), newId);
        SettledResolve(d.canon, newId);
      }
    }
  }

  lemma PrimStep(g: seq<Type>, m0: seq<nat>, m: seq<nat>, typeId: nat, newId: nat)
    requires ValidGraph(g) && Settled(m0) && |m0| == |m| == |g| <= MAX_NR_TYPES + 1
    requires typeId < |g| && newId < |g| && !Mapped(m[typeId]) && IsPrimKind(g[typeId].kind)
    requires newId != typeId ==> Mapped(m[newId])
    requires forall j :: 0 <= j < |g| && m[j] != m0[j] ==> m[j] == typeId && Mapped(m0[j]) && IsEnumFwd(g[j])
    ensures Settled(m[typeId := newId]) && PrimStepOf(g, m0, m[typeId := newId])
    ensures forall j :: 0 <= j < |g| && j != typeId && !Mapped(m0[j]) ==> m[j] == m0[j]
    ensures m == m0 && g[newId] == g[typeId] && Sound(g, m0) ==> Sound(g, m[typeId := newId])
  {
    hide Refs, Unfold, Equivalent;
    if g[newId] == g[typeId] {
      EqualTypesEquivalent(g, typeId, newId);
    }
  }

  /** Find or become the canonical type, for one type of a primitive kind. */
  method PrimType(d: State, typeId: nat) returns (r: Status)
    requires d.Inv() && Settled(d.canon) && typeId < |d.types|
    requires IsPrimKind(d.types[typeId].kind) ==> d.canon[typeId] == UNPROCESSED
    modifies d`canon, d.table
    ensures d.Ok()
    ensures r == Done ==> d.Inv() && Settled(d.canon) && PrimStepOf(d.types, old(d.canon), d.canon)
    ensures r == Done ==>
      forall j :: 0 <= j < |d.types| && j != typeId && !Mapped(old(d.canon)[j]) ==> d.canon[j] == old(d.canon)[j]
    ensures r == Done ==> IsPrimKind(d.types[typeId].kind) || IsLater(d.types[typeId].kind)
    ensures r == Done ==>
      if IsPrimKind(d.types[typeId].kind) then Mapped(d.canon[typeId]) else d.canon == old(d.canon)
    ensures r == Done && NothingToResolve(d.types) && Sound(d.types, old(d.canon)) ==> Sound(d.types, d.canon)
  {
    hide Signature, Refs, Recorded, Listed, Complete, Distinct, Sound, NothingToResolve, Settled;
    hide Hashmap.Table.Valid, Hashmap.All;
    if IsLater(d.types[typeId].kind) {
      return Done;
    }
    if !IsPrimKind(d.types[typeId].kind) {
      return Fail(Inval);
    }
    var newId := PrimTarget(d, typeId);
    PrimStep(d.types, old(d.canon), d.canon, typeId, newId);
    r := Settle(d, typeId, newId);
  }

  /** All own types of primitive kinds. */
  method PrimTypes(d: State) returns (r: Status)
    requires d.Inv() && Settled(d.canon)
    requires forall i :: d.startId <= i < |d.types| ==> d.canon[i] == InitialEntry(d.types, i)
    modifies d`canon, d.table
    ensures d.Ok()
    ensures r == Done ==> d.Inv() && Settled(d.canon) && PrimStepOf(d.types, old(d.canon), d.canon)
    ensures r == Done ==> forall i :: d.startId <= i < |d.types| ==>
      if IsPrimKind(d.types[i].kind) then Mapped(d.canon[i]) else IsLater(d.types[i].kind)
    ensures r == Done && NothingToResolve(d.types) && Sound(d.types, old(d.canon)) ==> Sound(d.types, d.canon)
  {
    hide Refs, Recorded, Listed, Complete, Distinct, Sound, NothingToResolve, Settled, AllKeep, Acyclic, InitialEntry;
    hide Hashmap.Table.Valid, Hashmap.All;
    var id := d.startId;
    while id < |d.types|
      invariant d.startId <= id <= |d.types| && d.Inv() && Settled(d.canon)
      invariant PrimStepOf(d.types, old(d.canon), d.canon)
      invariant forall i :: id <= i < |d.types| ==> d.canon[i] == old(d.canon)[i]
      invariant forall i :: d.startId <= i < id ==>
        if IsPrimKind(d.types[i].kind) then Mapped(d.canon[i]) else IsLater(d.types[i].kind)
      invariant NothingToResolve(d.types) && Sound(d.types, old(d.canon)) ==> Sound(d.types, d.canon)
    {
      forall i | id <= i < |d.types|
        ensures IsPrimKind(d.types[i].kind) ==> d.canon[i] == UNPROCESSED
      {
        PrimUnmapped(d.types, i);
      }
      r := PrimType(d, id);
      if r != Done {
        return;
      }
      id := id + 1;
    }
    r := Done;
  }

  lemma PrimUnmapped(g: seq<Type>, i: nat)
    requires 0 < i < |g|
    ensures IsPrimKind(g[i].kind) ==> InitialEntry(g, i) == UNPROCESSED
  {
  }
}
