/** Fourth pass over types: the kinds that refer to other types and have no identity of their own.
    Their references are replaced by canonical ones first, in place. */
module RefPass {
  import opened BtfTypes
  import opened Meaning
  import opened TypeEquality
  import opened CanonMap
  import opened GraphMatch
  import opened DedupState
  import opened Candidates
  import opened PrimPass
  import Hashmap

  datatype RefResult = Ref(id: nat) | RefFail(error: Errno)

  /** The graphs look the same from every entry. */
  ghost predicate SameUnfold(g: seq<Type>, g': seq<Type>)
    requires ValidGraph(g) && ValidGraph(g')
  {
    |g| == |g'| && forall i, k :: 0 <= i < |g| && 0 <= k ==> Unfold(g', i, k) == Unfold(g, i, k)
  }

  ghost function SetRef(g: seq<Type>, id: nat, j: nat, v: nat): (g': seq<Type>)
    requires ValidGraph(g) && id < |g| && j < |Refs(g[id])|
  {
    g[id := WithRefs(g[id], Refs(g[id])[j := v])]
  }

  lemma SetRefValid(g: seq<Type>, id: nat, j: nat, v: nat)
    requires ValidGraph(g) && id < |g| && j < |Refs(g[id])| && v < |g|
    ensures ValidGraph(SetRef(g, id, j, v)) && Shape(SetRef(g, id, j, v)[id]) == Shape(g[id])
  {
    hide Refs, Shape, WithRefs;
    var rs := Refs(g[id])[j := v];
    ShapeOfWithRefs(g[id], rs);
    VoidRefs();
    var g' := SetRef(g, id, j, v);
    forall i | 0 <= i < |g'|
      ensures WellFormed(g'[i]) && InRange(Refs(g'[i]), |g'|)
    {
      if i == id {
        assert Refs(g'[i]) == rs;
      }
    }
  }

  lemma SetRefUnfold(g: seq<Type>, id: nat, j: nat, v: nat)
    requires ValidGraph(g) && id < |g| && j < |Refs(g[id])| && v < |g| && Equivalent(g, Refs(g[id])[j], v)
    requires ValidGraph(SetRef(g, id, j, v))
    ensures SameUnfold(g, SetRef(g, id, j, v))
  {
    hide Refs, Shape, WithRefs, Unfold;
    var g' := SetRef(g, id, j, v);
    SetRefValid(g, id, j, v);
    forall i | 0 <= i < |g|
      ensures Shape(g'[i]) == Shape(g[i]) && AllEquivalent(g, Refs(g'[i]), Refs(g[i]))
    {
      if i == id {
        assert Refs(g'[i]) == Refs(g[i])[j := v];
      }
    }
    forall i, k | 0 <= i < |g| && 0 <= k
      ensures Unfold(g', i, k) == Unfold(g, i, k)
    {
      UnfoldAfterReplacement(g, g', i, k);
    }
  }

  /** An unmapped type is in none of the relations that the candidate table keeps. */
  lemma UnmappedFree(g: seq<Type>, g': seq<Type>, m: seq<nat>, m': seq<nat>, start: nat,
                     entries: multiset<Hashmap.Entry>, id: nat)
    requires ValidGraph(g) && ValidGraph(g') && |m| == |m'| == |g| == |g'| <= MAX_NR_TYPES + 1 && id < |g|
    requires !Mapped(m[id]) && !Mapped(m'[id])
    requires forall j :: 0 <= j < |g| && j != id ==> g'[j] == g[j] && m'[j] == m[j]
    requires Listed(g, m, entries) && Complete(g, m, entries) && Distinct(g, m, start)
    ensures Listed(g', m', entries) && Complete(g', m', entries) && Distinct(g', m', start)
  {
    hide Signature, Refs, IsDeduped;
    forall e | e in entries
      ensures 0 <= e.value < |g| && e.value != id
    {
    }
    assert forall j :: 0 <= j < |g| && m'[j] == j ==> j != id && m[j] == j;
  }

  method MarkInProgress(d: State, typeId: nat)
    requires d.Inv() && typeId < |d.types| && !Mapped(d.canon[typeId])
    modifies d`canon
    ensures d.Inv() && d.canon == old(d.canon)[typeId := IN_PROGRESS]
  {
    hide Signature, Refs, Recorded, Listed, Complete, Distinct, Hashmap.Table.Valid, Hashmap.All;
    MarkEnd(d.canon, typeId, IN_PROGRESS);
    UnmappedFree(d.types, d.types, d.canon, d.canon[typeId := IN_PROGRESS], d.startId, d.table.Contents(), typeId);
    d.canon := d.canon[typeId := IN_PROGRESS];
  }

  /** Replace one reference of a type that is being processed. */
  method ReplaceRef(d: State, typeId: nat, j: nat, v: nat)
    requires d.Inv() && typeId < |d.types| && d.canon[typeId] == IN_PROGRESS
    requires j < |Refs(d.types[typeId])| && v < |d.types|
    modifies d`types
    ensures d.Inv()
    ensures d.types == SetRef(old(d.types), typeId, j, v)
    ensures Shape(d.types[typeId]) == Shape(old(d.types)[typeId])
    ensures Refs(d.types[typeId]) == Refs(old(d.types)[typeId])[j := v]
    ensures forall i :: 0 <= i < |d.types| && i != typeId ==> d.types[i] == old(d.types)[i]
  {
    hide Signature, Refs, Shape, WithRefs, Recorded, Listed, Complete, Distinct, Hashmap.Table.Valid, Hashmap.All;
    ghost var g' := SetRef(d.types, typeId, j, v);
    SetRefValid(d.types, typeId, j, v);
    UnmappedFree(d.types, g', d.canon, d.canon, d.startId, d.table.Contents(), typeId);
    d.types := d.types[typeId := WithRefs(d.types[typeId], Refs(d.types[typeId])[j := v])];
  }

  // ----- what one step of the pass does -----

  /** All references of a type are canonical. */
  ghost predicate CanonRefs(g: seq<Type>, m: seq<nat>, i: nat)
    requires ValidGraph(g) && |m| == |g| && i < |g|
  {
    forall j :: 0 <= j < |Refs(g[i])| ==> m[Refs(g[i])[j]] == Refs(g[i])[j]
  }

  /** Only unprocessed reference types change, apart from the one at `open`: they get canonical
      references and are mapped. */
  ghost predicate RefStep(g: seq<Type>, m: seq<nat>, g': seq<Type>, m': seq<nat>, open: nat) {
    && ValidGraph(g) && ValidGraph(g') && |g| == |g'| == |m| == |m'|
    && (forall j :: 0 <= j < |g| && j != open && m'[j] != m[j] ==>
          m[j] == UNPROCESSED && Mapped(m'[j]) && IsRefKind(g[j].kind) && CanonRefs(g', m', j))
    && (forall j :: 0 <= j < |g| && j != open && g'[j] != g[j] ==>
          m[j] == UNPROCESSED && Mapped(m'[j]) && IsRefKind(g[j].kind) && Shape(g'[j]) == Shape(g[j]))
  }

  lemma RefStepRefl(g: seq<Type>, m: seq<nat>, open: nat)
    requires ValidGraph(g) && |m| == |g|
    ensures RefStep(g, m, g, m, open)
  {
  }

  /** Whatever was processed or in progress stays. */
  lemma StepKeeps(g: seq<Type>, m: seq<nat>, g': seq<Type>, m': seq<nat>)
    requires RefStep(g, m, g', m', |g|)
    ensures |g'| == |g| == |m| == |m'|
    ensures forall j :: 0 <= j < |g| && m[j] != UNPROCESSED ==> m'[j] == m[j] && g'[j] == g[j]
  {
    hide Shape, CanonRefs;
  }

  lemma RefStepTrans(g: seq<Type>, m: seq<nat>, g1: seq<Type>, m1: seq<nat>, g2: seq<Type>, m2: seq<nat>, open: nat)
    requires RefStep(g, m, g1, m1, open) && RefStep(g1, m1, g2, m2, |g|)
    requires open < |g| ==> !Mapped(m1[open]) && m2[open] == m1[open]
    requires ValidMap(m1) && ValidMap(m2)
    ensures RefStep(g, m, g2, m2, open)
  {
    hide Refs, Shape, IsRefKind;
    forall j | 0 <= j < |g| && j != open && m2[j] != m[j]
      ensures m[j] == UNPROCESSED && Mapped(m2[j]) && IsRefKind(g[j].kind) && CanonRefs(g2, m2, j)
    {
      if m1[j] != m[j] {
        assert g2[j] == g1[j];
        CanonRefsKept(g1, m1, g2, m2, j);
      }
    }
    forall j | 0 <= j < |g| && j != open && g2[j] != g[j]
      ensures m[j] == UNPROCESSED && Mapped(m2[j]) && IsRefKind(g[j].kind) && Shape(g2[j]) == Shape(g[j])
    {
      if g1[j] != g[j] {
        assert g2[j] == g1[j];
      }
    }
  }

  lemma CanonRefsKept(g1: seq<Type>, m1: seq<nat>, g2: seq<Type>, m2: seq<nat>, j: nat)
    requires RefStep(g1, m1, g2, m2, |g1|) && j < |g1| <= MAX_NR_TYPES + 1 && g2[j] == g1[j] && CanonRefs(g1, m1, j)
    ensures CanonRefs(g2, m2, j)
  {
    hide Refs, Shape;
    forall i | 0 <= i < |Refs(g2[j])|
      ensures m2[Refs(g2[j])[i]] == Refs(g2[j])[i]
    {
      var r := Refs(g1[j])[i];
      assert m1[r] == r;
      assert m2[r] == m1[r];
    }
  }

  /** The map still stands for the same types, and the types for what they stood for. */
  ghost predicate Faithful(g: seq<Type>, m: seq<nat>, g': seq<Type>, m': seq<nat>)
    requires ValidGraph(g) && ValidGraph(g')
  {
    Sound(g, m) ==> Sound(g', m') && SameUnfold(g, g')
  }

  lemma FaithfulTrans(g: seq<Type>, m: seq<nat>, g1: seq<Type>, m1: seq<nat>, g2: seq<Type>, m2: seq<nat>)
    requires ValidGraph(g) && ValidGraph(g1) && ValidGraph(g2)
    requires Faithful(g, m, g1, m1) && Faithful(g1, m1, g2, m2)
    ensures Faithful(g, m, g2, m2)
  {
    hide Unfold, Sound;
  }

  /** Putting a canonical id in the place of a reference. */
  lemma FaithfulReplace(g: seq<Type>, m: seq<nat>, id: nat, j: nat, v: nat)
    requires ValidGraph(g) && Acyclic(m) && |m| == |g| && id < |g| && j < |Refs(g[id])|
    requires v == Resolve(m, Refs(g[id])[j])
    requires ValidGraph(SetRef(g, id, j, v))
    ensures Faithful(g, m, SetRef(g, id, j, v), m)
  {
    hide Refs, Unfold, WithRefs;
    if Sound(g, m) {
      var g' := SetRef(g, id, j, v);
      ResolveSound(g, m, Refs(g[id])[j]);
      SetRefUnfold(g, id, j, v);
      forall i | 0 <= i < |m| && m[i] < |m|
        ensures Equivalent(g', i, m[i])
      {
        forall k: nat
          ensures Unfold(g', i, k) == Unfold(g', m[i], k)
        {
          assert Unfold(g, i, k) == Unfold(g, m[i], k);
          assert Unfold(g', i, k) == Unfold(g, i, k) && Unfold(g', m[i], k) == Unfold(g, m[i], k);
        }
      }
    }
  }

  ghost function Unprocessed(m: seq<nat>): set<nat> {
    set i | 0 <= i < |m| && m[i] == UNPROCESSED
  }

  /** Replace the references of a type that is being processed by canonical ones, one by one. */
  method RefTypes(d: State, typeId: nat) returns (r: Status)
    requires d.Inv() && Settled(d.canon) && typeId < |d.types| && d.canon[typeId] == IN_PROGRESS
    modifies d`types, d`canon, d.table
    ensures d.Ok()
    ensures r == Done ==> d.Inv() && Settled(d.canon) && d.canon[typeId] == IN_PROGRESS
    ensures r == Done ==> RefStep(old(d.types), old(d.canon), d.types, d.canon, typeId)
    ensures r == Done ==> CanonRefs(d.types, d.canon, typeId) && Shape(d.types[typeId]) == Shape(old(d.types)[typeId])
    ensures r == Done ==> Faithful(old(d.types), old(d.canon), d.types, d.canon)
    ensures Unprocessed(d.canon) <= Unprocessed(old(d.canon))
    decreases Unprocessed(d.canon), 2
  {
    hide Signature, Refs, Shape, WithRefs, Recorded, Listed, Complete, Distinct, Faithful, AllKeep, SetRef;
    hide Settled, Hashmap.Table.Valid, Hashmap.All, RefStep, Unfold;
    ghost var g0, m0 := d.types, d.canon;
    ghost var count := |Refs(d.types[typeId])|;
    var j := 0;
    RefStepRefl(g0, m0, typeId);
    FaithfulRefl(g0, m0);
    while j < |Refs(d.types[typeId])|
      invariant d.Inv() && Settled(d.canon) && |d.types| == |g0| && d.canon[typeId] == IN_PROGRESS
      invariant j <= |Refs(d.types[typeId])| == count
      invariant RefStep(g0, m0, d.types, d.canon, typeId) && Shape(d.types[typeId]) == Shape(g0[typeId])
      invariant forall i :: 0 <= i < j ==> d.canon[Refs(d.types[typeId])[i]] == Refs(d.types[typeId])[i]
      invariant Faithful(g0, m0, d.types, d.canon)
      invariant Unprocessed(d.canon) <= Unprocessed(m0)
      decreases count - j
    {
      ghost var g1, m1 := d.types, d.canon;
      var ref := Refs(d.types[typeId])[j];
      var res := RefType(d, ref);
      if res.RefFail? {
        return Fail(res.error);
      }
      StepKeeps(g1, m1, d.types, d.canon);
      RefStepTrans(g0, m0, g1, m1, d.types, d.canon, typeId);
      FaithfulTrans(g0, m0, g1, m1, d.types, d.canon);
      SettledResolve(d.canon, ref);
      ghost var g2 := d.types;
      ReplaceRef(d, typeId, j, res.id);
      FaithfulReplace(g2, d.canon, typeId, j, res.id);
      FaithfulTrans(g0, m0, g2, d.canon, d.types, d.canon);
      OpenReplaced(g0, m0, g2, d.types, d.canon, typeId);
      j := j + 1;
    }
    r := Done;
  }

  /** The canonical id of a type, settled first if the type is of a reference kind. */
  method RefType(d: State, typeId: nat) returns (r: RefResult)
    requires d.Inv() && Settled(d.canon) && typeId < |d.types|
    modifies d`types, d`canon, d.table
    ensures d.Ok()
    ensures r.Ref? ==> d.Inv() && Settled(d.canon) && |d.types| == |old(d.types)|
    ensures r.Ref? ==> Mapped(d.canon[typeId]) && r.id == Resolve(d.canon, typeId)
    ensures r.Ref? ==> RefStep(old(d.types), old(d.canon), d.types, d.canon, |d.types|)
    ensures r.Ref? ==> Faithful(old(d.types), old(d.canon), d.types, d.canon)
    ensures Unprocessed(d.canon) <= Unprocessed(old(d.canon))
    decreases Unprocessed(d.canon), 1
  {
    hide Signature, Refs, Shape, Recorded, Listed, Complete, Distinct, Faithful, AllKeep;
    hide Hashmap.Table.Valid, Hashmap.All;
    RefStepRefl(d.types, d.canon, |d.types|);
    FaithfulRefl(d.types, d.canon);
    if d.canon[typeId] == IN_PROGRESS {
      return RefFail(Loop);
    }
    if Mapped(d.canon[typeId]) {
      var id := ResolveTypeId(d.canon, typeId);
      return Ref(id);
    }
    assert typeId in Unprocessed(d.canon);
    MarkInProgress(d, typeId);
    assert typeId !in Unprocessed(d.canon);
    if !IsRefKind(d.types[typeId].kind) {
      return RefFail(Inval);
    }
    ghost var m1 := d.canon;
    var status := RefTypes(d, typeId);
    if status != Done {
      return RefFail(status.error);
    }
    r := SettleRef(d, typeId, old(d.types), old(d.canon));
  }

  /** Settle a type whose references are canonical. */
  method SettleRef(d: State, typeId: nat, ghost g: seq<Type>, ghost m: seq<nat>) returns (r: RefResult)
    requires d.Inv() && Settled(d.canon) && typeId < |d.types| == |g| == |m| && d.canon[typeId] == IN_PROGRESS
    requires m[typeId] == UNPROCESSED && IsRefKind(g[typeId].kind) &&
      RefStep(g, m[typeId := IN_PROGRESS], d.types, d.canon, typeId)
    requires CanonRefs(d.types, d.canon, typeId) && Shape(d.types[typeId]) == Shape(g[typeId])
    requires Faithful(g, m[typeId := IN_PROGRESS], d.types, d.canon)
    modifies d`canon, d.table
    ensures d.Ok() && Unprocessed(d.canon) <= Unprocessed(old(d.canon))
    ensures r.Ref? ==> d.Inv() && Settled(d.canon) && Mapped(d.canon[typeId]) && r.id == Resolve(d.canon, typeId)
    ensures r.Ref? ==> RefStep(g, m, d.types, d.canon, |d.types|) && Faithful(g, m, d.types, d.canon)
  {
    hide Signature, Refs, Shape, Recorded, Listed, Complete, Distinct, Faithful, AllKeep, RefStep, CanonRefs;
    hide Hashmap.Table.Valid, Hashmap.All;
    var newId := FindEqual(d, typeId);
    if newId != typeId {
      ListedAt(d.types, d.canon, d.table.Contents(), Signature(d.types[typeId]), newId);
    }
    CloseStep(g, m, d.types, d.canon, typeId, newId);
    var status := Settle(d, typeId, newId);
    if status != Done {
      return RefFail(status.error);
    }
    r := Ref(newId);
  }

  lemma CloseStep(g: seq<Type>, m: seq<nat>, g': seq<Type>, m': seq<nat>, id: nat, newId: nat)
    requires id < |m| == |g| <= MAX_NR_TYPES + 1 && m[id] == UNPROCESSED && IsRefKind(g[id].kind)
    requires RefStep(g, m[id := IN_PROGRESS], g', m', id) && m'[id] == IN_PROGRESS
    requires CanonRefs(g', m', id) && Shape(g'[id]) == Shape(g[id])
    requires newId < |g| && g'[newId] == g'[id] && (newId != id ==> m'[newId] == newId) && Settled(m')
    requires Faithful(g, m[id := IN_PROGRESS], g', m')
    ensures RefStep(g, m, g', m'[id := newId], |g|) && Faithful(g, m, g', m'[id := newId]) && Settled(m'[id := newId])
  {
    hide Refs, Shape, Unfold;
    EqualTypesEquivalent(g', id, newId);
    var m2 := m'[id := newId];
    forall j | 0 <= j < |g| && m2[j] != m[j]
      ensures m[j] == UNPROCESSED && Mapped(m2[j]) && IsRefKind(g[j].kind) && CanonRefs(g', m2, j)
    {
      assert CanonRefs(g', m', j);
      CanonRefsSettled(g', m', id, newId, j);
    }
  }

  lemma CanonRefsSettled(g: seq<Type>, m: seq<nat>, id: nat, newId: nat, j: nat)
    requires ValidGraph(g) && |m| == |g| <= MAX_NR_TYPES + 1 && id < |g| && j < |g| && m[id] == IN_PROGRESS &&
      CanonRefs(g, m, j)
    ensures CanonRefs(g, m[id := newId], j)
  {
    hide Refs;
  }

  lemma FaithfulRefl(g: seq<Type>, m: seq<nat>)
    requires ValidGraph(g)
    ensures Faithful(g, m, g, m)
  {
  }

  lemma OpenReplaced(g: seq<Type>, m: seq<nat>, g1: seq<Type>, g2: seq<Type>, m': seq<nat>, open: nat)
    requires RefStep(g, m, g1, m', open) && ValidGraph(g2) && |g2| == |g1| && open < |g|
    requires forall i :: 0 <= i < |g1| && i != open ==> g2[i] == g1[i]
    ensures RefStep(g, m, g2, m', open)
  {
    hide Refs, Shape;
    forall j | 0 <= j < |g| && j != open && m'[j] != m[j]
      ensures CanonRefs(g2, m', j)
    {
      assert CanonRefs(g1, m', j);
    }
  }

  /** All own types that are still unmapped. */
  method AllRefTypes(d: State) returns (r: Status)
    requires d.Inv() && Settled(d.canon)
    modifies d`types, d`canon, d.table
    ensures d.Ok()
    ensures r == Done ==> d.Inv() && Settled(d.canon)
    ensures r == Done ==> RefStep(old(d.types), old(d.canon), d.types, d.canon, |d.types|)
    ensures r == Done ==> Faithful(old(d.types), old(d.canon), d.types, d.canon)
    ensures r == Done ==> forall i :: d.startId <= i < |d.types| ==> Mapped(d.canon[i])
  {
    hide Signature, Refs, Shape, Recorded, Listed, Complete, Distinct, Faithful, AllKeep, Acyclic;
    hide Settled, Hashmap.Table.Valid, Hashmap.All;
    ghost var g, m := d.types, d.canon;
    RefStepRefl(g, m, |g|);
    FaithfulRefl(g, m);
    var id := d.startId;
    while id < |d.types|
      invariant d.startId <= id <= |d.types| == |g| && d.Inv() && Settled(d.canon)
      invariant RefStep(g, m, d.types, d.canon, |g|) && Faithful(g, m, d.types, d.canon)
      invariant forall i :: d.startId <= i < id ==> Mapped(d.canon[i])
    {
      ghost var g1, m1 := d.types, d.canon;
      var ref := RefType(d, id);
      if ref.RefFail? {
        return Fail(ref.error);
      }
      AcyclicValid(m1);
      AcyclicValid(d.canon);
      RefStepTrans(g, m, g1, m1, d.types, d.canon, |g|);
      FaithfulTrans(g, m, g1, m1, d.types, d.canon);
      id := id + 1;
    }
    r := Done;
  }

  lemma AcyclicValid(m: seq<nat>)
    requires Acyclic(m)
    ensures ValidMap(m)
  {
  }
}
