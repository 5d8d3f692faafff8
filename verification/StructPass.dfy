/** Second pass over types: structs, unions and typedefs, by matching the graphs below them. */
module StructPass {
  import opened BtfTypes
  import opened Meaning
  import opened TypeEquality
  import opened CanonMap
  import opened GraphMatch
  import opened DedupState
  import opened EquivWalk
  import opened Candidates
  import opened PrimPass
  import Hashmap

  /** Entries of forward declarations and of unmapped structs and unions may change, the latter only
      by being mapped. */
  ghost predicate MergeOf(g: seq<Type>, m: seq<nat>, m': seq<nat>, fwdsOnly: bool) {
    |m| == |m'| == |g| &&
    forall j :: 0 <= j < |m| && m'[j] != m[j] ==>
      Mapped(m'[j]) && (g[j].kind.Fwd? || (!fwdsOnly && IsComposite(g[j]) && !Mapped(m[j])))
  }

  lemma MergeOne(g: seq<Type>, m: seq<nat>, x: nat, y: nat, fwdsOnly: bool)
    requires |m| == |g| <= MAX_NR_TYPES + 1 && x < |g| && y < |g|
    requires g[x].kind.Fwd? || (!fwdsOnly && IsComposite(g[x]) && !Mapped(m[x]))
    ensures MergeOf(g, m, m[x := y], fwdsOnly)
  {
  }

  lemma NoMerge(g: seq<Type>, m: seq<nat>, fwdsOnly: bool)
    requires |m| == |g|
    ensures MergeOf(g, m, m, fwdsOnly)
  {
  }

  lemma MergeMore(g: seq<Type>, m: seq<nat>, m1: seq<nat>, m2: seq<nat>, fwdsOnly: bool)
    requires MergeOf(g, m, m1, fwdsOnly) && MergeOf(g, m1, m2, fwdsOnly)
    ensures MergeOf(g, m, m2, fwdsOnly)
  {
  }

  /** What the ends of two chains that start at a compatible pair have in common. */
  lemma EndsKeep(t: Type, c: Type, t': Type, c': Type)
    requires WellFormed(t) && WellFormed(c) && PairCompatible(t, c) && Keeps(t, t') && Keeps(c, c')
    ensures !t'.kind.Fwd? && c'.kind.Fwd? ==> Keeps(c', t')
    ensures t'.kind.Fwd? && !c'.kind.Fwd? ==> Keeps(t', c')
    ensures IsComposite(t') && !c'.kind.Fwd? ==> Keeps(t', c')
  {
  }

  /** Point the end of a chain at the end of another one. */
  method Join(d: State, x: nat, y: nat)
    requires d.Inv() && x < |d.types| && y < |d.types| && x != y
    requires !IsLink(d.canon, x) && !IsLink(d.canon, y) && Keeps(d.types[x], d.types[y])
    requires d.types[x].kind.Fwd? || (IsComposite(d.types[x]) && !Mapped(d.canon[x]))
    modifies d`canon
    ensures d.Inv() && d.canon == old(d.canon)[x := y]
  {
    hide Signature, Refs, Recorded, Listed, Complete, Distinct, IsDeduped, Keeps;
    hide Hashmap.Table.Valid, Hashmap.All;
    LinkToEnd(d.canon, x, y);
    if d.types[x].kind.Fwd? {
      RelinkTable(d.types, d.canon, d.startId, d.table.Contents(), x, y);
    } else {
      SettleTable(d.types, d.canon, d.table.Contents(), x, y);
      JoinDistinct(d.types, d.canon, d.startId, x, y);
    }
    d.canon := d.canon[x := y];
  }

  lemma JoinDistinct(g: seq<Type>, m: seq<nat>, start: nat, x: nat, y: nat)
    requires |m| == |g| && x < |g| && y < |g| && x != y && Distinct(g, m, start)
    ensures Distinct(g, m[x := y], start)
  {
    hide IsDeduped;
    assert forall j :: 0 <= j < |g| && m[x := y][j] == j ==> m[j] == j;
  }

  ghost predicate PairsCompatible(g: seq<Type>, hm: seq<nat>)
    requires ValidGraph(g)
  {
    |hm| == |g| && forall c :: 0 <= c < |g| && hm[c] < |g| ==> PairCompatible(g[hm[c]], g[c])
  }

  ghost predicate PairsEquivalent(g: seq<Type>, hm: seq<nat>)
    requires ValidGraph(g)
  {
    |hm| == |g| && forall c :: 0 <= c < |g| && hm[c] < |g| ==> Equivalent(g, hm[c], c)
  }

  lemma EndsEquivalent(g: seq<Type>, m: seq<nat>, a: nat, b: nat)
    requires ValidGraph(g) && Acyclic(m) && Sound(g, m) && a < |g| && b < |g| && Equivalent(g, a, b)
    ensures Equivalent(g, Resolve(m, a), Resolve(m, b))
    ensures Resolve(m, a) != Resolve(m, b) ==> Sound(g, m[Resolve(m, a) := Resolve(m, b)])
  {
    hide Unfold;
    ResolveSound(g, m, a);
    ResolveSound(g, m, b);
    EquivalentTrans(g, Resolve(m, a), a, b);
    EquivalentTrans(g, Resolve(m, a), b, Resolve(m, b));
  }

  lemma NothingToJoin(g: seq<Type>, i: nat, j: nat)
    requires i < |g| && j < |g| && NothingToResolve(g) && g[i].kind.Fwd? && !g[j].kind.Fwd?
    ensures !Keeps(g[i], g[j])
  {
  }

  /** When a merge keeps what the map stands for. */
  ghost predicate MergeSafe(g: seq<Type>, hm: seq<nat>)
    requires ValidGraph(g)
  {
    NothingToResolve(g) && PairsEquivalent(g, hm)
  }

  /** Make one recorded pair permanent, as far as that is safe. */
  method MergePair(d: State, canonId: nat)
    requires d.Inv() && canonId < |d.types| && Mapped(d.hypotMap[canonId])
    requires PairsCompatible(d.types, d.hypotMap)
    modifies d`canon
    ensures d.Inv()
    ensures MergeOf(d.types, old(d.canon), d.canon, d.hypotAdjustCanon)
    ensures MergeSafe(d.types, d.hypotMap) && Sound(d.types, old(d.canon)) ==> Sound(d.types, d.canon)
  {
    hide Signature, Refs, Listed, Complete, Distinct, IsDeduped, Keeps, PairCompatible, Sound, NothingToResolve;
    hide Equivalent, MergeOf, Hashmap.Table.Valid, Hashmap.All;
    var targId := d.hypotMap[canonId];
    var tId := ResolveTypeId(d.canon, targId);
    var cId := ResolveTypeId(d.canon, canonId);
    var t, c := d.types[tId], d.types[cId];
    ResolveKeeps(d.types, d.canon, targId);
    ResolveKeeps(d.types, d.canon, canonId);
    EndsKeep(d.types[targId], d.types[canonId], t, c);
    ghost var safe := MergeSafe(d.types, d.hypotMap) && Sound(d.types, d.canon);
    if safe {
      EndsEquivalent(d.types, d.canon, targId, canonId);
    }
    if !t.kind.Fwd? && c.kind.Fwd? {
      if safe {
        NothingToJoin(d.types, cId, tId);
      }
      MergeOne(d.types, d.canon, cId, tId, d.hypotAdjustCanon);
      Join(d, cId, tId);
    } else if d.hypotAdjustCanon {
      NoMerge(d.types, d.canon, true);
    } else if t.kind.Fwd? && !c.kind.Fwd? {
      if safe {
        NothingToJoin(d.types, tId, cId);
      }
      MergeOne(d.types, d.canon, tId, cId, false);
      Join(d, tId, cId);
    } else if IsComposite(t) && !c.kind.Fwd? && Mapped(d.canon[cId]) && !Mapped(d.canon[tId]) {
      MergeOne(d.types, d.canon, tId, cId, false);
      Join(d, tId, cId);
    } else {
      NoMerge(d.types, d.canon, false);
    }
  }

  /** Make the recorded pairs permanent, in the order in which they were recorded. */
  method MergeHypotMap(d: State)
    requires d.Inv() && PairsCompatible(d.types, d.hypotMap)
    modifies d`canon
    ensures d.Inv()
    ensures MergeOf(d.types, old(d.canon), d.canon, d.hypotAdjustCanon)
    ensures MergeSafe(d.types, d.hypotMap) && Sound(d.types, old(d.canon)) ==> Sound(d.types, d.canon)
  {
    hide Signature, Refs, Listed, Complete, Distinct, PairsCompatible, Sound, MergeSafe, MergeOf, AllKeep;
    hide Hashmap.Table.Valid, Hashmap.All;
    NoMerge(d.types, d.canon, d.hypotAdjustCanon);
    var i := 0;
    while i < |d.hypotList|
      invariant i <= |d.hypotList| && d.Inv()
      invariant MergeOf(d.types, old(d.canon), d.canon, d.hypotAdjustCanon)
      invariant MergeSafe(d.types, d.hypotMap) && Sound(d.types, old(d.canon)) ==> Sound(d.types, d.canon)
    {
      ghost var m := d.canon;
      assert d.hypotList[i] in d.hypotList;
      MergePair(d, d.hypotList[i]);
      MergeMore(d.types, old(d.canon), m, d.canon, d.hypotAdjustCanon);
      i := i + 1;
    }
  }

  predicate EqualByKind(t: Type, cand: Type)
    requires WellFormed(t) && WellFormed(cand) && (IsComposite(t) || t.kind.Typedef?)
  {
    if t.kind.Typedef? then EqualTypedef(t, cand) else ShallowEqualStruct(t, cand)
  }

  /** What a successful walk from an empty record gives. */
  lemma WalkResult(g: seq<Type>, m: seq<nat>, hm0: seq<nat>, hm: seq<nat>, candId: nat, canonId: nat)
    requires ValidGraph(g) && Acyclic(m) && |m| == |g| == |hm0| == |hm| <= MAX_NR_TYPES + 1
    requires candId < |g| && canonId < |g|
    requires forall i :: 0 <= i < |hm0| ==> hm0[i] == UNPROCESSED
    requires forall i :: 0 <= i < |hm| ==> hm[i] < |hm| || hm[i] == UNPROCESSED
    requires NewClosed(g, m, hm0, hm, |g|) && Justified(g, m, hm, candId, canonId)
    ensures PairsCompatible(g, hm)
    ensures NothingToResolve(g) && Sound(g, m) ==> PairsEquivalent(g, hm) && Equivalent(g, candId, canonId)
  {
    hide PairCompatible, Justified, AllJustified, NothingToResolve, Sound, Unfold, Refs;
    assert Closed(g, m, hm);
    if NothingToResolve(g) && Sound(g, m) {
      forall c | 0 <= c < |g| && hm[c] < |g|
        ensures Equivalent(g, hm[c], c)
      {
        ClosedEquivalent(g, m, hm, c);
      }
      forall k: nat
        ensures Unfold(g, candId, k) == Unfold(g, canonId, k)
      {
        JustifiedUnfold(g, m, hm, candId, canonId, k);
      }
    }
  }

  function NoPairs(n: nat): (hm: seq<nat>)
    ensures |hm| == n && forall i :: 0 <= i < n ==> hm[i] == UNPROCESSED
  {
    seq(n, _ => UNPROCESSED)
  }

  /** A canonical type that the pass matches a type with. */
  ghost predicate IsCandidate(g: seq<Type>, entries: multiset<Hashmap.Entry>, typeId: nat, c: nat)
    requires ValidGraph(g) && typeId < |g|
  {
    && c < |g| && IsGraphKind(g[typeId]) && Hashmap.Entry(Signature(g[typeId]), c) in entries
    && EqualByKind(g[typeId], g[c])
  }

  ghost predicate NoCandidate(g: seq<Type>, entries: multiset<Hashmap.Entry>, typeId: nat)
    requires ValidGraph(g) && typeId < |g|
  {
    IsGraphKind(g[typeId]) && forall c: nat :: !IsCandidate(g, entries, typeId, c)
  }

  lemma CandidateMet(g: seq<Type>, m: seq<nat>, entries: multiset<Hashmap.Entry>, typeId: nat, c: nat, budget: nat)
    requires ValidGraph(g) && Acyclic(m) && |m| == |g| <= MAX_NR_TYPES + 1 && typeId < |g|
    requires IsCandidate(g, entries, typeId, c)
    ensures !NoCandidate(g, entries, typeId)
    ensures forall e :: AllFail(g, m, entries, typeId, budget, e) ==>
      Walk(g, m, NoPairs(|g|), typeId, c, budget).answer == Error(e)
  {
    hide Walk, IsCandidate;
  }

  lemma NoneMet(g: seq<Type>, m: seq<nat>, entries: multiset<Hashmap.Entry>, typeId: nat, ids: seq<nat>, budget: nat)
    requires ValidGraph(g) && Acyclic(m) && |m| == |g| <= MAX_NR_TYPES + 1 && typeId < |g| && IsGraphKind(g[typeId])
    requires InRange(ids, |g|) && forall k :: 0 <= k < |ids| ==> !EqualByKind(g[typeId], g[ids[k]])
    requires forall j: nat :: Hashmap.Entry(Signature(g[typeId]), j) in entries ==> j in ids
    ensures forall e :: !AllFail(g, m, entries, typeId, budget, e)
  {
    hide Walk, EqualByKind, Signature;
  }

  /** There are candidates, and the walk to each fails. */
  ghost predicate AllFail(g: seq<Type>, m: seq<nat>, entries: multiset<Hashmap.Entry>, typeId: nat, budget: nat,
                          e: Errno)
    requires ValidGraph(g) && Acyclic(m) && |m| == |g| <= MAX_NR_TYPES + 1 && typeId < |g|
  {
    && (exists c: nat :: IsCandidate(g, entries, typeId, c))
    && forall c: nat :: IsCandidate(g, entries, typeId, c) ==>
         Walk(g, m, NoPairs(|g|), typeId, c, budget).answer == Error(e)
  }

  /** Match a type with one candidate, and merge what the match has found out. A match that would
      change the base counts as none. */
  method TryCandidate(d: State, typeId: nat, candId: nat, budget: nat) returns (eq: Answer)
    requires d.Inv() && typeId < |d.types| && candId < |d.types|
    modifies d`canon, d`hypotMap, d`hypotList, d`hypotAdjustCanon
    ensures d.Inv()
    ensures MergeOf(d.types, old(d.canon), d.canon, eq != Same)
    ensures NothingToResolve(d.types) && Sound(d.types, old(d.canon)) ==>
      Sound(d.types, d.canon) && (eq == Same ==> Equivalent(d.types, typeId, candId))
    ensures d.plenty ==> var w := Walk(d.types, old(d.canon), NoPairs(|d.types|), typeId, candId, budget);
      w.answer != Same ==> eq == w.answer
  {
    hide Signature, Refs, Listed, Complete, Distinct, PairsCompatible, PairsEquivalent, Sound, NothingToResolve;
    hide MergeOf, AllKeep, Acyclic, Equivalent, Justified, NewClosed, Hashmap.Table.Valid, Hashmap.All, Walk;
    ClearHypotMap(d);
    assert d.hypotMap == NoPairs(|d.types|);
    ghost var hm0 := d.hypotMap;
    eq := IsEquiv(d, typeId, candId, budget);
    NoMerge(d.types, d.canon, true);
    if eq == Same {
      WalkResult(d.types, d.canon, hm0, d.hypotMap, typeId, candId);
      MergeHypotMap(d);
      if d.hypotAdjustCanon {
        eq := Differs;
      }
    }
  }

  lemma SettleOnTable(g: seq<Type>, m: seq<nat>, start: nat, entries: multiset<Hashmap.Entry>, x: nat, y: nat)
    requires ValidGraph(g) && |m| == |g| <= MAX_NR_TYPES + 1 && x < |g| && y < |g| && x != y
    requires forall e :: e in entries ==> e.value != x
    requires Listed(g, m, entries) && Complete(g, m, entries) && Distinct(g, m, start)
    ensures Listed(g, m[x := y], entries) && Complete(g, m[x := y], entries) && Distinct(g, m[x := y], start)
  {
    hide Signature, Refs, IsDeduped;
    assert forall j :: 0 <= j < |g| && m[x := y][j] == j ==> m[j] == j;
  }

  /** Map a type that is not in the table to a canonical type, whatever a merge has mapped it to. */
  method SettleOn(d: State, typeId: nat, candId: nat)
    requires d.Inv() && typeId < |d.types| && candId < |d.types| && typeId != candId
    requires d.canon[candId] == candId && Keeps(d.types[typeId], d.types[candId])
    requires forall e :: e in d.table.Contents() ==> e.value != typeId
    modifies d`canon
    ensures d.Inv() && d.canon == old(d.canon)[typeId := candId]
  {
    hide Signature, Refs, Recorded, Listed, Complete, Distinct, IsDeduped, Keeps;
    hide Hashmap.Table.Valid, Hashmap.All;
    LinkToEnd(d.canon, typeId, candId);
    SettleOnTable(d.types, d.canon, d.startId, d.table.Contents(), typeId, candId);
    d.canon := d.canon[typeId := candId];
  }

  predicate IsGraphKind(t: Type) {
    IsComposite(t) || t.kind.Typedef?
  }

  /** Entries of forward declarations may change, and unmapped structs, unions and typedefs get mapped. */
  ghost predicate StructStep(g: seq<Type>, m: seq<nat>, m': seq<nat>) {
    |m| == |m'| == |g| &&
    forall j :: 0 <= j < |m| && m'[j] != m[j] ==>
      Mapped(m'[j]) && (g[j].kind.Fwd? || (IsGraphKind(g[j]) && !Mapped(m[j])))
  }

  lemma MergeThenSettle(g: seq<Type>, m: seq<nat>, m1: seq<nat>, fwdsOnly: bool, typeId: nat, newId: nat)
    requires MergeOf(g, m, m1, fwdsOnly) && typeId < |g| && newId < |g| <= MAX_NR_TYPES + 1
    requires IsGraphKind(g[typeId]) && !Mapped(m[typeId])
    ensures StructStep(g, m, m1[typeId := newId])
  {
  }

  lemma SoundSettle(g: seq<Type>, m: seq<nat>, typeId: nat, newId: nat)
    requires ValidGraph(g) && Sound(g, m) && typeId < |g| && newId < |g| && Equivalent(g, typeId, newId)
    ensures Sound(g, m[typeId := newId])
  {
    hide Unfold;
  }

  lemma NotListed(g: seq<Type>, m: seq<nat>, entries: multiset<Hashmap.Entry>, id: nat)
    requires ValidGraph(g) && |m| == |g| && Listed(g, m, entries) && id < |g| && !Mapped(m[id])
    ensures forall e :: e in entries ==> e.value != id
  {
    hide Signature;
  }

  lemma EqualByKindKeeps(t: Type, cand: Type)
    requires WellFormed(t) && WellFormed(cand) && IsGraphKind(t) && EqualByKind(t, cand)
    ensures Keeps(t, cand) && cand.kind == t.kind
  {
  }

  /** Match a type with one candidate after the other, until one matches or the walk fails. */
  method TryAll(d: State, typeId: nat, ids: seq<nat>, budget: nat) returns (eq: Answer, candId: nat)
    requires d.Inv() && typeId < |d.types| && IsGraphKind(d.types[typeId]) && !Mapped(d.canon[typeId])
    requires forall i :: 0 <= i < |ids| ==>
      ids[i] < |d.types| && Hashmap.Entry(Signature(d.types[typeId]), ids[i]) in d.table.Contents()
    requires forall j: nat :: Hashmap.Entry(Signature(d.types[typeId]), j) in d.table.Contents() ==> j in ids
    modifies d`canon, d`hypotMap, d`hypotList, d`hypotAdjustCanon
    ensures d.Inv() && MergeOf(d.types, old(d.canon), d.canon, eq != Same)
    ensures eq == Same ==>
      candId < |d.types| && candId != typeId && d.canon[candId] == candId && Keeps(d.types[typeId], d.types[candId])
    ensures NothingToResolve(d.types) && Sound(d.types, old(d.canon)) ==>
      Sound(d.types, d.canon) && (eq == Same ==> Equivalent(d.types, typeId, candId))
    ensures NoCandidate(d.types, d.table.Contents(), typeId) ==> eq == Differs && d.canon == old(d.canon)
    ensures d.plenty ==>
      forall e :: AllFail(d.types, old(d.canon), d.table.Contents(), typeId, budget, e) ==> eq == Error(e)
  {
    hide Signature, Refs, Recorded, Listed, Complete, Distinct, Sound, NothingToResolve, MergeOf, AllKeep, Keeps;
    hide EqualByKind, Equivalent, Acyclic, Hashmap.Table.Valid, Hashmap.All, Walk, AllFail, NoCandidate;
    var t := d.types[typeId];
    NotListed(d.types, d.canon, d.table.Contents(), typeId);
    NoMerge(d.types, d.canon, true);
    ghost var met := false;
    var i := 0;
    candId := typeId;
    while i < |ids|
      invariant i <= |ids| && d.Inv() && !Mapped(d.canon[typeId])
      invariant !met ==> d.canon == old(d.canon) && forall k :: 0 <= k < i ==> !EqualByKind(t, d.types[ids[k]])
      invariant met ==> !NoCandidate(d.types, d.table.Contents(), typeId)
      invariant met && d.plenty ==>
        forall e :: !AllFail(d.types, old(d.canon), d.table.Contents(), typeId, budget, e)
      invariant MergeOf(d.types, old(d.canon), d.canon, true)
      invariant NothingToResolve(d.types) && Sound(d.types, old(d.canon)) ==> Sound(d.types, d.canon)
    {
      candId := ids[i];
      if EqualByKind(t, d.types[candId]) {
        EqualByKindKeeps(t, d.types[candId]);
        ListedAt(d.types, d.canon, d.table.Contents(), Signature(t), candId);
        ghost var m := d.canon;
        CandidateMet(d.types, m, d.table.Contents(), typeId, candId, budget);
        eq := TryCandidate(d, typeId, candId, budget);
        MergeChanges(d.types, m, d.canon, eq != Same, typeId, candId);
        if eq == Same {
          MergeBoth(d.types, old(d.canon), m, d.canon);
          return;
        }
        MergeMore(d.types, old(d.canon), m, d.canon, true);
        if eq != Differs {
          return;
        }
        met := true;
      }
      i := i + 1;
    }
    if !met {
      NoneMet(d.types, old(d.canon), d.table.Contents(), typeId, ids, budget);
    }
    eq := Differs;
  }

  /** The type has become canonical, and nothing else has changed. */
  ghost predicate BecomesCanonical(g: seq<Type>, m: seq<nat>, entries: multiset<Hashmap.Entry>, m': seq<nat>,
                                   entries': multiset<Hashmap.Entry>, typeId: nat)
    requires ValidGraph(g) && typeId < |g| == |m|
  {
    m' == m[typeId := typeId] && entries' == entries + multiset{Hashmap.Entry(Signature(g[typeId]), typeId)}
  }

  /** Find or become the canonical type, for one struct, union or typedef. */
  method StructType(d: State, typeId: nat, budget: nat) returns (r: Status)
    requires d.Inv() && typeId < |d.types|
    modifies d`canon, d`hypotMap, d`hypotList, d`hypotAdjustCanon, d.table
    ensures d.Ok()
    ensures r == Done ==> d.Inv() && StructStep(d.types, old(d.canon), d.canon)
    ensures r == Done && IsGraphKind(d.types[typeId]) ==> Mapped(d.canon[typeId])
    ensures r == Done && NothingToResolve(d.types) && Sound(d.types, old(d.canon)) ==> Sound(d.types, d.canon)
    ensures d.plenty && !Mapped(old(d.canon)[typeId]) ==>
      forall e :: AllFail(d.types, old(d.canon), old(d.table.Contents()), typeId, budget, e) ==> r == Fail(e)
    ensures d.plenty && old(d.table.sz) < Hashmap.MANY && !Mapped(old(d.canon)[typeId]) ==>
      NoCandidate(d.types, old(d.table.Contents()), typeId) ==>
      r == Done && BecomesCanonical(d.types, old(d.canon), old(d.table.Contents()), d.canon, d.table.Contents(), typeId)
  {
    hide Signature, Refs, Recorded, Listed, Complete, Distinct, Sound, NothingToResolve, MergeOf, AllKeep, Keeps;
    hide EqualByKind, Equivalent, Acyclic, StructStep, Hashmap.Table.Valid, Hashmap.All, Walk, AllFail, NoCandidate;
    var t := d.types[typeId];
    if Mapped(d.canon[typeId]) || !IsGraphKind(t) {
      NoStructStep(d.types, d.canon);
      OfNoOtherKind(d.types, d.canon, d.table.Contents(), typeId, budget);
      return Done;
    }
    var ids := Sharing(d, Signature(t));
    NotListed(d.types, d.canon, d.table.Contents(), typeId);
    var eq, candId := TryAll(d, typeId, ids, budget);
    MergeThenSettle(d.types, old(d.canon), d.canon, eq != Same, typeId, if eq == Same then candId else typeId);
    match eq
    case Error(e) => return Fail(e);
    case Same =>
      if Sound(d.types, d.canon) && Equivalent(d.types, typeId, candId) {
        SoundSettle(d.types, d.canon, typeId, candId);
      }
      SettleOn(d, typeId, candId);
      return Done;
    case Differs =>
      MergeKeepsUnmapped(d.types, old(d.canon), d.canon, typeId);
      if Sound(d.types, d.canon) {
        SelfEquivalent(d.types, typeId);
        SoundSettle(d.types, d.canon, typeId, typeId);
      }
      r := Settle(d, typeId, typeId);
  }

  lemma OfNoOtherKind(g: seq<Type>, m: seq<nat>, entries: multiset<Hashmap.Entry>, typeId: nat, budget: nat)
    requires ValidGraph(g) && Acyclic(m) && |m| == |g| <= MAX_NR_TYPES + 1 && typeId < |g|
    ensures !IsGraphKind(g[typeId]) ==>
      !NoCandidate(g, entries, typeId) && forall e :: !AllFail(g, m, entries, typeId, budget, e)
  {
    hide Walk, Signature;
  }

  lemma MergeKeepsUnmapped(g: seq<Type>, m: seq<nat>, m': seq<nat>, typeId: nat)
    requires MergeOf(g, m, m', true) && typeId < |g| <= MAX_NR_TYPES + 1 && IsGraphKind(g[typeId])
    ensures m'[typeId] == m[typeId]
  {
  }

  lemma NoStructStep(g: seq<Type>, m: seq<nat>)
    requires |m| == |g|
    ensures StructStep(g, m, m)
  {
  }

  lemma MergeBoth(g: seq<Type>, m: seq<nat>, m1: seq<nat>, m2: seq<nat>)
    requires MergeOf(g, m, m1, true) && MergeOf(g, m1, m2, false)
    ensures MergeOf(g, m, m2, false)
  {
  }

  lemma MergeChanges(g: seq<Type>, m: seq<nat>, m': seq<nat>, fwdsOnly: bool, typeId: nat, candId: nat)
    requires MergeOf(g, m, m', fwdsOnly) && typeId < |g| && candId < |g| <= MAX_NR_TYPES + 1
    requires IsGraphKind(g[typeId]) && IsGraphKind(g[candId]) && m[candId] == candId
    ensures m'[candId] == candId && (fwdsOnly ==> m'[typeId] == m[typeId])
  {
  }

  /** All own structs, unions and typedefs. */
  method StructTypes(d: State, budget: nat) returns (r: Status)
    requires d.Inv()
    modifies d`canon, d`hypotMap, d`hypotList, d`hypotAdjustCanon, d.table
    ensures d.Ok()
    ensures r == Done ==> d.Inv() && StructStep(d.types, old(d.canon), d.canon)
    ensures r == Done ==> forall i :: d.startId <= i < |d.types| && IsGraphKind(d.types[i]) ==> Mapped(d.canon[i])
    ensures r == Done && NothingToResolve(d.types) && Sound(d.types, old(d.canon)) ==> Sound(d.types, d.canon)
  {
    hide Refs, Recorded, Listed, Complete, Distinct, Sound, NothingToResolve, AllKeep, Acyclic;
    hide Hashmap.Table.Valid, Hashmap.All;
    var id := d.startId;
    while id < |d.types|
      invariant d.startId <= id <= |d.types| && d.Inv()
      invariant StructStep(d.types, old(d.canon), d.canon)
      invariant forall i :: d.startId <= i < id && IsGraphKind(d.types[i]) ==> Mapped(d.canon[i])
      invariant NothingToResolve(d.types) && Sound(d.types, old(d.canon)) ==> Sound(d.types, d.canon)
    {
      r := StructType(d, id, budget);
      if r != Done {
        return;
      }
      id := id + 1;
    }
    r := Done;
  }
}
