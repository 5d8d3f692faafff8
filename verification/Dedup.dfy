/** Deduplication as a whole. */
module Dedup {
  import opened Options
  import opened BtfTypes
  import opened Meaning
  import opened TypeEquality
  import opened CanonMap
  import opened GraphMatch
  import opened DedupState
  import opened PrepPass
  import opened StringPass
  import opened PrimPass
  import opened StructPass
  import opened FwdPass
  import opened RefPass
  import opened CompactPass
  import opened DedupResult
  import Hashmap
  import Strset

  // ----- the map between passes -----

  /** Base types are canonical, but for forward declarations and empty enums that have given way. */
  ghost predicate BaseKept(g: seq<Type>, m: seq<nat>, start: nat) {
    |m| == |g| && start <= |g| &&
    forall b :: 0 <= b < start ==> Mapped(m[b]) && (m[b] == b || g[b].kind.Fwd? || IsEnumFwd(g[b]))
  }

  /** Of the own types, those of reference kinds wait for their pass, and all others are mapped. */
  ghost predicate OnlyRefsLeft(g: seq<Type>, m: seq<nat>, start: nat) {
    |m| == |g| && start <= |g| &&
    forall i :: start <= i < |g| ==> if IsRefKind(g[i].kind) then m[i] == UNPROCESSED else Mapped(m[i])
  }

  lemma PassesLeaveRefs(g: seq<Type>, m0: seq<nat>, m1: seq<nat>, m2: seq<nat>, m3: seq<nat>, start: nat)
    requires 0 < start <= |g| <= MAX_NR_TYPES + 1 && OwnFresh(g, m0, start)
    requires forall b :: 0 <= b < start ==> m0[b] == b
    requires PrimStepOf(g, m0, m1) && StructStep(g, m1, m2) && FwdsResolved(g, m2, m3, start, |g|) && ValidMap(m3)
    requires forall i :: start <= i < |g| ==> if IsPrimKind(g[i].kind) then Mapped(m1[i]) else IsLater(g[i].kind)
    requires forall i :: start <= i < |g| && IsGraphKind(g[i]) ==> Mapped(m2[i])
    ensures BaseKept(g, m3, start) && OnlyRefsLeft(g, m3, start)
  {
    hide FwdResolved;
    forall j | 0 <= j < |g|
      ensures Mapped(m2[j]) ==> Mapped(m3[j])
      ensures m3[j] != m2[j] ==> start <= j && g[j].kind.Fwd?
    {
      assert m3[j] != m2[j] ==> FwdResolved(g, m2, m3, j);
      FwdTargetMapped(g, m2, m3, start, j);
    }
  }

  lemma FwdTargetMapped(g: seq<Type>, m: seq<nat>, m': seq<nat>, start: nat, j: nat)
    requires FwdsResolved(g, m, m', start, |g|) && j < |g| <= MAX_NR_TYPES + 1
    ensures Mapped(m[j]) ==> Mapped(m'[j])
  {
    if m'[j] != m[j] {
      assert FwdResolved(g, m, m', j);
      assert m'[j] in Bearers(g, m, |g|, g[j].name);
    }
  }

  /** Nothing mapped leads to a type that waits. */
  lemma SettledBeforeRefs(g: seq<Type>, m: seq<nat>, start: nat)
    requires ValidMap(m) && AllKeep(g, m) && BaseKept(g, m, start) && OnlyRefsLeft(g, m, start)
    ensures Settled(m)
  {
    forall j | 0 <= j < |m| && m[j] < |m|
      ensures Mapped(m[m[j]])
    {
      assert Keeps(g[j], g[m[j]]);
    }
  }

  lemma AllSettled(m: seq<nat>)
    requires Acyclic(m) && Settled(m) && forall i :: 0 <= i < |m| ==> Mapped(m[i])
    ensures AllCanonical(m)
  {
    hide Acyclic, Settled;
    forall i | 0 <= i < |m|
      ensures m[Resolve(m, i)] == Resolve(m, i)
    {
      SettledResolve(m, i);
    }
  }

  /** What the passes up to the last reference type leave for compaction. */
  ghost predicate Ready(g1: seq<Type>, g2: seq<Type>, m: seq<nat>, start: nat) {
    && ValidGraph(g1) && ValidGraph(g2) && |g1| == |g2| == |m| <= MAX_NR_TYPES + 1 && 0 < start <= |m|
    && AllCanonical(m) && AllKeep(g2, m) && Distinct(g2, m, start) && BaseKept(g2, m, start)
    && g2[..start] == g1[..start]
    && (forall i :: 0 <= i < |m| ==> Shape(g2[i]) == Shape(g1[i]))
    && (forall i :: 0 < i < |m| ==> !g2[i].kind.Other?)
    && (forall i :: start <= i < |m| && IsRefKind(g2[i].kind) ==> CanonRefs(g2, m, i))
    && (NothingToResolve(g1) ==> Sound(g2, m) && SameUnfold(g1, g2))
  }

  lemma MakeReady(g1: seq<Type>, m3: seq<nat>, g2: seq<Type>, m: seq<nat>, start: nat)
    requires ValidGraph(g1) && |g1| <= MAX_NR_TYPES + 1 && 0 < start <= |g1|
    requires BaseKept(g1, m3, start) && OnlyRefsLeft(g1, m3, start)
    requires RefStep(g1, m3, g2, m, |g1|) && Faithful(g1, m3, g2, m)
    requires Acyclic(m) && Settled(m) && AllKeep(g2, m) && Distinct(g2, m, start)
    requires forall i :: start <= i < |g1| ==> Mapped(m[i])
    requires forall i :: 0 < i < |g1| ==> !g1[i].kind.Other?
    requires NothingToResolve(g1) ==> Sound(g1, m3)
    ensures Ready(g1, g2, m, start)
  {
    hide Refs, Shape, Sound, NothingToResolve, Acyclic, Settled, AllKeep, Distinct, CanonRefs, SameUnfold;
    forall i | 0 <= i < |m|
      ensures Mapped(m[i]) && Shape(g2[i]) == Shape(g1[i]) && g2[i].kind == g1[i].kind && g2[i].vlen == g1[i].vlen
    {
      KindOfShape(g1[i]);
      KindOfShape(g2[i]);
    }
    AllSettled(m);
  }

  lemma KindOfShape(t: Type)
    requires WellFormed(t)
    ensures Shape(t).kind == t.kind && Shape(t).vlen == t.vlen && Shape(t).kflag == t.kflag && Shape(t).name == t.name
  {
  }

  // ----- the passes in order -----

  /** A type graph over a base, with its string sections, as it is before deduplication. */
  ghost predicate Input(g: seq<Type>, start: nat, base: Strset.Set, strs: string, own: Option<Section>)
    reads base
  {
    && ValidGraph(g) && |g| <= MAX_NR_TYPES + 1 && 0 < start <= |g| && BaseClosed(g, start)
    && Sections(base, strs)
    && (forall i :: 0 <= i < start ==> InRange(Names(g[i]), |base.data|))
    && (forall i :: start <= i < |g| ==> InRange(Names(g[i]), |base.data| + |strs|))
    && (own.Some? ==> DedupedBefore(g, start, SectionOf(base), strs, own.value))
  }

  /** The first two passes: base types are loaded, and names are moved to a string section of their own. */
  method Prepare(d: State, base: Strset.Set, strs: string, own: Option<Section>)
    returns (r: Status, now: Strset.Set)
    requires d.Inv() && OwnFresh(d.types, d.canon, d.startId) && d.table.Contents() == multiset{}
    requires forall i :: 0 <= i < d.startId ==> d.canon[i] == InitialEntry(d.types, i)
    requires Input(d.types, d.startId, base, strs, own)
    modifies d`canon, d`types, d.table
    ensures fresh(now) && now.Valid() && |d.types| == old(|d.types|)
    ensures r == Done ==> d.Inv() && Unmerged(d.types, d.canon, d.startId)
    ensures r == Done ==> Renamed(old(d.types), d.types, d.startId, |d.types|, SectionOf(base), strs, SectionOf(now))
  {
    hide Signature, Refs, Names, Shape, Recorded, Listed, Complete, Distinct, AllKeep, Acyclic, RenamedType;
    hide Hashmap.Table.Valid, Hashmap.All, DedupState.InitialEntry;
    now := new Strset.Set();
    r := Prep(d);
    if r != Done {
      return;
    }
    FreshSelf(d.types, d.canon, d.startId);
    r, now := DedupStrings(d, base, strs, own);
  }

  /** Every base type is canonical, and no own type is mapped that deduplication treats. */
  ghost predicate Unmerged(g: seq<Type>, m: seq<nat>, start: nat) {
    && 0 < start <= |g| <= MAX_NR_TYPES + 1 && OwnFresh(g, m, start)
    && (forall b :: 0 <= b < start ==> m[b] == b && (b > 0 ==> !g[b].kind.Other?))
  }

  /** Everything but the own types of reference kinds has found its canonical type. */
  ghost predicate Merged(g: seq<Type>, m: seq<nat>, start: nat) {
    && ValidGraph(g) && Settled(m) && BaseKept(g, m, start) && OnlyRefsLeft(g, m, start)
    && (forall i :: 0 < i < |g| ==> !g[i].kind.Other?)
    && (NothingToResolve(g) ==> Sound(g, m))
  }

  method MergeTypes(d: State, budget: nat) returns (r: Status)
    requires d.Inv() && Unmerged(d.types, d.canon, d.startId)
    modifies d`canon, d`hypotMap, d`hypotList, d`hypotAdjustCanon, d.table
    ensures r == Done ==> d.Inv() && Merged(d.types, d.canon, d.startId)
  {
    hide Signature, Refs, Names, Shape, Recorded, Listed, Complete, Distinct, AllKeep, Acyclic, Settled;
    hide Sound, NothingToResolve, Hashmap.Table.Valid, Hashmap.All, PrimStepOf, StructStep, FwdsResolved;
    hide BaseKept, OnlyRefsLeft, IsPrimKind, IsRefKind;
    ghost var g, m0 := d.types, d.canon;
    FreshSelf(g, m0, d.startId);
    SelfSound(g, m0);
    r := PrimTypes(d);
    if r != Done {
      return;
    }
    ghost var m1 := d.canon;
    r := StructTypes(d, budget);
    if r != Done {
      return;
    }
    ghost var m2 := d.canon;
    r := ResolveFwds(d);
    if r != Done {
      return;
    }
    MakeMerged(g, m0, m1, m2, d.canon, d.startId);
  }

  lemma MakeMerged(g: seq<Type>, m0: seq<nat>, m1: seq<nat>, m2: seq<nat>, m3: seq<nat>, start: nat)
    requires ValidGraph(g) && Unmerged(g, m0, start) && Acyclic(m2) && Acyclic(m3) && AllKeep(g, m3)
    requires PrimStepOf(g, m0, m1) && StructStep(g, m1, m2) && FwdsResolved(g, m2, m3, start, |g|)
    requires forall i :: start <= i < |g| ==> if IsPrimKind(g[i].kind) then Mapped(m1[i]) else IsLater(g[i].kind)
    requires forall i :: start <= i < |g| && IsGraphKind(g[i]) ==> Mapped(m2[i])
    requires NothingToResolve(g) ==> Sound(g, m2)
    ensures Merged(g, m3, start)
  {
    hide Sound, NothingToResolve, PrimStepOf, StructStep, FwdsResolved, AllKeep, Acyclic, Settled, BaseKept,
      OnlyRefsLeft;
    if NothingToResolve(g) {
      NothingResolved(g, m2, m3, start, |g|);
    }
    AcyclicValid(m3);
    PassesLeaveRefs(g, m0, m1, m2, m3, start);
    SettledBeforeRefs(g, m3, start);
  }

  /** All passes that settle canonical types. */
  method RunPasses(d: State, base: Strset.Set, strs: string, own: Option<Section>, budget: nat)
    returns (r: Status, now: Strset.Set, ghost g1: seq<Type>)
    requires d.Inv() && OwnFresh(d.types, d.canon, d.startId) && d.table.Contents() == multiset{}
    requires forall i :: 0 <= i < d.startId ==> d.canon[i] == InitialEntry(d.types, i)
    requires Input(d.types, d.startId, base, strs, own)
    modifies d, d.table
    ensures fresh(now) && now.Valid()
    ensures r == Done ==> Ready(g1, d.types, d.canon, d.startId) && |d.hypotMap| == |d.types|
    ensures r == Done ==> Renamed(old(d.types), g1, d.startId, |g1|, SectionOf(base), strs, SectionOf(now))
  {
    hide Signature, Refs, Names, Shape, Listed, Complete, Distinct, AllKeep, Acyclic, Settled, RefStep, Renamed;
    hide Sound, NothingToResolve, Faithful, Hashmap.Table.Valid, Hashmap.All, Ready, BaseKept, OnlyRefsLeft, Sections;
    r, now := Prepare(d, base, strs, own);
    g1 := d.types;
    if r != Done {
      return;
    }
    r := MergeTypes(d, budget);
    if r != Done {
      return;
    }
    ghost var m := d.canon;
    r := AllRefTypes(d);
    if r != Done {
      return;
    }
    MakeReady(g1, m, d.types, d.canon, d.startId);
  }

  lemma FreshSelf(g: seq<Type>, m: seq<nat>, start: nat)
    requires OwnFresh(g, m, start) && 0 < start && |g| <= MAX_NR_TYPES + 1
    requires forall b :: 0 <= b < start && b < |g| ==> m[b] == b
    ensures SelfOnly(m)
  {
  }

  lemma SelfSound(g: seq<Type>, m: seq<nat>)
    requires ValidGraph(g) && |m| == |g| <= MAX_NR_TYPES + 1 && SelfOnly(m)
    ensures Sound(g, m) && Settled(m)
  {
    hide Unfold;
  }

  // ----- the result -----

  /** The name reads as before, and the kind is the same but for what forward declarations and empty
      enums may give way to. */
  ghost predicate KeepsName(t: Type, s: Strings, t': Type, s': Strings) {
    && (HasName(t.kind) ==> s'(t'.name) == s(t.name))
    && Keeps(t.(name := 0), t'.(name := 0))
  }

  /** What deduplication makes of a graph `g`, where `final` tells which type each type has become. */
  ghost predicate Deduplicated(g: seq<Type>, s: Strings, start: nat, g': seq<Type>, s': Strings, final: seq<nat>) {
    && ValidGraph(g) && ValidGraph(g') && 0 < start <= |g'| <= |g| && start <= |g|
    && g'[..start] == g[..start]
    && |final| == |g| && InRange(final, |g'|)
    && (forall b :: 0 <= b < start ==> final[b] == b || g[b].kind.Fwd? || IsEnumFwd(g[b]))
    && (forall x :: start <= x < |g'| ==> IsFinal(final, x, start))
    && (forall i :: 0 <= i < |g| ==> KeepsName(g[i], s, g'[final[i]], s'))
    && NoDuplicates(g', start)
    && (NothingToResolveByName(g, s) ==>
          forall i, k: nat :: 0 <= i < |g| ==> Means(g', s', final[i], k) == Means(g, s, i, k))
  }

  ghost predicate IsFinal(final: seq<nat>, x: nat, start: nat) {
    exists i :: start <= i < |final| && final[i] == x
  }

  /** No own type without members of its own is there twice, nor in the base. Forward declarations and
      empty enums of the base are left out of the comparison, since an own type may have replaced them. */
  ghost predicate NoDuplicates(g: seq<Type>, start: nat) {
    forall x, y :: (start <= x < |g| && 0 <= y < |g| && x != y && IsDeduped(g[x].kind) &&
                    (g[x].kind.Fwd? ==> g[x].st == 0) && (y < start ==> !g[y].kind.Fwd? && !IsEnumFwd(g[y]))) ==>
      g[x] != g[y]
  }

  ghost function FinalIds(m: seq<nat>, start: nat): (f: seq<nat>)
    requires Acyclic(m) && start <= |m|
    ensures |f| == |m| && forall i :: 0 <= i < |m| ==> f[i] == FinalId(m, start, i)
  {
    seq(|m|, i requires 0 <= i < |m| => FinalId(m, start, i))
  }

  lemma FinalMeaning(g1: seq<Type>, g2: seq<Type>, m: seq<nat>, start: nat, s: Strings, i: nat, k: nat)
    requires Ready(g1, g2, m, start) && BaseClosed(g2, start) && NothingToResolve(g1) && i < |m|
    requires ValidGraph(Remapped(g2, m, start))
    ensures FinalId(m, start, i) < |Remapped(g2, m, start)|
    ensures Means(Remapped(g2, m, start), s, FinalId(m, start, i), k) == Means(g1, s, i, k)
  {
    hide Refs, Remapped, FinalId, Acyclic, AllKeep, Distinct, Sound, NothingToResolve, CanonRefs, Shape, Keeps,
      BaseKept;
    RemappedUnfold(g2, m, start, i, k);
    MeaningOfUnfold(Remapped(g2, m, start), g2, s, FinalId(m, start, i), i, k);
    MeaningOfUnfold(g2, g1, s, i, i, k);
  }

  lemma FinalKeeps(g1: seq<Type>, g2: seq<Type>, m: seq<nat>, start: nat, i: nat)
    requires Ready(g1, g2, m, start) && i < |m|
    ensures FinalId(m, start, i) < |Remapped(g2, m, start)|
    ensures Keeps(g1[i], Remapped(g2, m, start)[FinalId(m, start, i)])
  {
    hide Refs, Remapped, Acyclic, AllKeep, Distinct, Sound, NothingToResolve, CanonRefs, Shape, BaseKept, Survivors;
    var r := Resolve(m, i);
    ResolveKeeps(g2, m, i);
    KindOfShape(g1[i]);
    KindOfShape(g2[i]);
    FinalIdBounded(m, start, i);
    if r < start {
      BasePrefix(g2, m, start);
      assert Remapped(g2, m, start)[..start][r] == g2[..start][r];
    } else {
      RemappedAt(g2, m, start, r);
    }
  }

  /** The canonical type that has become `x`. */
  lemma Origin(g: seq<Type>, m: seq<nat>, start: nat, x: nat) returns (i: nat)
    requires ValidGraph(g) && AllCanonical(m) && start <= |m| == |g| && start <= x < |Remapped(g, m, start)|
    ensures start <= i < |m| && m[i] == i && NewId(m, start, i) == x && FinalId(m, start, i) == x
    ensures Remapped(g, m, start)[x] == WithRefs(g[i], FinalRefs(m, start, Refs(g[i])))
  {
    hide Refs, Acyclic, WithRefs, FinalRefs;
    i := Survivors(m, start, |m|)[x - start];
    SurvivorIndex(m, start, x - start);
  }

  /** Only void becomes void. */
  lemma OnlyVoidIsZero(g: seq<Type>, m: seq<nat>, start: nat, i: nat)
    requires ValidGraph(g) && AllCanonical(m) && AllKeep(g, m) && 0 < start <= |m| == |g| && i < |m| &&
      FinalId(m, start, i) == 0
    ensures i == 0
  {
    hide Refs, Acyclic, AllKeep;
    ResolveKeeps(g, m, i);
  }

  lemma FwdCanonRefs(g: seq<Type>, m: seq<nat>, start: nat, i: nat)
    requires ValidGraph(g) && AllCanonical(m) && AllKeep(g, m) && 0 < start <= i < |m| == |g|
    requires g[i].kind.Fwd? && WithRefs(g[i], FinalRefs(m, start, Refs(g[i]))).st == 0
    ensures CanonRefs(g, m, i)
  {
    hide AllKeep, FinalId, Cols, WithCols, FinalRefs;
    PrimRefs(g[i]);
    FinalRefAt(m, start, Refs(g[i]), 0);
    OnlyVoidIsZero(g, m, start, g[i].st);
    ResolveKeeps(g, m, 0);
  }

  lemma PrimRefs(t: Type)
    requires WellFormed(t) && IsPrimKind(t.kind)
    ensures Refs(t) == if t.kind.Fwd? then [t.st] else []
  {
    NoCols(RefLo(t.kind), t.elems);
  }

  lemma FinalCanonRefs(g: seq<Type>, m: seq<nat>, start: nat, i: nat)
    requires ValidGraph(g) && AllCanonical(m) && AllKeep(g, m) && 0 < start <= i < |m| == |g|
    requires IsDeduped(g[i].kind) && (IsRefKind(g[i].kind) ==> CanonRefs(g, m, i))
    requires g[i].kind.Fwd? ==> WithRefs(g[i], FinalRefs(m, start, Refs(g[i]))).st == 0
    ensures CanonRefs(g, m, i)
  {
    hide AllKeep, FinalRefs, Refs, WithRefs, Acyclic;
    if g[i].kind.Fwd? {
      FwdCanonRefs(g, m, start, i);
    } else if IsPrimKind(g[i].kind) {
      PrimRefs(g[i]);
    }
  }

  lemma FinalDistinct(g1: seq<Type>, g2: seq<Type>, m: seq<nat>, start: nat)
    requires Ready(g1, g2, m, start) && BaseClosed(g2, start)
    ensures NoDuplicates(Remapped(g2, m, start), start)
  {
    hide Refs, Acyclic, AllKeep, Sound, NothingToResolve, CanonRefs, Shape, SameUnfold, WithRefs, FinalRefs, Remapped,
      Mapped;
    var g' := Remapped(g2, m, start);
    forall x, y | start <= x < |g'| && 0 <= y < |g'| && x != y && IsDeduped(g'[x].kind)
      && (g'[x].kind.Fwd? ==> g'[x].st == 0) && (y < start ==> !g'[y].kind.Fwd? && !IsEnumFwd(g'[y]))
      ensures g'[x] != g'[y]
    {
      var i := Origin(g2, m, start, x);
      FinalCanonRefs(g2, m, start, i);
      BasePrefix(g2, m, start);
      if y < start {
        assert g'[y] == g'[..start][y] == g2[..start][y];
        StillDistinctFromBase(g2, m, start, i, y);
      } else if g'[x] == g'[y] {
        var j := Origin(g2, m, start, y);
        FinalCanonRefs(g2, m, start, j);
        StillDistinct(g2, m, start, i, j);
      }
    }
  }

  /** The passes together with compaction and rewriting make what is promised. */
  lemma MakeDeduplicated(g: seq<Type>, g1: seq<Type>, g2: seq<Type>, m: seq<nat>, start: nat, base: Section,
                         strs: string, now: Section)
    requires ValidGraph(g) && Ready(g1, g2, m, start) && BaseClosed(g, start)
    requires Renamed(g, g1, start, |g1|, base, strs, now)
    requires forall b :: 0 <= b < start ==> InRange(Names(g[b]), |base.data|)
    ensures Deduplicated(g, Reading(base.data, strs), start, Remapped(g2, m, start), Reading(base.data, now.data),
      FinalIds(m, start))
  {
    hide Refs, Names, Acyclic, AllKeep, Sound, NothingToResolve, CanonRefs, Shape, SameUnfold, Remapped, FinalId,
      Distinct, RenamedType, NoDuplicates, NothingToResolveByName, KeepsName;
    var g', s, s', f := Remapped(g2, m, start), Reading(base.data, strs), Reading(base.data, now.data),
      FinalIds(m, start);
    BasePrefix(g2, m, start);
    assert forall b :: 0 <= b < start ==> g2[..start][b] == g1[..start][b] == g[b];
    assert g'[..start] == g[..start];
    RemappedValid(g2, m, start);
    FinalDistinct(g1, g2, m, start);
    forall i | 0 <= i < |g|
      ensures f[i] < |g'| && KeepsName(g[i], s, g'[f[i]], s')
    {
      FinalKeeps(g1, g2, m, start, i);
      RenamedKeeps(g, g1, start, base, strs, now, i);
      KeepsComposed(g[i], s, g1[i], s', g'[f[i]]);
    }
    forall b | 0 <= b < start
      ensures f[b] == b || g[b].kind.Fwd? || IsEnumFwd(g[b])
    {
      BaseFinal(g2, m, start, b);
    }
    forall x | start <= x < |g'|
      ensures IsFinal(f, x, start)
    {
      var i := Origin(g2, m, start, x);
      assert f[i] == x;
    }
    if NothingToResolveByName(g, s) {
      RenamedCondition(g, g1, start, base, strs, now);
      forall i, k: nat | 0 <= i < |g|
        ensures Means(g', s', f[i], k) == Means(g, s, i, k)
      {
        FinalMeaning(g1, g2, m, start, s', i, k);
        RenamedMeaning(g, g1, start, base, strs, now, i, k);
      }
    }
  }

  lemma RenamedKeeps(g: seq<Type>, g1: seq<Type>, start: nat, base: Section, strs: string, now: Section, i: nat)
    requires ValidGraph(g) && Renamed(g, g1, start, |g1|, base, strs, now) && i < |g|
    requires forall b :: 0 <= b < start ==> InRange(Names(g[b]), |base.data|)
    ensures KeepsName(g[i], Reading(base.data, strs), g1[i], Reading(base.data, now.data))
    ensures g1[i].kind == g[i].kind && g1[i].vlen == g[i].vlen && g1[i].kflag == g[i].kflag
  {
    hide Refs, RenamedType, Cols;
    if i >= start {
      RenamedParts(g[i], g1[i], base, strs, now);
      if HasName(g[i].kind) {
        NameReads(g[i], g1[i], base, strs, now);
      }
    } else if HasName(g[i].kind) {
      assert Names(g[i])[0] == g[i].name;
    }
  }

  lemma KeepsComposed(t: Type, s: Strings, t1: Type, s': Strings, t2: Type)
    requires KeepsName(t, s, t1, s') && t1.kind == t.kind && t1.vlen == t.vlen && t1.kflag == t.kflag && Keeps(t1, t2)
    ensures KeepsName(t, s, t2, s')
  {
  }

  lemma BaseFinal(g: seq<Type>, m: seq<nat>, start: nat, b: nat)
    requires Acyclic(m) && BaseKept(g, m, start) && b < start
    ensures FinalId(m, start, b) == b || g[b].kind.Fwd? || IsEnumFwd(g[b])
  {
    hide Acyclic;
  }

  /** Deduplicate the types from `start` on. The base types stay as they are. */
  method Dedup(g: seq<Type>, start: nat, base: Strset.Set, strs: string, own: Option<Section>, forceCollisions: bool,
               plenty: bool, budget: nat)
    returns (r: Status, g': seq<Type>, now: Strset.Set, ghost final: seq<nat>)
    requires Input(g, start, base, strs, own)
    ensures fresh(now) && now.Valid()
    ensures r == Done ==> Deduplicated(g, Reading(base.data, strs), start, g', Reading(base.data, now.data), final)
  {
    hide Ready, Deduplicated, Sections, Renamed, Acyclic, AllCanonical, BaseClosed, Compacted, Remapped, NewId, Shape,
      Refs, Names;
    hide Signature, Listed, Complete, Distinct, AllKeep;
    var table := new Hashmap.Table(if forceCollisions then (_: int) => 0 else (k: int) => k % 0x1_0000_0000_0000_0000,
                                   (a: int, b: int) => a == b);
    var d := new State(g, start, table, plenty);
    NothingListed(g, d.canon, start);
    g', final := g, [];
    ghost var g1;
    r, now, g1 := RunPasses(d, base, strs, own, budget);
    if r != Done {
      return;
    }
    ghost var g2 := d.types;
    ReadyParts(g1, g2, d.canon, start);
    CompactTypes(d);
    r := RemapTypes(d, g2);
    g', final := d.types, FinalIds(d.canon, start);
    MakeDeduplicated(g, g1, g2, d.canon, start, SectionOf(base), strs, SectionOf(now));
  }

  lemma NothingListed(g: seq<Type>, m: seq<nat>, start: nat)
    requires ValidGraph(g) && OwnFresh(g, m, 0) && |g| <= MAX_NR_TYPES + 1
    ensures Listed(g, m, multiset{}) && Complete(g, m, multiset{}) && Distinct(g, m, start)
  {
    hide Signature;
  }

  lemma ReadyParts(g1: seq<Type>, g2: seq<Type>, m: seq<nat>, start: nat)
    requires Ready(g1, g2, m, start)
    ensures ValidGraph(g2) && |g2| == |m| <= MAX_NR_TYPES + 1 && 0 < start <= |m| && AllCanonical(m) && Acyclic(m)
    ensures forall i :: 0 < i < |g2| ==> !g2[i].kind.Other?
  {
  }
}
