/** Relocation: own types move from a distilled base to a real one. */
module Relocate {
  import opened Options
  import opened BtfTypes
  import opened Meaning
  import opened GraphMatch
  import opened DedupState
  import opened NameIndex
  import opened Embedding
  import opened RelocateMap
  import opened StringPass
  import opened Rewrite
  import Strset

  /** No base type stands for `d`. */
  ghost predicate Unmatched(dist: Btf, base: Btf, g: seq<Type>, d: nat)
    requires ValidBtf(dist) && ValidBtf(base) && ValidGraph(g) && d < |dist.types|
  {
    forall b: nat :: !StandsFor(dist, base, g, b, d)
  }

  /** The distilled types that the lookup has come to in the index from `lo` up to `hi`. */
  ghost function Seen(info: seq<NameInfo>, lo: nat, hi: nat): set<nat>
    requires lo <= hi <= |info|
  {
    set i | lo <= i < hi :: info[i].id
  }

  lemma SeenNext(info: seq<NameInfo>, lo: nat, hi: nat)
    requires lo <= hi < |info| && forall i, j :: 0 <= i < j < |info| ==> info[i].id != info[j].id
    ensures Seen(info, lo, hi + 1) == Seen(info, lo, hi) + {info[hi].id} && info[hi].id !in Seen(info, lo, hi)
  {
  }

  /** A lookup that has seen every match is over. */
  lemma LookupOver(r: Relocation, n: nat, seen: set<nat>)
    requires r.Valid() && 0 < n < |r.base.types| && r.At(n, seen)
    requires forall d :: 0 < d < |r.dist.types| && d !in seen ==> !Found(r.dist, r.base, n, d)
    ensures r.At(n + 1, {})
  {
    hide Found, Embedded, Refs, EntryAt, ValidBtf, NamesSoFar;
    forall d | 0 < d < |r.dist.types|
      ensures EntryAt(r.dist, r.base, r.g, n + 1, d, r.ids[d])
    {
      if d !in seen {
        EntryKept(r.dist, r.base, r.g, n, d, r.ids[d]);
      }
    }
  }

  /** The index entries from `lo` up to `hi` are the matches of the key. */
  ghost predicate Run(info: seq<NameInfo>, key: NameInfo, lo: nat, hi: nat) {
    && lo <= hi <= |info|
    && (forall i :: 0 <= i < lo ==> !Alike(key, info[i]))
    && (forall i :: lo <= i < hi ==> Alike(key, info[i]))
    && (forall i :: hi <= i < |info| ==> !Alike(key, info[i]))
  }

  lemma RunIsAll(dist: Btf, info: seq<NameInfo>, key: NameInfo, lo: nat, hi: nat, d: nat)
    requires IndexOf(dist, info) && Run(info, key, lo, hi) && d < |dist.types| && d !in Seen(info, lo, hi)
    ensures !Alike(key, InfoOf(dist, d))
  {
    hide Cmp, Sorted;
    var i :| 0 <= i < |info| && info[i] == InfoOf(dist, d);
  }

  /** Look up one base type in the index of the distilled base. */
  method LookUp(r: Relocation, n: nat, info: seq<NameInfo>, cnt: seq<nat>) returns (s: Status)
    requires r.Valid() && 0 < n < |r.base.types| && r.At(n, {}) && IndexOf(r.dist, info) && 0 < |r.dist.types|
    requires |cnt| == |r.base.strs|
    requires forall off :: 0 < off < |cnt| ==> cnt[off] == Capped(|Namesakes(r.base.types, off, |r.base.types|)|)
    modifies r
    ensures r.Valid() && r.ids[0] == old(r.ids[0]) && r.ids[|r.dist.types|..] == old(r.ids[|r.dist.types|..])
    ensures s == Done ==> r.At(n + 1, {}) && !Found(r.dist, r.base, n, 0)
    ensures s != Done ==>
      Found(r.dist, r.base, n, 0) || exists d :: 0 < d < |r.dist.types| && Unmatched(r.dist, r.base, r.g, d)
  {
    hide Embedded, Refs, EntryAt, NamesSoFar, Sorted, Alike, Cmp, Relocation.At, Namesakes;
    var t := r.base.types[n];
    if t.name == 0 || !IsSearched(t.kind) {
      LookupOver(r, n, {});
      return Done;
    }
    var needsSize := if IsComposite(t) then cnt[t.name] > 1 else !t.kind.Fwd?;
    var key := NameInfo(NameOf(r.base, n), needsSize, if t.kind.Fwd? then 0 else Size31(t), n);
    assert key == KeyOf(r.base, n);
    var at := Search(key, info);
    var k := if at.Some? then at.value else |info|;
    ghost var lo := k;
    assert Seen(info, lo, lo) == {};
    while k < |info| && Cmp(key, info[k]) == 0
      invariant lo <= k <= |info| && (at.None? ==> k == |info|) && (at.Some? && k == lo ==> Alike(key, info[k]))
      invariant forall i :: lo <= i < k ==> Alike(key, info[i])
      invariant r.Valid() && r.At(n, Seen(info, lo, k)) && 0 !in Seen(info, lo, k)
      invariant r.ids[0] == old(r.ids[0]) && r.ids[|r.dist.types|..] == old(r.ids[|r.dist.types|..])
    {
      CmpAlike(key, info[k]);
      var d := info[k].id;
      assert Found(r.dist, r.base, n, d);
      if d == 0 {
        return Fail(Inval);
      }
      SeenNext(info, lo, k);
      s := r.Visit(n, d, Seen(info, lo, k));
      if s != Done {
        assert Unmatched(r.dist, r.base, r.g, d);
        return;
      }
      k := k + 1;
    }
    if k < |info| {
      CmpAlike(key, info[k]);
    }
    RunEnds(info, key, lo, k);
    forall d | 0 <= d < |r.dist.types| && d !in Seen(info, lo, k)
      ensures !Found(r.dist, r.base, n, d)
    {
      RunIsAll(r.dist, info, key, lo, k, d);
    }
    LookupOver(r, n, Seen(info, lo, k));
    s := Done;
  }

  lemma RunEnds(info: seq<NameInfo>, key: NameInfo, lo: nat, k: nat)
    requires Sized(info) && Sorted(info) && lo <= k <= |info|
    requires forall i :: 0 <= i < lo ==> !Alike(key, info[i])
    requires forall i :: lo <= i < k ==> Alike(key, info[i])
    requires k < |info| ==> lo < k && Cmp(key, info[k]) != 0
    ensures Run(info, key, lo, k)
  {
    hide Cmp, Alike, Sorted, Sized;
    if k < |info| {
      CmpAlike(key, info[k]);
      forall i | k <= i < |info|
        ensures !Alike(key, info[i])
      {
        NoLaterMatch(key, info, lo, k, i);
      }
    }
  }

  /** Find all base types. It works out if and only if each distilled type has the one that stands for it. */
  method MapDistilledBase(r: Relocation) returns (s: Status)
    requires r.Valid() && 0 < |r.dist.types|
    requires forall d :: 0 < d < |r.dist.types| ==> r.ids[d] == 0
    requires forall i :: 0 <= i < |r.strMap| ==> r.strMap[i] == 0
    modifies r
    ensures r.Valid() && (s == Done ==>
      r.ids[0] == old(r.ids[0]) && r.ids[|r.dist.types|..] == old(r.ids[|r.dist.types|..]))
    ensures s == Done <==> AllFound(r.dist, r.base, r.g)
    ensures s == Done ==> forall d :: 0 < d < |r.dist.types| ==> StandsFor(r.dist, r.base, r.g, r.ids[d], d)
  {
    hide Refs, EntryAt, Sorted, Namesakes, StandsFor, Found, Embedded, NamesSoFar, WalksEnd;
    var info := MakeIndex(r.dist);
    ghost var ids0 := r.ids;
    var marked;
    s, marked := MarkEmbedded(r.g, |r.dist.types|, r.ids);
    if s != Done {
      return;
    }
    StartEntries(r.dist, r.base, r.g, marked);
    NothingNamed(r.dist, r.base, r.ids, marked, r.strMap);
    r.ids := marked;
    OwnUnmarked(r.g, |r.dist.types|, ids0, marked);
    var cnt := CountNames(r.base);
    var n := 1;
    while n < |r.base.types|
      invariant 0 < n <= |r.base.types|
      invariant r.Valid() && r.At(n, {}) && r.ids[0] == ids0[0] && r.ids[|r.dist.types|..] == ids0[|r.dist.types|..]
      invariant !FindsVoid(r.dist, r.base, n)
    {
      s := LookUp(r, n, info, cnt);
      if s != Done {
        if Found(r.dist, r.base, n, 0) {
          assert FindsVoid(r.dist, r.base, |r.base.types|);
        }
        return;
      }
      n := n + 1;
    }
    s := Done;
    var id := 1;
    while id < |r.dist.types|
      invariant 0 < id <= |r.dist.types| && r.Valid() && r.At(n, {})
      invariant r.ids[0] == ids0[0] && r.ids[|r.dist.types|..] == ids0[|r.dist.types|..]
      invariant forall d :: 0 < d < id ==> StandsFor(r.dist, r.base, r.g, r.ids[d], d)
    {
      assert EntryAt(r.dist, r.base, r.g, n, id, r.ids[id]);
      EntryFinal(r.dist, r.base, r.g, id, r.ids[id]);
      if !IsFound(r.ids[id]) {
        assert Unmatched(r.dist, r.base, r.g, id);
        return Fail(Inval);
      }
      id := id + 1;
    }
    forall d | 0 < d < |r.dist.types|
      ensures !Unmatched(r.dist, r.base, r.g, d)
    {
      assert StandsFor(r.dist, r.base, r.g, r.ids[d], d);
    }
    assert AllFound(r.dist, r.base, r.g);
  }

  /** Each distilled type has the one base type that stands for it. */
  ghost predicate AllFound(dist: Btf, base: Btf, g: seq<Type>)
    requires ValidBtf(dist) && ValidBtf(base) && ValidGraph(g) && dist.types <= g
  {
    && WalksEnd(g, |dist.types|, |g|)
    && !FindsVoid(dist, base, |base.types|)
    && (forall d :: 0 < d < |dist.types| ==> !Unmatched(dist, base, g, d))
  }

  lemma StartEntries(dist: Btf, base: Btf, g: seq<Type>, marked: seq<nat>)
    requires ValidBtf(dist) && ValidBtf(base) && ValidGraph(g) && dist.types <= g && |marked| == |g|
    requires forall d :: 0 < d < |dist.types| ==> marked[d] == if Embedded(g, |dist.types|, d) then IS_EMBEDDED else 0
    ensures forall d :: 0 < d < |dist.types| ==> EntryAt(dist, base, g, 1, d, marked[d])
  {
    hide Embedded, Refs, Found;
  }

  lemma NothingNamed(dist: Btf, base: Btf, ids: seq<nat>, marked: seq<nat>, strMap: seq<nat>)
    requires |dist.types| <= |ids| == |marked| && NamesSoFar(dist, base, ids, strMap)
    requires forall i :: 0 <= i < |strMap| ==> strMap[i] == 0
    requires forall d :: 0 < d < |dist.types| ==> !IsFound(marked[d])
    ensures NamesSoFar(dist, base, marked, strMap)
  {
  }

  lemma OwnUnmarked(g: seq<Type>, nrDist: nat, ids: seq<nat>, marked: seq<nat>)
    requires ValidGraph(g) && nrDist <= |g| == |ids| == |marked|
    requires forall d :: 0 <= d < |ids| ==> marked[d] == if Embedded(g, nrDist, d) then IS_EMBEDDED else ids[d]
    ensures marked[0] == ids[0] && marked[nrDist..] == ids[nrDist..]
  {
  }

  // ----- rewriting the own types -----

  predicate IsDistilledKind(k: Kind) {
    k.Int? || k.Float? || k.Enum? || k.Struct? || k.Union? || k.Fwd?
  }

  /** A distilled base has named types of few kinds only. */
  predicate ValidDistilled(types: seq<Type>) {
    forall d :: 0 < d < |types| ==> IsDistilledKind(types[d].kind) && types[d].name != 0
  }

  method ValidateDistilledBase(types: seq<Type>) returns (s: Status)
    ensures s == Done <==> ValidDistilled(types)
  {
    var i := 1;
    while i < |types|
      invariant 0 < i && forall d :: 0 < d < i && d < |types| ==> IsDistilledKind(types[d].kind) && types[d].name != 0
    {
      if !IsDistilledKind(types[i].kind) || types[i].name == 0 {
        return Fail(Inval);
      }
      i := i + 1;
    }
    s := Done;
  }

  ghost predicate Relocated(dist: Btf, own: seq<Type>, ownStrs: string, base: Btf, own': seq<Type>, ids: seq<nat>)
    requires ValidBtf(dist) && ValidBtf(base) && ValidGraph(dist.types + own)
  {
    && |own'| == |own| && |ids| == |dist.types| + |own| && ids[0] == 0
    && var g, n := dist.types + own, |dist.types|;
    && (forall d :: 0 < d < n ==> StandsFor(dist, base, g, ids[d], d))
    && (forall x :: n <= x < |g| ==> ids[x] == x - n + |base.types|)
    && (forall x :: n <= x < |g| ==>
          MovedOver(g[x], Reading(dist.strs, ownStrs), own'[x - n], Reading(base.strs, ownStrs), ids))
  }

  /** Exactly when relocation works out. */
  ghost predicate Relocatable(dist: Btf, own: seq<Type>, base: Btf)
    requires ValidBtf(dist) && ValidBtf(base) && ValidGraph(dist.types + own)
  {
    var g := dist.types + own;
    && ValidDistilled(dist.types) && AllFound(dist, base, g)
    && (forall x :: |dist.types| <= x < |g| ==> !g[x].kind.Other? && StringsKnown(dist, Names(g[x])))
  }

  /** Each string is an own string, or the name of a distilled type, or empty. */
  ghost predicate StringsKnown(dist: Btf, ns: seq<nat>) {
    forall j :: 0 <= j < |ns| ==>
      ns[j] == 0 || ns[j] >= |dist.strs| || exists d :: 0 < d < |dist.types| && dist.types[d].name == ns[j]
  }

  /** Sections of non-split objects start with the empty string. */
  ghost predicate StartsEmptily(strs: string) {
    strs != "" && strs[0] == Strset.NUL
  }

  function MoveString(dist: Btf, base: Btf, strMap: seq<nat>): nat -> Option<nat>
    requires |strMap| == |dist.strs|
  {
    (off: nat) =>
      if off == 0 then Some(0)
      else if off >= |dist.strs| then Some(off - |dist.strs| + |base.strs|)
      else if strMap[off] != 0 then Some(strMap[off])
      else None
  }

  lemma MoveStringReads(r: Relocation, ownStrs: string, off: nat)
    requires r.Valid() && StartsEmptily(r.dist.strs) && StartsEmptily(r.base.strs)
    ensures var m := MoveString(r.dist, r.base, r.strMap)(off);
      m.Some? ==> Reading(r.base.strs, ownStrs)(m.value) == Reading(r.dist.strs, ownStrs)(off)
  {
    hide Refs, ValidBtf;
    EmptyFirst(r.dist.strs);
    EmptyFirst(r.base.strs);
  }

  lemma MoveStringKnown(r: Relocation, ns: seq<nat>)
    requires r.Valid() && ValidDistilled(r.dist.types) && forall d :: 0 < d < |r.dist.types| ==> IsFound(r.ids[d])
    ensures AllGiven(MoveString(r.dist, r.base, r.strMap), ns) <==> StringsKnown(r.dist, ns)
  {
    hide Refs, ValidBtf, Strset.StrAt;
    var f := MoveString(r.dist, r.base, r.strMap);
    forall j | 0 <= j < |ns|
      ensures f(ns[j]).Some? <==>
        ns[j] == 0 || ns[j] >= |r.dist.strs| || exists d :: 0 < d < |r.dist.types| && r.dist.types[d].name == ns[j]
    {
      if 0 < ns[j] < |r.dist.strs| {
        assert r.strMap[ns[j]] != 0 <==> NameTaken(r.dist, r.ids, ns[j]);
      }
    }
  }

  lemma MovedOverBy(r: Relocation, ownStrs: string, t: Type, t1: Type, t2: Type)
    requires r.Valid() && StartsEmptily(r.dist.strs) && StartsEmptily(r.base.strs)
    requires WellFormed(t) && InRange(Refs(t), |r.ids|) && WellFormed(t1)
    requires t1 == LookedUp(r.ids, t)
    requires var f := MoveString(r.dist, r.base, r.strMap);
      AllGiven(f, Names(t1)) && t2 == WithNames(t1, Given(f, Names(t1)))
    ensures MovedOver(t, Reading(r.dist.strs, ownStrs), t2, Reading(r.base.strs, ownStrs), r.ids)
  {
    hide Refs, Names, WithNames, ValidBtf, Blank, Shape, LookedUp;
    var f := MoveString(r.dist, r.base, r.strMap);
    var ns := Given(f, Names(t1));
    LookedUpParts(r.ids, t);
    RefsOfWithNames(t1, ns);
    BlankOfWithNames(t1, ns);
    NamesOfWithNames(t1, ns);
    forall j | 0 <= j < |ns|
      ensures Reading(r.base.strs, ownStrs)(ns[j]) == Reading(r.dist.strs, ownStrs)(Names(t)[j])
    {
      MoveStringReads(r, ownStrs, Names(t)[j]);
    }
    assert Read(ns, Reading(r.base.strs, ownStrs)) == Read(Names(t), Reading(r.dist.strs, ownStrs));
  }

  /** Move own types from a distilled base onto a base. */
  method Relocate(dist: Btf, own: seq<Type>, ownStrs: string, base: Btf)
    returns (s: Status, own': seq<Type>, ids: seq<nat>)
    requires ValidBtf(dist) && ValidBtf(base) && ValidGraph(dist.types + own)
    requires StartsEmptily(dist.strs) && StartsEmptily(base.strs)
    ensures s == Done <==> Relocatable(dist, own, base)
    ensures s == Done ==> Relocated(dist, own, ownStrs, base, own', ids)
  {
    hide Refs, Names, AllFound, StandsFor, StringsKnown, MovedOver, WithRefs, WithNames, NamesSoFar, MoveString,
      Through, Given, AllGiven;
    ghost var g := dist.types + own;
    own', ids := own, [];
    s := ValidateDistilledBase(dist.types);
    if s != Done {
      return;
    }
    var r := new Relocation(dist, base, dist.types + own);
    r.ShiftOwn();
    ghost var n, shifted := |dist.types|, r.ids;
    s := MapDistilledBase(r);
    if s != Done {
      return;
    }
    assert forall x :: n <= x < |g| ==> r.ids[x] == r.ids[n..][x - n] == shifted[n..][x - n];
    ids := r.ids;
    AllAreFound(r);
    s, own' := RewriteOwn(r, own, ownStrs);
  }

  lemma AllAreFound(r: Relocation)
    requires r.Valid() && forall d :: 0 < d < |r.dist.types| ==> StandsFor(r.dist, r.base, r.g, r.ids[d], d)
    ensures forall d :: 0 < d < |r.dist.types| ==> IsFound(r.ids[d])
  {
    hide Refs, Found, NamesSoFar;
  }

  /** Rewrite the ids of all own types. */
  method RewriteOwnIds(r: Relocation, own: seq<Type>) returns (s: Status, own': seq<Type>)
    requires r.Valid() && r.g == r.dist.types + own
    ensures s == Done <==> forall i :: 0 <= i < |own| ==> !own[i].kind.Other?
    ensures |own'| == |own|
    ensures s == Done ==> forall i :: 0 <= i < |own| ==>
      var t := r.g[|r.dist.types| + i]; own'[i] == LookedUp(r.ids, t)
  {
    hide Refs, LookedUp, NamesSoFar, ValidBtf;
    ghost var n := |r.dist.types|;
    own' := own;
    var i := 0;
    while i < |own|
      invariant 0 <= i <= |own| == |own'| && own'[i..] == own[i..]
      invariant forall x :: 0 <= x < i ==> !own[x].kind.Other?
      invariant forall x :: 0 <= x < i ==> var t := r.g[n + x]; own'[x] == LookedUp(r.ids, t)
    {
      assert own[i] == r.g[n + i] && own'[i] == own'[i..][0] == own[i..][0];
      var t';
      s, t' := LookUpIds(own'[i], r.ids);
      if s != Done {
        return;
      }
      own' := own'[i := t'];
      i := i + 1;
    }
    s := Done;
  }

  /** Rewrite the string offsets of all own types. */
  method RewriteOwnStrs(r: Relocation, own: seq<Type>) returns (s: Status, own': seq<Type>)
    requires r.Valid() && ValidDistilled(r.dist.types) && forall d :: 0 < d < |r.dist.types| ==> IsFound(r.ids[d])
    requires forall i :: 0 <= i < |own| ==> WellFormed(own[i]) && !own[i].kind.Other?
    ensures s == Done <==> forall i :: 0 <= i < |own| ==> StringsKnown(r.dist, Names(own[i]))
    ensures |own'| == |own|
    ensures s == Done ==> var f := MoveString(r.dist, r.base, r.strMap); forall i :: 0 <= i < |own| ==>
      AllGiven(f, Names(own[i])) && own'[i] == WithNames(own[i], Given(f, Names(own[i])))
  {
    hide Names, WithNames, NamesSoFar, AllGiven, Given, ValidBtf, StringsKnown, MoveString;
    var f := MoveString(r.dist, r.base, r.strMap);
    own' := own;
    var i := 0;
    while i < |own|
      invariant 0 <= i <= |own| == |own'| && own'[i..] == own[i..]
      invariant forall x :: 0 <= x < i ==>
        StringsKnown(r.dist, Names(own[x])) && AllGiven(f, Names(own[x])) &&
          own'[x] == WithNames(own[x], Given(f, Names(own[x])))
    {
      assert own'[i] == own'[i..][0] == own[i..][0];
      MoveStringKnown(r, Names(own[i]));
      var t';
      s, t' := RewriteStrs(own'[i], f);
      if s != Done {
        return;
      }
      own' := own'[i := t'];
      i := i + 1;
    }
    s := Done;
  }

  method RewriteOwn(r: Relocation, own: seq<Type>, ownStrs: string) returns (s: Status, own': seq<Type>)
    requires r.Valid() && r.g == r.dist.types + own
    requires ValidDistilled(r.dist.types) && StartsEmptily(r.dist.strs) && StartsEmptily(r.base.strs)
    requires forall d :: 0 < d < |r.dist.types| ==> IsFound(r.ids[d])
    ensures s == Done <==>
      forall x :: |r.dist.types| <= x < |r.g| ==> !r.g[x].kind.Other? && StringsKnown(r.dist, Names(r.g[x]))
    ensures s == Done ==> |own'| == |own| && forall x :: |r.dist.types| <= x < |r.g| ==>
      MovedOver(r.g[x], Reading(r.dist.strs, ownStrs), own'[x - |r.dist.types|], Reading(r.base.strs, ownStrs), r.ids)
  {
    hide Refs, Names, StringsKnown, MovedOver, LookedUp, WithNames, NamesSoFar, MoveString, Given, AllGiven, ValidBtf;
    ghost var n := |r.dist.types|;
    assert forall i :: 0 <= i < |own| ==> r.g[n + i] == own[i];
    s, own' := RewriteOwnIds(r, own);
    if s != Done {
      OtherInOwn(r.dist, own);
      return;
    }
    var with := own';
    forall i | 0 <= i < |own|
      ensures WellFormed(with[i]) && !with[i].kind.Other? && Names(with[i]) == Names(r.g[n + i])
    {
      LookedUpParts(r.ids, r.g[n + i]);
    }
    s, own' := RewriteOwnStrs(r, with);
    if s != Done {
      UnknownInOwn(r.dist, own, with);
      return;
    }
    MovedAll(r, own, ownStrs, with, own');
  }

  lemma OtherInOwn(dist: Btf, own: seq<Type>)
    requires ValidGraph(dist.types + own) && exists i :: 0 <= i < |own| && own[i].kind.Other?
    ensures exists x :: |dist.types| <= x < |dist.types + own| && (dist.types + own)[x].kind.Other?
  {
    hide Refs;
    var i :| 0 <= i < |own| && own[i].kind.Other?;
    assert (dist.types + own)[|dist.types| + i] == own[i];
  }

  lemma UnknownInOwn(dist: Btf, own: seq<Type>, with: seq<Type>)
    requires ValidGraph(dist.types + own) && |with| == |own|
    requires forall i :: 0 <= i < |own| ==>
      WellFormed(with[i]) && Names(with[i]) == Names((dist.types + own)[|dist.types| + i])
    requires exists i :: 0 <= i < |with| && !StringsKnown(dist, Names(with[i]))
    ensures exists x :: |dist.types| <= x < |dist.types + own| && !StringsKnown(dist, Names((dist.types + own)[x]))
  {
    hide Refs, Names, StringsKnown;
    var i :| 0 <= i < |with| && !StringsKnown(dist, Names(with[i]));
    var x := |dist.types| + i;
    assert !StringsKnown(dist, Names((dist.types + own)[x]));
  }

  lemma MovedAll(r: Relocation, own: seq<Type>, ownStrs: string, with: seq<Type>, own': seq<Type>)
    requires r.Valid() && r.g == r.dist.types + own && |own'| == |with| == |own|
    requires StartsEmptily(r.dist.strs) && StartsEmptily(r.base.strs)
    requires forall i :: 0 <= i < |own| ==> var t := r.g[|r.dist.types| + i];
      WellFormed(with[i]) && with[i] == LookedUp(r.ids, t) && Names(with[i]) == Names(t)
    requires forall i :: 0 <= i < |own| ==> StringsKnown(r.dist, Names(with[i]))
    requires var f := MoveString(r.dist, r.base, r.strMap); forall i :: 0 <= i < |own| ==>
      AllGiven(f, Names(with[i])) && own'[i] == WithNames(with[i], Given(f, Names(with[i])))
    ensures forall x :: |r.dist.types| <= x < |r.g| ==> StringsKnown(r.dist, Names(r.g[x]))
    ensures forall x :: |r.dist.types| <= x < |r.g| ==>
      MovedOver(r.g[x], Reading(r.dist.strs, ownStrs), own'[x - |r.dist.types|], Reading(r.base.strs, ownStrs), r.ids)
  {
    hide Refs, Names, StringsKnown, MovedOver, LookedUp, WithNames, NamesSoFar, MoveString, Given, AllGiven, ValidBtf;
    ghost var n := |r.dist.types|;
    forall x | n <= x < |r.g|
      ensures StringsKnown(r.dist, Names(r.g[x]))
      ensures MovedOver(r.g[x], Reading(r.dist.strs, ownStrs), own'[x - n], Reading(r.base.strs, ownStrs), r.ids)
    {
      assert Names(with[x - n]) == Names(r.g[n + (x - n)]);
      MovedOverBy(r, ownStrs, r.g[x], with[x - n], own'[x - n]);
    }
  }
}
