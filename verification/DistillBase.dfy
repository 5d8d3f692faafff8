/** Distilling as a whole. */
module DistillBase {
  import opened BtfTypes
  import opened Meaning
  import opened CanonMap
  import opened DedupState
  import opened DedupResult
  import opened StringPass
  import opened Rewrite
  import opened Pipe
  import opened DistillMark
  import opened Distill
  import opened RelocateMap
  import Strset

  /** The types that the new objects represent. */
  ghost predicate Used(g: seq<Type>, start: nat, x: nat)
    requires ValidGraph(g)
  {
    0 < x < |g| && (start <= x || Needed(g, start, x))
  }

  /** Where a type ends up: named types of few kinds in the distilled base, all others behind it. */
  ghost predicate PlacedRight(g: seq<Type>, start: nat, x: nat, nrBase: nat, nr: nat, id: nat)
    requires ValidGraph(g) && x < |g|
  {
    if start <= x then id == x - start + nrBase && id < nr
    else if GoesToBase(g[x]) then 0 < id < nrBase
    else nrBase + |g| - start <= id < nr
  }

  /** A distilled base and a split object on top of it, that say together what `g` said of its own types. */
  ghost predicate Distilled(g: seq<Type>, start: nat, s: Strings, dist: Btf, own: seq<Type>, ownStrs: string,
                            ids: seq<nat>)
    requires ValidGraph(g)
  {
    var g' := dist.types + own;
    && ValidBtf(dist) && ValidGraph(g') && |ids| == |g| && ids[0] == 0 && |g| - start <= |own|
    && (forall x :: 0 <= x < |g| && Used(g, start, x) ==> PlacedRight(g, start, x, |dist.types|, |g'|, ids[x]))
    && (forall x ::
      0 <= x < |g| && Used(g, start, x) ==>
      Faithfully(g[x], x < start && GoesToBase(g[x]), s, g'[ids[x]], |dist.strs|, Reading(dist.strs, ownStrs), ids))
    && (forall x, y :: 0 <= x < y < |g| && Used(g, start, x) && Used(g, start, y) ==> ids[x] != ids[y])
    && (forall k :: 0 < k < |g'| ==> IsImage(g, start, ids, k))
  }

  /** In the distilled base a skeleton, elsewhere the whole type. */
  ghost predicate Faithfully(t: Type, toBase: bool, s: Strings, t': Type, baseSize: nat, s': Strings, ids: seq<nat>) {
    if toBase then Skeleton(t, s, t', baseSize, s') else MovedOver(t, s, t', s', ids)
  }

  ghost predicate IsImage(g: seq<Type>, start: nat, ids: seq<nat>, k: nat)
    requires ValidGraph(g) && |ids| == |g|
  {
    exists x :: 0 <= x < |g| && Used(g, start, x) && ids[x] == k
  }

  // ----- before ids are updated -----

  /** The ids that the passes have given out. */
  ghost predicate Numbered(g: seq<Type>, start: nat, ids0: seq<nat>, ids1: seq<nat>, ids2: seq<nat>, nrBase: nat,
                           nrMore: nat)
    requires ValidGraph(g)
  {
    && 0 < start <= |g| == |ids0| == |ids1| == |ids2| && 0 < nrBase
    && (forall x :: 0 <= x < |g| ==> (ids0[x] != 0 <==> 0 < x && Needed(g, start, x)) && (ids0[x] != 0 ==> x < start))
    && Placed(g, ids0, ids1, start, true, 1, nrBase - 1)
    && Placed(g, ids1, ids2, start, false, nrBase + |g| - start, nrMore)
  }

  lemma WhereTo(g: seq<Type>, start: nat, ids0: seq<nat>, ids1: seq<nat>, ids2: seq<nat>, nrBase: nat, nrMore: nat,
                x: nat)
    requires ValidGraph(g) && Numbered(g, start, ids0, ids1, ids2, nrBase, nrMore) && x < |g| && Used(g, start, x)
    ensures PlacedRight(g, start, x, nrBase, nrBase + |g| - start + nrMore, NewIds(start, ids2, nrBase)[x])
    ensures x < start && GoesToBase(g[x]) ==> Selected(g, ids0, x, true) && NewIds(start, ids2, nrBase)[x] == ids1[x]
    ensures x < start && !GoesToBase(g[x]) ==> Selected(g, ids1, x, false) && NewIds(start, ids2, nrBase)[x] == ids2[x]
  {
    hide GoesToBase, Needed;
    assert start <= x ==> ids0[x] == 0 && !Selected(g, ids0, x, true);
  }

  lemma NumberedOnce(g: seq<Type>, start: nat, ids0: seq<nat>, ids1: seq<nat>, ids2: seq<nat>, nrBase: nat,
                     nrMore: nat, x: nat, y: nat)
    requires ValidGraph(g) && Numbered(g, start, ids0, ids1, ids2, nrBase, nrMore) && x < y < |g| &&
      Used(g, start, x) && Used(g, start, y)
    ensures var m := NewIds(start, ids2, nrBase); m[x] != m[y]
  {
    hide GoesToBase, Needed, Refs, NewIds;
    WhereTo(g, start, ids0, ids1, ids2, nrBase, nrMore, x);
    WhereTo(g, start, ids0, ids1, ids2, nrBase, nrMore, y);
  }

  lemma NumberedAll(g: seq<Type>, start: nat, ids0: seq<nat>, ids1: seq<nat>, ids2: seq<nat>, nrBase: nat, nrMore: nat,
                    k: nat)
    requires ValidGraph(g) && Numbered(g, start, ids0, ids1, ids2, nrBase, nrMore) &&
      0 < k < nrBase + |g| - start + nrMore
    ensures IsImage(g, start, NewIds(start, ids2, nrBase), k)
  {
    hide GoesToBase, Needed, Refs, NewIds;
    var x: nat;
    if k < nrBase {
      assert PlacedAt(g, ids0, ids1, start, true, k);
      x :| 0 <= x < start && Selected(g, ids0, x, true) && ids1[x] == k;
    } else if k < nrBase + |g| - start {
      x := k - nrBase + start;
    } else {
      assert PlacedAt(g, ids1, ids2, start, false, k);
      x :| 0 <= x < start && Selected(g, ids1, x, false) && ids2[x] == k;
      assert ids1[x] == ids0[x];
    }
    assert Used(g, start, x);
    WhereTo(g, start, ids0, ids1, ids2, nrBase, nrMore, x);
  }

  /** What a type is copied to before ids are updated. */
  ghost predicate Drafted(t: Type, toBase: bool, s: Strings, t': Type, baseSize: nat, size: nat, s': Strings) {
    if toBase then Skeleton(t, s, t', baseSize, s') && Refs(t') == (if t.kind.Fwd? then Refs(t) else [])
    else CopyOf(t, s, t', size, s')
  }

  lemma Finished(t: Type, toBase: bool, s: Strings, t': Type, baseSize: nat, size: nat, s': Strings, m: seq<nat>)
    requires Drafted(t, toBase, s, t', baseSize, size, s') && WellFormed(t) && InRange(Refs(t), |m|) && WellFormed(t')
    ensures InRange(Refs(t'), |m|) && Faithfully(t, toBase, s, LookedUp(m, t'), baseSize, s', m)
    ensures toBase && !t.kind.Fwd? ==> Refs(LookedUp(m, t')) == []
    ensures !toBase || t.kind.Fwd? ==>
      |Refs(LookedUp(m, t'))| == |Refs(t)| &&
        forall j :: 0 <= j < |Refs(t)| ==> Refs(LookedUp(m, t'))[j] == m[Refs(t)[j]]
  {
    hide Refs, LookedUp, Names, Blank, WithNames;
    if toBase {
      LookedUpParts(m, t');
      if !t.kind.Fwd? {
        NoLookUp(m, t');
      }
    } else {
      CopyLookedUp(t, s, t', size, s', m);
    }
  }

  lemma NoLookUp(m: seq<nat>, t: Type)
    requires WellFormed(t) && Refs(t) == []
    ensures LookedUp(m, t) == t
  {
    hide Refs, WithRefs;
    WithRefsTwice(t, [], []);
    assert Through(Table(m), Refs(t)) == [];
  }

  lemma CopyLookedUp(t: Type, s: Strings, t': Type, size: nat, s': Strings, m: seq<nat>)
    requires CopyOf(t, s, t', size, s') && InRange(Refs(t), |m|)
    ensures Refs(t') == Refs(t) && MovedOver(t, s, LookedUp(m, t'), s', m)
  {
    hide Refs, LookedUp, Names, Blank, WithNames;
    RefsOfWithNames(t, Names(t'));
    BlankOfWithNames(t, Names(t'));
    LookedUpParts(m, t');
    assert Read(Names(t'), s') == Read(Names(t), s);
  }

  /** Whatever a fully copied type refers to is represented as well. */
  lemma UsedRefs(g: seq<Type>, start: nat, x: nat, y: nat)
    requires ValidGraph(g) && 0 < start <= |g| && BaseClosed(g, start) && x < |g| && Used(g, start, x) &&
      y in Refs(g[x])
    requires start <= x || !NamedComposite(g[x])
    ensures y == 0 || Used(g, start, y)
  {
    hide Refs;
    if 0 < y < start {
      if start <= x {
        OwnTrail(g, start, x);
        TrailOn(g, start, [x], y);
      } else {
        var p :| Trail(g, start, p) && |p| > 1 && p[|p| - 1] == x;
        TrailOn(g, start, p, y);
      }
    }
  }

  /** Types that have been drafted, each where its new id says. */
  ghost predicate AllDrafted(g: seq<Type>, start: nat, m: seq<nat>, pre: seq<Type>, s: Strings, baseSize: nat,
                             size: nat, s': Strings)
    requires ValidGraph(g)
  {
    && |m| == |g| && |pre| > 0 && pre[0] == VOID && m[0] == 0
    && (forall x :: 0 <= x < |g| && Used(g, start, x) ==> m[x] < |pre|)
    && (forall x :: 0 <= x < |g| && Used(g, start, x) ==>
          Drafted(g[x], x < start && GoesToBase(g[x]), s, pre[m[x]], baseSize, size, s'))
    && (forall k :: 0 < k < |pre| ==> IsImage(g, start, m, k))
  }

  lemma DraftedRefs(g: seq<Type>, start: nat, m: seq<nat>, pre: seq<Type>, s: Strings, baseSize: nat, size: nat,
                    s': Strings, k: nat)
    requires ValidGraph(g) && AllDrafted(g, start, m, pre, s, baseSize, size, s') && k < |pre|
    ensures WellFormed(pre[k]) && InRange(Refs(pre[k]), |m|) && !pre[k].kind.Other?
  {
    hide Used, Names, WithNames;
    if k > 0 {
      assert IsImage(g, start, m, k);
      var x :| 0 <= x < |g| && Used(g, start, x) && m[x] == k;
      assert Drafted(g[x], x < start && GoesToBase(g[x]), s, pre[k], baseSize, size, s');
      if !(x < start && GoesToBase(g[x])) {
        RefsOfWithNames(g[x], Names(pre[k]));
      }
    } else {
      NoCols(0, []);
    }
  }

  /** Ids looked up in all types. */
  ghost predicate Updated(pre: seq<Type>, m: seq<nat>, g': seq<Type>) {
    && |g'| == |pre|
    && (forall k :: 0 <= k < |pre| ==> WellFormed(pre[k]) && InRange(Refs(pre[k]), |m|))
    && (forall k :: 0 <= k < |pre| ==> g'[k] == LookedUp(m, pre[k]))
  }

  lemma UpdatedType(g: seq<Type>, start: nat, m: seq<nat>, pre: seq<Type>, g': seq<Type>, s: Strings, baseSize: nat,
                    size: nat, s': Strings, x: nat)
    requires ValidGraph(g) && AllDrafted(g, start, m, pre, s, baseSize, size, s') && Updated(pre, m, g')
    requires 0 < start <= |g| && BaseClosed(g, start) && x < |g| && Used(g, start, x)
    ensures Faithfully(g[x], x < start && GoesToBase(g[x]), s, g'[m[x]], baseSize, s', m)
    ensures WellFormed(g'[m[x]]) && InRange(Refs(g'[m[x]]), |g'|) && !g'[m[x]].kind.Void?
  {
    hide Refs, LookedUp, Names, WithNames, Needed, BaseClosed, IsImage;
    var toBase := x < start && GoesToBase(g[x]);
    Finished(g[x], toBase, s, pre[m[x]], baseSize, size, s', m);
    if !toBase || g[x].kind.Fwd? {
      forall j | 0 <= j < |Refs(g[x])|
        ensures m[Refs(g[x])[j]] < |g'|
      {
        UsedRefs(g, start, x, Refs(g[x])[j]);
      }
    }
    assert toBase ==> pre[m[x]].kind == if g[x].kind.Enum64? then Enum else g[x].kind;
    assert !toBase ==> pre[m[x]].kind == g[x].kind;
  }

  lemma UpdatedValid(g: seq<Type>, start: nat, m: seq<nat>, pre: seq<Type>, g': seq<Type>, s: Strings, baseSize: nat,
                     size: nat, s': Strings)
    requires ValidGraph(g) && AllDrafted(g, start, m, pre, s, baseSize, size, s') && Updated(pre, m, g')
    requires 0 < start <= |g| && BaseClosed(g, start)
    ensures ValidGraph(g')
  {
    hide Refs, LookedUp, Used, Drafted, Faithfully, BaseClosed;
    VoidRefs();
    NoLookUp(m, VOID);
    forall k | 0 < k < |g'|
      ensures WellFormed(g'[k]) && InRange(Refs(g'[k]), |g'|) && !g'[k].kind.Void?
    {
      assert IsImage(g, start, m, k);
      var x :| 0 <= x < |g| && Used(g, start, x) && m[x] == k;
      UpdatedType(g, start, m, pre, g', s, baseSize, size, s', x);
    }
  }

  lemma MakeDistilled(g: seq<Type>, start: nat, ids0: seq<nat>, ids1: seq<nat>, ids2: seq<nat>, nrBase: nat,
                      nrMore: nat,
                      pre: seq<Type>, g': seq<Type>, s: Strings, baseStrs: string, ownStrs: string, size: nat)
    requires ValidGraph(g) && Numbered(g, start, ids0, ids1, ids2, nrBase, nrMore) && BaseClosed(g, start)
    requires 0 < start <= |g| && 0 < nrBase <= MAX_NR_TYPES + 1 && baseStrs != ""
    requires |g'| == |pre| == nrBase + |g| - start + nrMore
    requires AllDrafted(g, start, NewIds(start, ids2, nrBase), pre, s, |baseStrs|, size, Reading(baseStrs, ownStrs))
    requires Updated(pre, NewIds(start, ids2, nrBase), g')
    ensures Distilled(g, start, s, Btf(g'[..nrBase], baseStrs), g'[nrBase..], ownStrs, NewIds(start, ids2, nrBase))
  {
    hide Refs, LookedUp, Used, Drafted, Faithfully, BaseClosed, PlacedRight, IsImage, NewIds, Numbered, Updated;
    var m, s' := NewIds(start, ids2, nrBase), Reading(baseStrs, ownStrs);
    var dist, own := Btf(g'[..nrBase], baseStrs), g'[nrBase..];
    assert dist.types + own == g';
    UpdatedValid(g, start, m, pre, g', s, |baseStrs|, size, s');
    forall x | 0 <= x < |g| && Used(g, start, x)
      ensures PlacedRight(g, start, x, nrBase, |g'|, m[x])
      ensures Faithfully(g[x], x < start && GoesToBase(g[x]), s, g'[m[x]], |baseStrs|, s', m)
    {
      WhereTo(g, start, ids0, ids1, ids2, nrBase, nrMore, x);
      UpdatedType(g, start, m, pre, g', s, |baseStrs|, size, s', x);
    }
    forall x, y | 0 <= x < y < |g| && Used(g, start, x) && Used(g, start, y)
      ensures m[x] != m[y]
    {
      NumberedOnce(g, start, ids0, ids1, ids2, nrBase, nrMore, x, y);
    }
    forall k | 0 < k < nrBase
      ensures g'[k].name < |baseStrs|
    {
      NameInBase(g, start, m, g', s, baseStrs, s', nrBase, k);
    }
  }

  lemma NameInBase(g: seq<Type>, start: nat, m: seq<nat>, g': seq<Type>, s: Strings, baseStrs: string, s': Strings,
                   nrBase: nat, k: nat)
    requires ValidGraph(g) && start <= |m| == |g| && 0 < k < nrBase <= |g'| && IsImage(g, start, m, k)
    requires forall x :: 0 <= x < |g| && Used(g, start, x) ==> PlacedRight(g, start, x, nrBase, |g'|, m[x])
    requires forall x :: 0 <= x < |g| && Used(g, start, x) ==>
      m[x] < |g'| && Faithfully(g[x], x < start && GoesToBase(g[x]), s, g'[m[x]], |baseStrs|, s', m)
    ensures g'[k].name < |baseStrs|
  {
    hide Used, Refs, MovedOver;
    var x :| 0 <= x < |g| && Used(g, start, x) && m[x] == k;
  }

  // ----- the whole -----

  /** What was made for the distilled base reads the same from on top of it. */
  lemma SkeletonRebased(t: Type, s: Strings, t': Type, base: string, ownStrs: string)
    requires Skeleton(t, s, t', |base|, Reading("", base))
    ensures Skeleton(t, s, t', |base|, Reading(base, ownStrs))
  {
  }

  lemma AssembleOne(g: seq<Type>, start: nat, ids0: seq<nat>, ids1: seq<nat>, ids2: seq<nat>,
                    out1: seq<Type>, copies: seq<Type>, out2: seq<Type>, s: Strings, base: string, ownStrs: string,
                      x: nat)
    requires ValidGraph(g) && Numbered(g, start, ids0, ids1, ids2, 1 + |out1|, |out2|) && |copies| == |g| - start
    requires AllRepresent(g, ids0, ids1, start, true, 1, out1, s, |base|, Reading("", base))
    requires AllCopied(g, start, copies, s, |base| + |ownStrs|, Reading(base, ownStrs))
    requires AllRepresent(g, ids1, ids2, start, false, 1 + |out1| + |copies|, out2, s, |base| + |ownStrs|,
      Reading(base, ownStrs))
    requires x < |g| && Used(g, start, x)
    ensures var m, pre := NewIds(start, ids2, 1 + |out1|), [VOID] + out1 + copies + out2;
      m[x] < |pre| && Drafted(g[x], x < start && GoesToBase(g[x]), s, pre[m[x]], |base|, |base| + |ownStrs|,
        Reading(base, ownStrs))
  {
    hide Refs, Skeleton, CopyOf, Placed, GoesToBase, Needed, Reading;
    var n, m, pre := 1 + |out1|, NewIds(start, ids2, 1 + |out1|), [VOID] + out1 + copies + out2;
    WhereTo(g, start, ids0, ids1, ids2, n, |out2|, x);
    if start <= x {
      assert pre[m[x]] == copies[x - start];
      assert g[start + (x - start)] == g[x];
    } else if GoesToBase(g[x]) {
      assert pre[m[x]] == out1[ids1[x] - 1];
      SkeletonRebased(g[x], s, pre[m[x]], base, ownStrs);
    } else {
      assert pre[m[x]] == out2[ids2[x] - (1 + |out1| + |copies|)];
    }
  }

  lemma Assemble(g: seq<Type>, start: nat, ids0: seq<nat>, ids1: seq<nat>, ids2: seq<nat>,
                 out1: seq<Type>, copies: seq<Type>, out2: seq<Type>, s: Strings, base: string, ownStrs: string)
    requires ValidGraph(g) && Numbered(g, start, ids0, ids1, ids2, 1 + |out1|, |out2|) && |copies| == |g| - start
    requires AllRepresent(g, ids0, ids1, start, true, 1, out1, s, |base|, Reading("", base))
    requires AllCopied(g, start, copies, s, |base| + |ownStrs|, Reading(base, ownStrs))
    requires AllRepresent(g, ids1, ids2, start, false, 1 + |out1| + |copies|, out2, s, |base| + |ownStrs|,
      Reading(base, ownStrs))
    ensures AllDrafted(g, start, NewIds(start, ids2, 1 + |out1|), [VOID] + out1 + copies + out2, s, |base|,
      |base| + |ownStrs|, Reading(base, ownStrs))
  {
    hide Refs, Drafted, Placed, GoesToBase, AllRepresent, AllCopied, Used, Reading;
    var n, m, pre, s' := 1 + |out1|, NewIds(start, ids2, 1 + |out1|), [VOID] + out1 + copies + out2,
      Reading(base, ownStrs);
    forall x | 0 <= x < |g| && Used(g, start, x)
      ensures m[x] < |pre| && Drafted(g[x], x < start && GoesToBase(g[x]), s, pre[m[x]], |base|, |base| + |ownStrs|, s')
    {
      AssembleOne(g, start, ids0, ids1, ids2, out1, copies, out2, s, base, ownStrs, x);
    }
    forall k | 0 < k < |pre|
      ensures IsImage(g, start, m, k)
    {
      NumberedAll(g, start, ids0, ids1, ids2, n, |out2|, k);
    }
    ZeroStays(g, start, ids0, ids1, ids2, n, |out2|);
  }

  lemma ZeroStays(g: seq<Type>, start: nat, ids0: seq<nat>, ids1: seq<nat>, ids2: seq<nat>, nrBase: nat, nrMore: nat)
    requires ValidGraph(g) && Numbered(g, start, ids0, ids1, ids2, nrBase, nrMore)
    ensures NewIds(start, ids2, nrBase)[0] == 0
  {
    hide Refs, Needed;
  }

  /** Fill the new base. */
  method DraftBase(g: seq<Type>, start: nat, ids0: seq<nat>, srcBase: string, srcOwn: string)
    returns (r: Status, p: StringPipe, ids1: seq<nat>, out1: seq<Type>)
    requires ValidGraph(g) && 0 < start <= |g|
    requires srcBase != "" && srcBase[0] == Strset.NUL
    requires forall x :: 0 <= x < |g| ==> InRange(Names(g[x]), |srcBase| + |srcOwn|)
    requires |ids0| == |g| && forall x :: 0 <= x < |g| && ids0[x] != 0 ==> x < start && IsCarried(g[x].kind)
    ensures fresh(p) && fresh(p.dst) && fresh(p.dstBase) && fresh(p.offMap) && fresh(p.hdr)
    ensures p.Valid() && p.srcBase == srcBase && p.srcOwn == srcOwn
    ensures r == Done ==> p.dst.data == "" && p.dstBase.data != "" && p.dstBase.data[0] == Strset.NUL && |out1| < start
    ensures r == Done ==>
      AllRepresent(g, ids0, ids1, start, true, 1, out1, p.Src(), |p.dstBase.data|, Reading("", p.dstBase.data))
  {
    hide Refs, Names, AllRepresent, Continues, Remembered, IsCarried, StringPipe.Valid;
    ids1, out1 := [], [];
    var none := new Strset.Set();
    var newBase := new Strset.Set();
    newBase.StartWithEmpty();
    EmptyFirst(srcBase);
    var hdr := new Header(1);
    p := new StringPipe(srcBase, srcOwn, none, newBase, hdr, false);
    r, ids1, out1 := AddNeeded(p, g, start, ids0, true, 1);
    if r != Done {
      return;
    }
    var newSplit := new Strset.Set();
    hdr := new Header(0);
    p.ValidTarget();
    p.Rebase(newSplit, hdr);
  }

  /** Fill the new split object. */
  method DraftSplit(p: StringPipe, g: seq<Type>, start: nat, ids1: seq<nat>, nrBase: nat)
    returns (r: Status, ids2: seq<nat>, copies: seq<Type>, out2: seq<Type>)
    requires p.Valid() && p.srcBase != "" && p.srcBase[0] == Strset.NUL && ValidGraph(g) && 0 < start <= |g|
    requires forall x :: 0 <= x < |g| ==> InRange(Names(g[x]), |p.srcBase| + |p.srcOwn|)
    requires |ids1| == |g| && forall x :: 0 <= x < |g| && ids1[x] != 0 ==> x < start && IsCarried(g[x].kind)
    modifies p.dst, p.offMap, p.hdr
    ensures p.Valid() && p.dstBase.data == old(p.dstBase.data) && (r == Done ==> |copies| == |g| - start)
    ensures r == Done ==> AllCopied(g, start, copies, p.Src(), |p.dstBase.data| + |p.dst.data|, p.Dst())
    ensures r == Done ==>
      AllRepresent(g, ids1, ids2, start, false, nrBase + |copies|, out2, p.Src(), |p.dstBase.data| + |p.dst.data|,
      p.Dst())
  {
    hide Refs, Names, AllRepresent, AllCopied, Continues, IsCarried, StringPipe.Valid;
    ids2, out2 := [], [];
    EmptyFirst(p.srcBase);
    p.ValidTarget();
    r, copies := AddOwn(p, g, start);
    if r != Done {
      return;
    }
    ghost var before := SectionOf(p.dst);
    r, ids2, out2 := AddNeeded(p, g, start, ids1, false, nrBase + |copies|);
    if r != Done {
      return;
    }
    AllCopiedOn(g, start, copies, p.Src(), p.dstBase.data, before, SectionOf(p.dst));
  }

  /** Fill the new base, then the new split object, with types that still have their old ids. */
  method Draft(g: seq<Type>, start: nat, ids0: seq<nat>, srcBase: string, srcOwn: string)
    returns (r: Status, ids2: seq<nat>, base: seq<Type>, own: seq<Type>, baseStrs: string, ownStrs: string,
      ghost ids1: seq<nat>, ghost nrMore: nat)
    requires ValidGraph(g) && 0 < start <= |g| <= MAX_NR_TYPES + 1 && BaseClosed(g, start)
    requires srcBase != "" && srcBase[0] == Strset.NUL
    requires forall x :: 0 <= x < |g| ==> InRange(Names(g[x]), |srcBase| + |srcOwn|)
    requires Marks(g, start, ids0) && forall x :: 0 < x < |g| ==> (ids0[x] != 0 <==> Needed(g, start, x))
    ensures r == Done ==> Numbered(g, start, ids0, ids1, ids2, |base|, nrMore) && |own| == |g| - start + nrMore
    ensures r == Done ==> 0 < |base| <= start && baseStrs != "" && baseStrs[0] == Strset.NUL
    ensures r == Done ==>
      AllDrafted(g, start, NewIds(start, ids2, |base|), base + own, Reading(srcBase, srcOwn), |baseStrs|,
        |baseStrs| + |ownStrs|, Reading(baseStrs, ownStrs))
  {
    hide Refs, Names, Needed, AllRepresent, AllCopied, BaseClosed, Marks, NewIds, IsCarried, Numbered, AllDrafted,
      StringPipe.Valid, ValidGraph;
    ids2, base, own, baseStrs, ownStrs, ids1, nrMore := [], [], [], "", "", [], 0;
    MarksCarried(g, start, ids0);
    var p, ids, out1;
    r, p, ids, out1 := DraftBase(g, start, ids0, srcBase, srcOwn);
    if r != Done {
      return;
    }
    ghost var s := Reading(srcBase, srcOwn);
    StillCarried(g, start, ids0, ids, 1, out1, s, |p.dstBase.data|, Reading("", p.dstBase.data));
    var copies, out2;
    r, ids2, copies, out2 := DraftSplit(p, g, start, ids, 1 + |out1|);
    if r != Done {
      return;
    }
    ids1, nrMore := ids, |out2|;
    base, own, baseStrs, ownStrs := [VOID] + out1, copies + out2, p.dstBase.data, p.dst.data;
    assert base + own == [VOID] + out1 + copies + out2;
    MakeNumbered(g, start, ids0, ids1, ids2, out1, copies, out2, s, baseStrs, ownStrs);
    Assemble(g, start, ids0, ids1, ids2, out1, copies, out2, s, baseStrs, ownStrs);
  }

  lemma StillCarried(g: seq<Type>, start: nat, ids0: seq<nat>, ids1: seq<nat>, first: nat, out: seq<Type>, s: Strings,
                     size: nat, s': Strings)
    requires |ids0| == |g| && first > 0 && AllRepresent(g, ids0, ids1, start, true, first, out, s, size, s')
    ensures |ids1| == |g| && forall x :: 0 <= x < |g| ==> (ids1[x] != 0 <==> ids0[x] != 0)
  {
  }

  lemma MakeNumbered(g: seq<Type>, start: nat, ids0: seq<nat>, ids1: seq<nat>, ids2: seq<nat>,
                     out1: seq<Type>, copies: seq<Type>, out2: seq<Type>, s: Strings, base: string, ownStrs: string)
    requires ValidGraph(g) && 0 < start <= |g| && |copies| == |g| - start
    requires Marks(g, start, ids0) && forall x :: 0 < x < |g| ==> (ids0[x] != 0 <==> Needed(g, start, x))
    requires AllRepresent(g, ids0, ids1, start, true, 1, out1, s, |base|, Reading("", base))
    requires |ids1| == |g|
    requires AllRepresent(g, ids1, ids2, start, false, 1 + |out1| + |copies|, out2, s, |base| + |ownStrs|,
      Reading(base, ownStrs))
    ensures Numbered(g, start, ids0, ids1, ids2, 1 + |out1|, |out2|)
  {
    hide Refs, Needed, Represents, Selected, PlacedAt;
  }

  /** Cut a split object off its base. */
  method DistillBase(g: seq<Type>, start: nat, srcBase: string, srcOwn: string)
    returns (r: Status, dist: Btf, own: seq<Type>, ownStrs: string, ghost ids: seq<nat>)
    requires ValidGraph(g) && 0 < start <= |g| <= MAX_NR_TYPES + 1 && BaseClosed(g, start)
    requires srcBase != "" && srcBase[0] == Strset.NUL
    requires forall x :: 0 <= x < |g| ==> InRange(Names(g[x]), |srcBase| + |srcOwn|)
    ensures r == Done ==>
      !Obstructed(g, start) && Distilled(g, start, Reading(srcBase, srcOwn), dist, own, ownStrs, ids)
    ensures r == Done ==> dist.strs != "" && dist.strs[0] == Strset.NUL
  {
    hide Refs, Names, Needed, BaseClosed, Marks, NewIds, Distilled, Numbered, AllDrafted, Obstructed, LookedUp;
    dist, own, ownStrs, ids := Btf([], ""), [], "", [];
    var ids0;
    r, ids0 := MarkAll(g, start);
    if r != Done {
      return;
    }
    var ids2, base, split, baseStrs;
    ghost var ids1, nrMore;
    r, ids2, base, split, baseStrs, ownStrs, ids1, nrMore := Draft(g, start, ids0, srcBase, srcOwn);
    if r != Done {
      return;
    }
    var m := NewIds(start, ids2, |base|);
    ghost var pre, s, s' := base + split, Reading(srcBase, srcOwn), Reading(baseStrs, ownStrs);
    forall k | 0 <= k < |pre|
      ensures WellFormed(pre[k]) && InRange(Refs(pre[k]), |m|) && !pre[k].kind.Other?
    {
      DraftedRefs(g, start, m, pre, s, |baseStrs|, |baseStrs| + |ownStrs|, s', k);
    }
    assert forall k :: 0 <= k < |base| ==> base[k] == pre[k];
    assert forall k :: 0 <= k < |split| ==> split[k] == pre[|base| + k];
    var base', own';
    r, base' := UpdateIds(base, m);
    if r != Done {
      return;
    }
    r, own' := UpdateIds(split, m);
    if r != Done {
      return;
    }
    ghost var g' := base' + own';
    assert Updated(pre, m, g');
    MakeDistilled(g, start, ids0, ids1, ids2, |base|, nrMore, pre, g', s, baseStrs, ownStrs, |baseStrs| + |ownStrs|);
    dist, own, ids := Btf(base', baseStrs), own', m;
    assert g'[..|base|] == base' && g'[|base|..] == own';
  }

  lemma MarksCarried(g: seq<Type>, start: nat, ids: seq<nat>)
    requires ValidGraph(g) && Marks(g, start, ids)
    ensures |ids| == |g| && forall x :: 0 <= x < |g| && ids[x] != 0 ==> 0 < x < start && IsCarried(g[x].kind)
  {
  }
}
