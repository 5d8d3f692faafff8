/** Distilling: a split object is cut off from its base. What it needs of the base goes to a small base of
    named types without members, or, in full, to the split object itself. */
module Distill {
  import opened Options
  import opened BtfTypes
  import opened Meaning
  import opened GraphMatch
  import opened DedupState
  import opened StringPass
  import opened Rewrite
  import opened Pipe
  import opened DistillMark
  import Hashmap
  import Strset

  /** Which needed types go to the distilled base; the others are copied to the split object. */
  predicate GoesToBase(t: Type) {
    match t.kind
    case Int => true
    case Float => true
    case Fwd => true
    case Struct => t.name != 0
    case Union => t.name != 0
    case Enum => t.name != 0
    case Enum64 => t.name != 0
    case _ => false
  }

  /** What the distilled base keeps of a type. */
  ghost predicate Skeleton(t: Type, src: Strings, t': Type, size: nat, dst: Strings) {
    && WellFormed(t) && WellFormed(t') && ReadsAs(t.name, src, t'.name, size, dst)
    && t'.kind == (if t.kind.Enum64? then Enum else t.kind)
    && (if t.kind.Fwd? then t'.kflag == t.kflag else t'.st == t.st)
    && (t.kind.Int? ==> t'.extra == t.extra)
    && (IsComposite(t) || IsAnyEnum(t) ==> t'.vlen == 0)
  }

  /** How a needed type is represented before ids are updated. */
  ghost predicate Represents(t: Type, src: Strings, t': Type, size: nat, dst: Strings) {
    if GoesToBase(t) then Skeleton(t, src, t', size, dst) && Refs(t') == (if t.kind.Fwd? then Refs(t) else [])
    else CopyOf(t, src, t', size, dst)
  }

  lemma RepresentsOn(t: Type, src: Strings, t': Type, base: string, was: Section, now: Section)
    requires Represents(t, src, t', |base| + |was.data|, Reading(base, was.data)) && Continues(was, now)
    ensures Represents(t, src, t', |base| + |now.data|, Reading(base, now.data))
  {
    hide CopyOf, Refs;
    if GoesToBase(t) {
      ReadsOn(t.name, src, t'.name, base, was, now, |base| + |was.data|, |base| + |now.data|);
    } else {
      CopyOn(t, src, t', base, was, now, |base| + |was.data|, |base| + |now.data|);
    }
  }

  lemma CopyIsSkeleton(t: Type, src: Strings, t': Type, size: nat, dst: Strings)
    requires CopyOf(t, src, t', size, dst) && (t.kind.Int? || t.kind.Float? || t.kind.Fwd?)
    ensures Skeleton(t, src, t', size, dst) && Refs(t') == (if t.kind.Fwd? then Refs(t) else [])
  {
    hide Cols, WithCols;
    RefsOfWithNames(t, Names(t'));
    assert Names(t)[0] == t.name && Names(t')[0] == t'.name;
    NoCols(RefLo(t.kind), t.elems);
  }

  /** Sizes that enums can have. */
  predicate IsEnumSize(n: nat) {
    n == 1 || n == 2 || n == 4 || n == 8
  }

  /** Add the representation of one needed type to the target. */
  method Represent(p: StringPipe, t: Type) returns (r: Status, t': Type)
    requires p.Valid() && WellFormed(t) && InRange(Names(t), |p.srcBase| + |p.srcOwn|) && p.Src()(0) == ""
    requires IsCarried(t.kind)
    modifies p.dst, p.offMap, p.hdr
    ensures p.Valid() && p.dstBase.data == old(p.dstBase.data) && Continues(old(SectionOf(p.dst)), SectionOf(p.dst))
    ensures r == Done ==> Represents(t, p.Src(), t', |p.dstBase.data| + |p.dst.data|, p.Dst())
  {
    hide Names, Refs, Continues, CopyOf, StringPipe.Valid, Skeleton;
    if GoesToBase(t) && (IsComposite(t) || IsAnyEnum(t)) {
      r, t' := AddSkeleton(p, t);
      return;
    }
    ghost var copied;
    r, t', copied := p.AddType(t, 0);
    if r == Done {
      CopyWithin(p, t, t');
    }
    if r == Done && GoesToBase(t) {
      CopyIsSkeleton(t, p.Src(), t', |p.dstBase.data| + |p.dst.data|, p.Dst());
    }
  }

  /** What can be read is there. */
  lemma CopyWithin(p: StringPipe, t: Type, t': Type)
    requires p.Valid() && CopyOf(t, p.Src(), t', p.Size(), p.Dst())
    ensures CopyOf(t, p.Src(), t', |p.dstBase.data| + |p.dst.data|, p.Dst())
  {
    hide Names, WithNames, Continues, StringPipe.Valid;
    p.SizeFits();
    ContinuesRefl(SectionOf(p.dst));
    CopyOn(t, p.Src(), t', p.dstBase.data, SectionOf(p.dst), SectionOf(p.dst), p.Size(),
      |p.dstBase.data| + |p.dst.data|);
  }

  /** Add a named struct, union or enum without its members. */
  method AddSkeleton(p: StringPipe, t: Type) returns (r: Status, t': Type)
    requires p.Valid() && WellFormed(t) && t.name != 0 && (IsComposite(t) || IsAnyEnum(t))
    modifies p.dst, p.hdr
    ensures p.Valid() && p.dstBase.data == old(p.dstBase.data) && Continues(old(SectionOf(p.dst)), SectionOf(p.dst))
    ensures r == Done ==> Skeleton(t, p.Src(), t', |p.dstBase.data| + |p.dst.data|, p.Dst()) && Refs(t') == []
  {
    hide Names, Refs, Continues, Remembered, Indexed, Adds, Hashmap.Table.Valid, Strset.StrAt;
    t' := t;
    ContinuesRefl(SectionOf(p.dst));
    if IsAnyEnum(t) && !IsEnumSize(t.st) {
      return Fail(Inval), t;
    }
    var name := p.SrcStr(t.name);
    var off := Some(0);
    ZeroReadsEmpty(p.dstBase, p.dst, p.hdr.strLen);
    if name != "" {
      off := p.AddStr(name);
      if off.None? {
        return Fail(NoMem), t;
      }
    }
    t' := Type(if t.kind.Enum64? then Enum else t.kind, false, 0, off.value, t.st, [], []);
    EmptyRefs(t');
    r := Done;
  }

  lemma EmptyRefs(t: Type)
    requires (IsComposite(t) || t.kind.Enum?) && t.vlen == 0 && t.extra == [] && t.elems == []
    ensures WellFormed(t) && Refs(t) == []
  {
  }

  // ----- one pass over the needed types -----

  predicate Selected(g: seq<Type>, ids0: seq<nat>, x: nat, toBase: bool)
    requires |ids0| == |g|
  {
    0 < x < |g| && ids0[x] != 0 && GoesToBase(g[x]) == toBase
  }

  /** The needed types of one kind below `upTo` have got consecutive ids from `first` on. */
  ghost predicate Placed(g: seq<Type>, ids0: seq<nat>, ids: seq<nat>, upTo: nat, toBase: bool, first: nat, n: nat)
    requires |ids0| == |g|
  {
    && |ids| == |g| && upTo <= |g|
    && (forall x :: 0 <= x < |g| && !(x < upTo && Selected(g, ids0, x, toBase)) ==> ids[x] == ids0[x])
    && (forall x :: 0 <= x < upTo && Selected(g, ids0, x, toBase) ==> first <= ids[x] < first + n)
    && (forall x, y :: 0 <= x < y < upTo && Selected(g, ids0, x, toBase) && Selected(g, ids0, y, toBase) ==>
          ids[x] < ids[y])
    && (forall k :: first <= k < first + n ==> PlacedAt(g, ids0, ids, upTo, toBase, k))
  }

  ghost predicate PlacedAt(g: seq<Type>, ids0: seq<nat>, ids: seq<nat>, upTo: nat, toBase: bool, k: nat)
    requires |ids0| == |ids| == |g| && upTo <= |g|
  {
    exists x :: 0 <= x < upTo && Selected(g, ids0, x, toBase) && ids[x] == k
  }

  /** What has been placed represents the type that it was made for. */
  ghost predicate AllRepresent(g: seq<Type>, ids0: seq<nat>, ids: seq<nat>, upTo: nat, toBase: bool, first: nat,
                               out: seq<Type>, src: Strings, size: nat, dst: Strings)
    requires |ids0| == |g|
  {
    Placed(g, ids0, ids, upTo, toBase, first, |out|) &&
    forall x :: 0 <= x < upTo && Selected(g, ids0, x, toBase) ==> Represents(g[x], src, out[ids[x] - first], size, dst)
  }

  lemma PlaceOne(g: seq<Type>, ids0: seq<nat>, ids: seq<nat>, i: nat, toBase: bool, first: nat, n: nat)
    requires |ids0| == |g| && i < |g| && Placed(g, ids0, ids, i, toBase, first, n)
    ensures Selected(g, ids0, i, toBase) ==> Placed(g, ids0, ids[i := first + n], i + 1, toBase, first, n + 1)
    ensures !Selected(g, ids0, i, toBase) ==> Placed(g, ids0, ids, i + 1, toBase, first, n)
  {
    hide Selected;
    var ids', next := ids[i := first + n], i + 1;
    forall k | first <= k < first + n
      ensures PlacedAt(g, ids0, ids', next, toBase, k) && PlacedAt(g, ids0, ids, next, toBase, k)
    {
      assert PlacedAt(g, ids0, ids, i, toBase, k);
      var x :| 0 <= x < i && Selected(g, ids0, x, toBase) && ids[x] == k;
      assert ids'[x] == k;
    }
    if Selected(g, ids0, i, toBase) {
      assert ids'[i] == first + n;
      assert PlacedAt(g, ids0, ids', next, toBase, first + n);
    }
  }

  lemma AllRepresentOn(g: seq<Type>, ids0: seq<nat>, ids: seq<nat>, upTo: nat, toBase: bool, first: nat,
                       out: seq<Type>, src: Strings, base: string, was: Section, now: Section)
    requires |ids0| == |g| && Continues(was, now)
    requires AllRepresent(g, ids0, ids, upTo, toBase, first, out, src, |base| + |was.data|, Reading(base, was.data))
    ensures AllRepresent(g, ids0, ids, upTo, toBase, first, out, src, |base| + |now.data|, Reading(base, now.data))
  {
    hide Selected, Represents, Continues;
    forall x | 0 <= x < upTo && Selected(g, ids0, x, toBase)
      ensures Represents(g[x], src, out[ids[x] - first], |base| + |now.data|, Reading(base, now.data))
    {
      RepresentsOn(g[x], src, out[ids[x] - first], base, was, now);
    }
  }

  /** Add the needed types that go to one side. */
  method AddNeeded(p: StringPipe, g: seq<Type>, start: nat, ids0: seq<nat>, toBase: bool, first: nat)
    returns (r: Status, ids: seq<nat>, out: seq<Type>)
    requires p.Valid() && p.Src()(0) == "" && ValidGraph(g) && 0 < start <= |g| == |ids0|
    requires forall x :: 0 <= x < |g| ==> InRange(Names(g[x]), |p.srcBase| + |p.srcOwn|)
    requires forall x :: 0 <= x < |g| && ids0[x] != 0 ==> x < start && IsCarried(g[x].kind)
    modifies p.dst, p.offMap, p.hdr
    ensures p.Valid() && Continues(old(SectionOf(p.dst)), SectionOf(p.dst))
    ensures r == Done ==> |out| < start
    ensures r == Done ==>
      AllRepresent(g, ids0, ids, start, toBase, first, out, p.Src(), |p.dstBase.data| + |p.dst.data|, p.Dst())
  {
    hide Names, Refs, Continues, StringPipe.Valid, AllRepresent, Represents, IsCarried, GoesToBase;
    ContinuesRefl(SectionOf(p.dst));
    ids, out := ids0, [];
    var i := 1;
    NonePlaced(g, ids0, toBase, first, p.Src(), |p.dstBase.data| + |p.dst.data|, p.Dst());
    while i < start
      invariant |out| < i <= start && p.Valid() && Continues(old(SectionOf(p.dst)), SectionOf(p.dst)) && |ids| == |g|
      invariant AllRepresent(g, ids0, ids, i, toBase, first, out, p.Src(), |p.dstBase.data| + |p.dst.data|, p.Dst())
    {
      if Selected(g, ids0, i, toBase) {
        ghost var before := SectionOf(p.dst);
        var t';
        r, t' := Represent(p, g[i]);
        ContinuesTrans(old(SectionOf(p.dst)), before, SectionOf(p.dst));
        if r != Done {
          return;
        }
        AllRepresentOn(g, ids0, ids, i, toBase, first, out, p.Src(), p.dstBase.data, before, SectionOf(p.dst));
        RepresentOne(g, ids0, ids, i, toBase, first, out, t', p.Src(), |p.dstBase.data| + |p.dst.data|, p.Dst());
        ids, out := ids[i := first + |out|], out + [t'];
      } else {
        SkipOne(g, ids0, ids, i, toBase, first, out, p.Src(), |p.dstBase.data| + |p.dst.data|, p.Dst());
      }
      i := i + 1;
    }
    r := Done;
  }

  lemma NonePlaced(g: seq<Type>, ids0: seq<nat>, toBase: bool, first: nat, src: Strings, size: nat, dst: Strings)
    requires |ids0| == |g| > 0
    ensures AllRepresent(g, ids0, ids0, 1, toBase, first, [], src, size, dst)
  {
  }

  lemma SkipOne(g: seq<Type>, ids0: seq<nat>, ids: seq<nat>, i: nat, toBase: bool, first: nat, out: seq<Type>,
                src: Strings, size: nat, dst: Strings)
    requires |ids0| == |g| && i < |g| && AllRepresent(g, ids0, ids, i, toBase, first, out, src, size, dst)
    requires !Selected(g, ids0, i, toBase)
    ensures AllRepresent(g, ids0, ids, i + 1, toBase, first, out, src, size, dst)
  {
    hide Selected, Represents;
    PlaceOne(g, ids0, ids, i, toBase, first, |out|);
  }

  lemma RepresentOne(g: seq<Type>, ids0: seq<nat>, ids: seq<nat>, i: nat, toBase: bool, first: nat, out: seq<Type>,
                     t': Type, src: Strings, size: nat, dst: Strings)
    requires |ids0| == |g| && i < |g| && AllRepresent(g, ids0, ids, i, toBase, first, out, src, size, dst)
    requires Selected(g, ids0, i, toBase) && Represents(g[i], src, t', size, dst)
    ensures AllRepresent(g, ids0, ids[i := first + |out|], i + 1, toBase, first, out + [t'], src, size, dst)
  {
    hide Selected, Represents;
    PlaceOne(g, ids0, ids, i, toBase, first, |out|);
  }

  // ----- the own types -----

  ghost predicate AllCopied(g: seq<Type>, start: nat, out: seq<Type>, src: Strings, size: nat, dst: Strings) {
    start + |out| <= |g| && forall k :: 0 <= k < |out| ==> CopyOf(g[start + k], src, out[k], size, dst)
  }

  lemma AllCopiedOn(g: seq<Type>, start: nat, out: seq<Type>, src: Strings, base: string, was: Section, now: Section)
    requires Continues(was, now) && AllCopied(g, start, out, src, |base| + |was.data|, Reading(base, was.data))
    ensures AllCopied(g, start, out, src, |base| + |now.data|, Reading(base, now.data))
  {
    hide CopyOf, Continues;
    Longer(was, now);
    forall k | 0 <= k < |out|
      ensures CopyOf(g[start + k], src, out[k], |base| + |now.data|, Reading(base, now.data))
    {
      CopyOn(g[start + k], src, out[k], base, was, now, |base| + |was.data|, |base| + |now.data|);
    }
  }

  lemma NoneCopied(g: seq<Type>, start: nat, src: Strings, size: nat, dst: Strings)
    requires start <= |g|
    ensures AllCopied(g, start, [], src, size, dst)
  {
  }

  lemma CopiedOne(g: seq<Type>, start: nat, out: seq<Type>, t': Type, src: Strings, size: nat, dst: Strings)
    requires AllCopied(g, start, out, src, size, dst) && start + |out| < |g| &&
      CopyOf(g[start + |out|], src, t', size, dst)
    ensures AllCopied(g, start, out + [t'], src, size, dst)
  {
    hide CopyOf;
  }

  method AddOwn(p: StringPipe, g: seq<Type>, start: nat) returns (r: Status, out: seq<Type>)
    requires p.Valid() && p.Src()(0) == "" && ValidGraph(g) && start <= |g|
    requires forall x :: 0 <= x < |g| ==> InRange(Names(g[x]), |p.srcBase| + |p.srcOwn|)
    modifies p.dst, p.offMap, p.hdr
    ensures p.Valid() && Continues(old(SectionOf(p.dst)), SectionOf(p.dst))
    ensures r == Done ==> |out| == |g| - start
    ensures r == Done ==> AllCopied(g, start, out, p.Src(), |p.dstBase.data| + |p.dst.data|, p.Dst())
  {
    hide Names, Refs, Continues, StringPipe.Valid, CopyOf, AllCopied;
    ContinuesRefl(SectionOf(p.dst));
    out := [];
    NoneCopied(g, start, p.Src(), |p.dstBase.data| + |p.dst.data|, p.Dst());
    var i := start;
    while i < |g|
      invariant start <= i <= |g| && |out| == i - start && p.Valid() &&
        Continues(old(SectionOf(p.dst)), SectionOf(p.dst))
      invariant AllCopied(g, start, out, p.Src(), |p.dstBase.data| + |p.dst.data|, p.Dst())
    {
      ghost var before := SectionOf(p.dst);
      var t';
      ghost var copied;
      r, t', copied := p.AddType(g[i], 0);
      ContinuesTrans(old(SectionOf(p.dst)), before, SectionOf(p.dst));
      if r != Done {
        return;
      }
      CopyWithin(p, g[i], t');
      AllCopiedOn(g, start, out, p.Src(), p.dstBase.data, before, SectionOf(p.dst));
      CopiedOne(g, start, out, t', p.Src(), |p.dstBase.data| + |p.dst.data|, p.Dst());
      out := out + [t'];
      i := i + 1;
    }
    r := Done;
  }

  // ----- ids -----

  /** Needed types have new ids; own types move down with the start of the own types. */
  function NewIds(start: nat, ids: seq<nat>, nrBase: nat): (m: seq<nat>)
    ensures |m| == |ids|
  {
    seq(|ids|, x requires 0 <= x < |ids| =>
      if ids[x] != 0 then ids[x] else if x >= start then x - start + nrBase else x)
  }

  method UpdateIds(types: seq<Type>, m: seq<nat>) returns (r: Status, out: seq<Type>)
    requires forall i :: 0 <= i < |types| ==> WellFormed(types[i]) && InRange(Refs(types[i]), |m|)
    ensures |out| == |types| && (r == Done <==> forall i :: 0 <= i < |types| ==> !types[i].kind.Other?)
    ensures r == Done ==> forall i :: 0 <= i < |types| ==> out[i] == LookedUp(m, types[i])
  {
    hide Refs, LookedUp;
    out := types;
    var i := 0;
    while i < |types|
      invariant 0 <= i <= |types| == |out| && out[i..] == types[i..]
      invariant forall x :: 0 <= x < i ==> !types[x].kind.Other? && out[x] == LookedUp(m, types[x])
    {
      assert out[i] == out[i..][0] == types[i..][0];
      var t';
      r, t' := LookUpIds(out[i], m);
      if r != Done {
        return;
      }
      out := out[i := t'];
      i := i + 1;
    }
    r := Done;
  }
}
