/** Distilling and then relocating onto the original base brings every own type back. */
module RoundTrip {
  import opened BtfTypes
  import opened Meaning
  import opened CanonMap
  import opened DedupState
  import opened DedupResult
  import opened StringPass
  import opened Rewrite
  import opened NameIndex
  import opened Embedding
  import opened DistillMark
  import opened Distill
  import opened DistillBase
  import opened RelocateMap
  import opened Relocate

  /** A split object over a base: base types refer to base types and have base strings. */
  ghost predicate SplitObject(g: seq<Type>, start: nat, base: string, own: string) {
    && ValidGraph(g) && 0 < start <= |g| <= MAX_NR_TYPES + 1 && BaseClosed(g, start) && StartsEmptily(base)
    && (forall b :: 0 <= b < start ==> InRange(Names(g[b]), |base|))
    && (forall b :: 0 <= b < start ==> g[b].name < |base|)
    && (forall x :: 0 <= x < |g| ==> InRange(Names(g[x]), |base| + |own|))
  }

  /** The split object after a round trip. */
  ghost predicate Returned(g: seq<Type>, start: nat, base: string, s: Strings,
                           dist: Btf, own: seq<Type>, ownStrs: string, ids: seq<nat>, own': seq<Type>, back: seq<nat>)
    requires ValidGraph(g) && start <= |g|
  {
    && |ids| == |g| && Distilled(g, start, s, dist, own, ownStrs, ids) && ValidDistilled(dist.types)
    && ValidBtf(Btf(g[..start], base))
    && Relocated(dist, own, ownStrs, Btf(g[..start], base), own', back)
  }

  // ----- the distilled types come home -----

  lemma OriginalFits(g: seq<Type>, start: nat, base: string, srcOwn: string, dist: Btf, own: seq<Type>,
                     ownStrs: string, ids: seq<nat>, x: nat)
    requires SplitObject(g, start, base, srcOwn) && ValidBtf(dist) && ValidGraph(dist.types + own) && 0 < x < start &&
      |ids| == |g|
    requires 0 < ids[x] < |dist.types| && ValidDistilled(dist.types) && GoesToBase(g[x])
    requires Skeleton(g[x], Reading(base, srcOwn), dist.types[ids[x]], |dist.strs|, Reading(dist.strs, ownStrs))
    ensures ValidBtf(Btf(g[..start], base)) && FitsWell(dist, Btf(g[..start], base), dist.types + own, x, ids[x])
  {
    hide Refs, Names, Embedded, BaseClosed, Namesakes;
    var b := Btf(g[..start], base);
    assert forall i :: 0 <= i < start ==> b.types[i] == g[i];
    var t, t' := g[x], dist.types[ids[x]];
    assert t'.name != 0 && IsDistilledKind(t'.kind);
    assert NameOf(b, x) == NameOf(dist, ids[x]);
    assert KindFits(t', t);
    assert Alike(KeyOf(b, x), InfoOf(dist, ids[x]));
    assert Found(dist, b, x, ids[x]);
    assert Embedded(dist.types + own, |dist.types|, ids[x]) ==> t.st == t'.st by {
      EmbeddedComposite(dist.types, own, ids[x]);
    }
  }

  lemma EmbeddedComposite(types: seq<Type>, own: seq<Type>, d: nat)
    requires ValidGraph(types + own) && d < |types|
    ensures Embedded(types + own, |types|, d) ==> IsComposite(types[d])
  {
  }

  lemma OneStandIn(dist: Btf, base: Btf, g: seq<Type>, a: nat, b: nat, d: nat)
    requires ValidBtf(dist) && ValidBtf(base) && ValidGraph(g) && d < |dist.types|
    requires StandsFor(dist, base, g, a, d) && FitsWell(dist, base, g, b, d)
    ensures a == b
  {
    hide Found, Embedded;
  }

  /** Every represented type of the original, and where it is in the end. */
  lemma BackHome(g: seq<Type>, start: nat, base: string, srcOwn: string, dist: Btf, own: seq<Type>, ownStrs: string,
                 ids: seq<nat>, own': seq<Type>, back: seq<nat>, x: nat)
    requires SplitObject(g, start, base, srcOwn) && x < |g| && (x == 0 || Used(g, start, x))
    requires Returned(g, start, base, Reading(base, srcOwn), dist, own, ownStrs, ids, own', back)
    ensures ids[x] < |back| && back[ids[x]] < start + |own'|
    ensures x == 0 || start <= x || GoesToBase(g[x]) ==> back[ids[x]] == x
    ensures 0 < x < start && !GoesToBase(g[x]) ==> start <= back[ids[x]]
    ensures start <= x || (x > 0 && !GoesToBase(g[x])) ==>
      |dist.types| <= ids[x] && back[ids[x]] - start == ids[x] - |dist.types|
  {
    hide Refs, Names, StandsFor, FitsWell, MovedOver, IsImage, Needed, BaseClosed, Skeleton, GoesToBase;
    if 0 < x < start && GoesToBase(g[x]) {
      assert Used(g, start, x);
      assert (dist.types + own)[ids[x]] == dist.types[ids[x]];
      OriginalFits(g, start, base, srcOwn, dist, own, ownStrs, ids, x);
      OneStandIn(dist, Btf(g[..start], base), dist.types + own, back[ids[x]], x, ids[x]);
    } else if x > 0 {
      assert PlacedRight(g, start, x, |dist.types|, |dist.types + own|, ids[x]);
    }
  }

  // ----- all own types come home -----

  /** A type that is represented in full has, after the round trip, what it had before, with its references
      led home. */
  ghost predicate HasReturned(g: seq<Type>, s: Strings, g': seq<Type>, s': Strings, ids: seq<nat>, back: seq<nat>,
                              x: nat, x': nat)
    requires ValidGraph(g) && x < |g| == |ids|
  {
    && x' < |g'| && WellFormed(g'[x']) && |Refs(g'[x'])| == |Refs(g[x])|
    && Blank(g'[x']) == Blank(g[x]) && Read(Names(g'[x']), s') == Read(Names(g[x]), s)
    && (forall j :: 0 <= j < |Refs(g[x])| ==>
      ids[Refs(g[x])[j]] < |back| && Refs(g'[x'])[j] == back[ids[Refs(g[x])[j]]])
  }

  lemma FullReturn(g: seq<Type>, start: nat, base: string, srcOwn: string, dist: Btf, own: seq<Type>, ownStrs: string,
                   ids: seq<nat>, own': seq<Type>, back: seq<nat>, x: nat)
    requires SplitObject(g, start, base, srcOwn) && x < |g| && Used(g, start, x) && (start <= x || !GoesToBase(g[x]))
    requires Returned(g, start, base, Reading(base, srcOwn), dist, own, ownStrs, ids, own', back)
    ensures ids[x] < |back|
    ensures HasReturned(g, Reading(base, srcOwn), g[..start] + own', Reading(base, ownStrs), ids, back, x, back[ids[x]])
  {
    hide Refs, Names, StandsFor, IsImage, Needed, BaseClosed, Skeleton, GoesToBase, Blank;
    BackHome(g, start, base, srcOwn, dist, own, ownStrs, ids, own', back, x);
    var mid, k := dist.types + own, ids[x] - |dist.types|;
    var t1, t2 := mid[ids[x]], own'[k];
    assert Faithfully(g[x], x < start && GoesToBase(g[x]), Reading(base, srcOwn), t1, |dist.strs|,
      Reading(dist.strs, ownStrs), ids);
    assert MovedOver(t1, Reading(dist.strs, ownStrs), t2, Reading(base, ownStrs), back);
    MovedTwice(g[x], Reading(base, srcOwn), t1, Reading(dist.strs, ownStrs), t2, Reading(base, ownStrs), ids, back);
    assert (g[..start] + own')[back[ids[x]]] == t2;
  }

  lemma ReturnedRefs(g: seq<Type>, start: nat, base: string, srcOwn: string, dist: Btf, own: seq<Type>, ownStrs: string,
                     ids: seq<nat>, own': seq<Type>, back: seq<nat>, x: nat)
    requires SplitObject(g, start, base, srcOwn) && x < |g| && Used(g, start, x) && (start <= x || !GoesToBase(g[x]))
    requires Returned(g, start, base, Reading(base, srcOwn), dist, own, ownStrs, ids, own', back)
    ensures forall j :: 0 <= j < |Refs(g[x])| ==> var y := Refs(g[x])[j];
      (y == 0 || Used(g, start, y)) && ids[y] < |back| && back[ids[y]] < start + |own'|
  {
    hide Refs, Names, StandsFor, IsImage, Needed, BaseClosed, Skeleton, Distilled, Relocated, Used;
    forall j | 0 <= j < |Refs(g[x])|
      ensures var y := Refs(g[x])[j]; (y == 0 || Used(g, start, y)) && ids[y] < |back| && back[ids[y]] < start + |own'|
    {
      var y := Refs(g[x])[j];
      UsedRefs(g, start, x, y);
      BackHome(g, start, base, srcOwn, dist, own, ownStrs, ids, own', back, y);
    }
  }

  lemma ReturnedValid(g: seq<Type>, start: nat, base: string, srcOwn: string, dist: Btf, own: seq<Type>,
                      ownStrs: string,
                      ids: seq<nat>, own': seq<Type>, back: seq<nat>)
    requires SplitObject(g, start, base, srcOwn)
    requires Returned(g, start, base, Reading(base, srcOwn), dist, own, ownStrs, ids, own', back)
    ensures ValidGraph(g[..start] + own')
  {
    hide Refs, Names, StandsFor, Needed, Skeleton, Used, Blank, MovedOver, GoesToBase, PlacedRight;
    var g' := g[..start] + own';
    forall b | 0 <= b < |g'|
      ensures WellFormed(g'[b]) && InRange(Refs(g'[b]), |g'|) && (b > 0 ==> !g'[b].kind.Void?)
    {
      if start <= b {
        var k := |dist.types| + b - start;
        assert IsImage(g, start, ids, k);
        var x :| 0 <= x < |g| && Used(g, start, x) && ids[x] == k;
        OwnImage(g, start, |dist.types|, |dist.types| + |own|, x, k);
        BackHome(g, start, base, srcOwn, dist, own, ownStrs, ids, own', back, x);
        FullReturn(g, start, base, srcOwn, dist, own, ownStrs, ids, own', back, x);
        ReturnedRefs(g, start, base, srcOwn, dist, own, ownStrs, ids, own', back, x);
        BlankKind(g[x]);
        BlankKind(g'[b]);
        UsedNotVoid(g, start, x);
      } else {
        assert g'[b] == g[b];
      }
    }
  }

  lemma UsedNotVoid(g: seq<Type>, start: nat, x: nat)
    requires ValidGraph(g) && x < |g| && Used(g, start, x)
    ensures !g[x].kind.Void?
  {
  }

  lemma OwnImage(g: seq<Type>, start: nat, nrBase: nat, nr: nat, x: nat, id: nat)
    requires ValidGraph(g) && x < |g| && PlacedRight(g, start, x, nrBase, nr, id) && nrBase <= id
    ensures start <= x || !GoesToBase(g[x])
  {
  }

  /** The base means what it meant. */
  lemma {:induction false} BaseMeans(g: seq<Type>, start: nat, base: string, srcOwn: string, g': seq<Type>,
                                     ownStrs: string, b: nat, k: nat)
    requires SplitObject(g, start, base, srcOwn) && ValidGraph(g') && b < start <= |g'| && g'[..start] == g[..start]
    ensures Means(g', Reading(base, ownStrs), b, k) == Means(g, Reading(base, srcOwn), b, k)
    decreases k
  {
    hide Refs, Names, Blank;
    if k > 0 {
      assert g'[b] == g[b] by {
        assert g'[..start][b] == g[..start][b];
      }
      var rs, ns := Refs(g[b]), Names(g[b]);
      assert Read(ns, Reading(base, ownStrs)) == Read(ns, Reading(base, srcOwn));
      forall j | 0 <= j < |rs|
        ensures Means(g', Reading(base, ownStrs), rs[j], k - 1) == Means(g, Reading(base, srcOwn), rs[j], k - 1)
      {
        BaseMeans(g, start, base, srcOwn, g', ownStrs, rs[j], k - 1);
      }
    }
  }

  /** Every represented type means, where it has come to, what it meant at first. */
  lemma {:induction false} ReturnedMeans(g: seq<Type>, start: nat, base: string, srcOwn: string, dist: Btf,
                                         own: seq<Type>, ownStrs: string,
                                         ids: seq<nat>, own': seq<Type>, back: seq<nat>, x: nat, k: nat)
    requires SplitObject(g, start, base, srcOwn) && x < |g| && (x == 0 || Used(g, start, x))
    requires Returned(g, start, base, Reading(base, srcOwn), dist, own, ownStrs, ids, own', back)
    requires ValidGraph(g[..start] + own')
    ensures ids[x] < |back| && back[ids[x]] < start + |own'|
    ensures Means(g[..start] + own', Reading(base, ownStrs), back[ids[x]], k) == Means(g, Reading(base, srcOwn), x, k)
    decreases k
  {
    hide Refs, Names, StandsFor, IsImage, Needed, BaseClosed, Skeleton, Blank, MovedOver, Distilled, Relocated, Used,
      GoesToBase;
    var g', s, s' := g[..start] + own', Reading(base, srcOwn), Reading(base, ownStrs);
    BackHome(g, start, base, srcOwn, dist, own, ownStrs, ids, own', back, x);
    if x == 0 || (x < start && GoesToBase(g[x])) {
      BaseMeans(g, start, base, srcOwn, g', ownStrs, x, k);
    } else if k > 0 {
      FullReturn(g, start, base, srcOwn, dist, own, ownStrs, ids, own', back, x);
      ReturnedRefs(g, start, base, srcOwn, dist, own, ownStrs, ids, own', back, x);
      var x', rs := back[ids[x]], Refs(g[x]);
      forall j | 0 <= j < |rs|
        ensures Means(g', s', Refs(g'[x'])[j], k - 1) == Means(g, s, rs[j], k - 1)
      {
        ReturnedMeans(g, start, base, srcOwn, dist, own, ownStrs, ids, own', back, rs[j], k - 1);
      }
    }
  }

  /** The round trip: every own type is back under its id and means what it meant, and its references to own
      types and to named types of the base are what they were. */
  lemma RoundTrip(g: seq<Type>, start: nat, base: string, srcOwn: string, dist: Btf, own: seq<Type>, ownStrs: string,
                  ids: seq<nat>, own': seq<Type>, back: seq<nat>)
    requires SplitObject(g, start, base, srcOwn)
    requires Returned(g, start, base, Reading(base, srcOwn), dist, own, ownStrs, ids, own', back)
    ensures ValidGraph(g[..start] + own') && |g| <= start + |own'|
    ensures forall x, k: nat :: start <= x < |g| ==>
      Means(g[..start] + own', Reading(base, ownStrs), x, k) == Means(g, Reading(base, srcOwn), x, k)
    ensures forall x :: start <= x < |g| ==> RefsHome(g, start, g[..start] + own', x)
  {
    hide Refs, Names, StandsFor, IsImage, Needed, BaseClosed, Skeleton, Blank, MovedOver, GoesToBase, PlacedRight;
    var g' := g[..start] + own';
    ReturnedValid(g, start, base, srcOwn, dist, own, ownStrs, ids, own', back);
    forall x, k: nat | start <= x < |g|
      ensures Means(g', Reading(base, ownStrs), x, k) == Means(g, Reading(base, srcOwn), x, k)
    {
      BackHome(g, start, base, srcOwn, dist, own, ownStrs, ids, own', back, x);
      ReturnedMeans(g, start, base, srcOwn, dist, own, ownStrs, ids, own', back, x, k);
    }
    forall x | start <= x < |g|
      ensures RefsHome(g, start, g', x)
    {
      BackHome(g, start, base, srcOwn, dist, own, ownStrs, ids, own', back, x);
      FullReturn(g, start, base, srcOwn, dist, own, ownStrs, ids, own', back, x);
      ReturnedRefs(g, start, base, srcOwn, dist, own, ownStrs, ids, own', back, x);
      forall j | 0 <= j < |Refs(g[x])|
        ensures var y := Refs(g[x])[j]; y == 0 || start <= y || GoesToBase(g[y]) ==> Refs(g'[x])[j] == y
      {
        BackHome(g, start, base, srcOwn, dist, own, ownStrs, ids, own', back, Refs(g[x])[j]);
      }
    }
  }

  /** References to void, to own types, and to base types that the distilled base names, as they were. */
  ghost predicate RefsHome(g: seq<Type>, start: nat, g': seq<Type>, x: nat)
    requires ValidGraph(g) && ValidGraph(g') && x < |g| && x < |g'|
  {
    && |Refs(g'[x])| == |Refs(g[x])|
    && (forall j :: 0 <= j < |Refs(g[x])| ==> var y := Refs(g[x])[j];
          y == 0 || start <= y || GoesToBase(g[y]) ==> Refs(g'[x])[j] == y)
  }

  /** Distill, then relocate onto the original base. */
  method DistillAndRelocate(g: seq<Type>, start: nat, base: string, srcOwn: string)
    returns (r: Status, own': seq<Type>, ownStrs: string)
    requires SplitObject(g, start, base, srcOwn)
    ensures r == Done ==> ValidGraph(g[..start] + own') && |g| <= start + |own'|
    ensures r == Done ==> forall x, k: nat :: start <= x < |g| ==>
      Means(g[..start] + own', Reading(base, ownStrs), x, k) == Means(g, Reading(base, srcOwn), x, k)
    ensures r == Done ==> forall x :: start <= x < |g| ==> RefsHome(g, start, g[..start] + own', x)
  {
    hide Refs, Names, BaseClosed, Distilled, Relocated, RefsHome, Obstructed, AllFound, StringsKnown;
    var dist, own, back;
    ghost var ids;
    own' := [];
    r, dist, own, ownStrs, ids := DistillBase.DistillBase(g, start, base, srcOwn);
    if r != Done {
      return;
    }
    DistilledParts(g, start, Reading(base, srcOwn), dist, own, ownStrs, ids);
    BaseIsValid(g, start, base, srcOwn);
    r, own', back := Relocate.Relocate(dist, own, ownStrs, Btf(g[..start], base));
    if r == Done {
      RoundTrip(g, start, base, srcOwn, dist, own, ownStrs, ids, own', back);
    }
  }

  lemma DistilledParts(g: seq<Type>, start: nat, s: Strings, dist: Btf, own: seq<Type>, ownStrs: string, ids: seq<nat>)
    requires ValidGraph(g) && Distilled(g, start, s, dist, own, ownStrs, ids)
    ensures ValidBtf(dist) && ValidGraph(dist.types + own) && |ids| == |g|
  {
    hide Refs, Names, Used, PlacedRight, Faithfully, IsImage;
  }

  lemma BaseIsValid(g: seq<Type>, start: nat, base: string, srcOwn: string)
    requires SplitObject(g, start, base, srcOwn)
    ensures ValidBtf(Btf(g[..start], base))
  {
    hide Refs, Names, BaseClosed;
  }
}
