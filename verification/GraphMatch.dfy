/** Matching the graph below a candidate type with the graph below a canonical type, side by side. */
module GraphMatch {
  import opened BtfTypes
  import opened Meaning
  import opened TypeEquality
  import opened CanonMap
  import opened IdenticalTypes

  datatype Errno = Inval | Loop | NoMem | NotSupported | Endless

  datatype Answer = Same | Differs | Error(error: Errno)

  // ----- what is recorded -----

  /** The recorded pairs: `hm` maps a canonical id to its partner, `list` has the ids in order. */
  ghost predicate Recorded(n: nat, hm: seq<nat>, list: seq<nat>) {
    && |hm| == n <= MAX_NR_TYPES + 1
    && (forall i :: 0 <= i < n ==> hm[i] < n || hm[i] == UNPROCESSED)
    && (forall i :: 0 <= i < n ==> (Mapped(hm[i]) <==> i in list))
    && InRange(list, n) && |list| <= n
    && (forall i, j :: 0 <= i < j < |list| ==> list[i] != list[j])
  }

  ghost predicate Extends(hm: seq<nat>, hm': seq<nat>) {
    |hm| == |hm'| && forall i :: 0 <= i < |hm| && Mapped(hm[i]) ==> hm'[i] == hm[i]
  }

  /** The type that a forward declaration has been resolved to, or the id itself. */
  ghost function ResolveFwd(g: seq<Type>, m: seq<nat>, id: nat): (r: nat)
    requires Acyclic(m) && |m| == |g| && id < |g|
    ensures r < |g|
  {
    if g[id].kind.Fwd? && !g[Resolve(m, id)].kind.Fwd? then Resolve(m, id) else id
  }

  /** Compatible without a look at what the two types refer to. */
  predicate PairCompatible(cand: Type, canon: Type)
    requires WellFormed(cand) && WellFormed(canon)
  {
    cand.name == canon.name &&
    if cand.kind == canon.kind then LocallyCompatible(cand, canon)
    else (cand.kind.Fwd? && canon.kind == FwdKind(cand)) || (canon.kind.Fwd? && cand.kind == FwdKind(canon))
  }

  ghost predicate IdenticalTo(g: seq<Type>, a: nat, b: nat)
    requires ValidGraph(g) && a < |g| && b < |g|
  {
    exists budget: nat :: Identical(g, a, b, IDENTICAL_DEPTH, budget, budget) == Yes
  }

  /** Why two referenced types may be taken for the same: both have one canonical id, or the pair is
      recorded, or the candidate is identical to the recorded partner. */
  ghost predicate Justified(g: seq<Type>, m: seq<nat>, hm: seq<nat>, cand: nat, canon: nat)
    requires ValidGraph(g) && Acyclic(m) && |m| == |g| == |hm| && cand < |g| && canon < |g|
    requires forall i :: 0 <= i < |hm| ==> hm[i] < |hm| || hm[i] == UNPROCESSED
  {
    || Resolve(m, cand) == Resolve(m, canon)
    || var partner := hm[ResolveFwd(g, m, canon)];
       Mapped(partner) && (partner == cand || IdenticalTo(g, partner, cand))
  }

  /** A recorded pair whose referenced types are justified in turn. */
  ghost predicate ClosedAt(g: seq<Type>, m: seq<nat>, hm: seq<nat>, canon: nat)
    requires ValidGraph(g) && Acyclic(m) && |m| == |g| == |hm| && canon < |g|
    requires forall i :: 0 <= i < |hm| ==> hm[i] < |hm| || hm[i] == UNPROCESSED
    requires Mapped(hm[canon])
  {
    && PairCompatible(g[hm[canon]], g[canon])
    && (g[hm[canon]].kind == g[canon].kind ==>
          AllJustified(g, m, hm, VisitRefs(g[hm[canon]]), VisitRefs(g[canon])))
  }

  ghost predicate AllJustified(g: seq<Type>, m: seq<nat>, hm: seq<nat>, xs: seq<nat>, ys: seq<nat>)
    requires ValidGraph(g) && Acyclic(m) && |m| == |g| == |hm|
    requires forall i :: 0 <= i < |hm| ==> hm[i] < |hm| || hm[i] == UNPROCESSED
  {
    |xs| == |ys| && forall j :: 0 <= j < |xs| ==> xs[j] < |g| && ys[j] < |g| && Justified(g, m, hm, xs[j], ys[j])
  }

  // ----- a closed relation is an equivalence -----

  /** No forward declaration, and no empty enum, has anything to be resolved to: no struct or union
      of the declared kind has the name of a forward declaration, and enums that share their name
      with an empty enum are equal to it. */
  ghost predicate NothingToResolve(g: seq<Type>) {
    && (forall i, j :: 0 <= i < |g| && 0 <= j < |g| && g[i].kind.Fwd? && g[i].name == g[j].name ==>
          g[j].kind != FwdKind(g[i]))
    && EnumsSettled(g)
  }

  ghost predicate Sound(g: seq<Type>, m: seq<nat>)
    requires ValidGraph(g)
  {
    |m| == |g| && forall i :: 0 <= i < |m| && m[i] < |m| ==> Equivalent(g, i, m[i])
  }

  lemma {:induction false} ResolveSound(g: seq<Type>, m: seq<nat>, i: nat)
    requires ValidGraph(g) && Acyclic(m) && Sound(g, m) && i < |m|
    ensures Equivalent(g, i, Resolve(m, i))
    decreases RankOf(m)[i]
  {
    if IsLink(m, i) {
      ResolveSound(g, m, m[i]);
      EquivalentTrans(g, i, m[i], Resolve(m, i));
    }
  }

  lemma EquivalentTrans(g: seq<Type>, a: nat, b: nat, c: nat)
    requires ValidGraph(g) && a < |g| && b < |g| && c < |g|
    requires Equivalent(g, a, b) && Equivalent(g, b, c)
    ensures Equivalent(g, a, c)
  {
    forall k: nat
      ensures Unfold(g, a, k) == Unfold(g, c, k)
    {
      assert Unfold(g, a, k) == Unfold(g, b, k) == Unfold(g, c, k);
    }
  }

  ghost predicate Closed(g: seq<Type>, m: seq<nat>, hm: seq<nat>)
    requires ValidGraph(g) && Acyclic(m) && |m| == |g| == |hm|
    requires forall i :: 0 <= i < |hm| ==> hm[i] < |hm| || hm[i] == UNPROCESSED
  {
    forall c :: 0 <= c < |hm| && Mapped(hm[c]) ==> ClosedAt(g, m, hm, c)
  }

  /** Partners in a closed relation unfold alike, to every depth. */
  lemma {:induction false} ClosedUnfold(g: seq<Type>, m: seq<nat>, hm: seq<nat>, c: nat, k: nat)
    requires ValidGraph(g) && Acyclic(m) && |m| == |g| == |hm| && c < |g|
    requires forall i :: 0 <= i < |hm| ==> hm[i] < |hm| || hm[i] == UNPROCESSED
    requires NothingToResolve(g) && Sound(g, m) && Closed(g, m, hm) && Mapped(hm[c])
    ensures Unfold(g, hm[c], k) == Unfold(g, c, k)
    decreases k, 0
  {
    hide LocallyCompatible, Shape, Refs;
    if k > 0 {
      assert ClosedAt(g, m, hm, c);
      var cand, canon := g[hm[c]], g[c];
      LocallyCompatibleShape(cand, canon);
      var xs, ys := VisitRefs(cand), VisitRefs(canon);
      forall j | 0 <= j < |xs|
        ensures xs[j] < |g| && ys[j] < |g| && Unfold(g, xs[j], k - 1) == Unfold(g, ys[j], k - 1)
      {
        assert Justified(g, m, hm, xs[j], ys[j]);
        JustifiedUnfold(g, m, hm, xs[j], ys[j], k - 1);
      }
      UnfoldByVisited(g, hm[c], c, k);
    }
  }

  lemma {:induction false} JustifiedUnfold(g: seq<Type>, m: seq<nat>, hm: seq<nat>, cand: nat, canon: nat, k: nat)
    requires ValidGraph(g) && Acyclic(m) && |m| == |g| == |hm| && cand < |g| && canon < |g|
    requires forall i :: 0 <= i < |hm| ==> hm[i] < |hm| || hm[i] == UNPROCESSED
    requires NothingToResolve(g) && Sound(g, m) && Closed(g, m, hm) && Justified(g, m, hm, cand, canon)
    ensures Unfold(g, cand, k) == Unfold(g, canon, k)
    decreases k, 1
  {
    hide Unfold;
    ResolveSound(g, m, cand);
    ResolveSound(g, m, canon);
    if Resolve(m, cand) == Resolve(m, canon) {
      assert Unfold(g, cand, k) == Unfold(g, Resolve(m, cand), k);
      assert Unfold(g, canon, k) == Unfold(g, Resolve(m, canon), k);
    } else {
      var c := ResolveFwd(g, m, canon);
      assert Unfold(g, c, k) == Unfold(g, canon, k);
      ClosedUnfold(g, m, hm, c, k);
      var partner := hm[c];
      if partner != cand {
        var budget: nat :| Identical(g, partner, cand, IDENTICAL_DEPTH, budget, budget) == Yes;
        IdenticalSound(g, partner, cand, IDENTICAL_DEPTH, budget, budget);
        assert Unfold(g, partner, k) == Unfold(g, cand, k);
      }
    }
  }

  lemma UnfoldByVisited(g: seq<Type>, a: nat, b: nat, k: nat)
    requires ValidGraph(g) && a < |g| && b < |g| && k > 0
    requires Shape(g[a]) == Shape(g[b])
    requires var xs, ys := VisitRefs(g[a]), VisitRefs(g[b]);
      |xs| == |ys| && forall j :: 0 <= j < |xs| ==>
        xs[j] < |g| && ys[j] < |g| && Unfold(g, xs[j], k - 1) == Unfold(g, ys[j], k - 1)
    ensures Unfold(g, a, k) == Unfold(g, b, k)
  {
    hide Refs, VisitRefs, Shape;
    var rs, rs' := Refs(g[a]), Refs(g[b]);
    assert g[a].kind == g[b].kind && |rs| == |rs'| by {
      assert Shape(g[a]).kind == Shape(g[b]).kind && |Refs(Shape(g[a]))| == |Refs(Shape(g[b]))|;
    }
    forall j | 0 <= j < |rs|
      ensures Unfold(g, rs[j], k - 1) == Unfold(g, rs'[j], k - 1)
    {
      VisitedAt(g[a], j);
      VisitedAt(g[b], j);
    }
  }

  /** Where a reference is visited. */
  lemma VisitedAt(t: Type, j: nat)
    requires WellFormed(t) && j < |Refs(t)|
    ensures var i := if t.kind.Array? then 1 - j else j; 0 <= i < |VisitRefs(t)| && VisitRefs(t)[i] == Refs(t)[j]
  {
    if t.kind.Array? {
      NoCols(0, t.elems);
    }
  }

  /** When nothing is left to resolve, the recorded pairs of a closed relation are equivalent types. */
  lemma ClosedEquivalent(g: seq<Type>, m: seq<nat>, hm: seq<nat>, c: nat)
    requires ValidGraph(g) && Acyclic(m) && |m| == |g| == |hm| && c < |g|
    requires forall i :: 0 <= i < |hm| ==> hm[i] < |hm| || hm[i] == UNPROCESSED
    requires NothingToResolve(g) && Sound(g, m) && Closed(g, m, hm) && Mapped(hm[c])
    ensures Equivalent(g, hm[c], c)
  {
    forall k: nat
      ensures Unfold(g, hm[c], k) == Unfold(g, c, k)
    {
      ClosedUnfold(g, m, hm, c, k);
    }
  }
}
