/** The walk that matches two graphs. */
module EquivWalk {
  import opened BtfTypes
  import opened Meaning
  import opened TypeEquality
  import opened CanonMap
  import opened IdenticalTypes
  import opened GraphMatch
  import opened DedupState
  import opened Sets

  /** All pairs that `hm'` has and `hm` has not are closed, but for the one at `open`. */
  ghost predicate NewClosed(g: seq<Type>, m: seq<nat>, hm: seq<nat>, hm': seq<nat>, open: nat)
    requires ValidGraph(g) && Acyclic(m) && |m| == |g| == |hm'| == |hm|
    requires forall i :: 0 <= i < |hm'| ==> hm'[i] < |hm'| || hm'[i] == UNPROCESSED
  {
    forall c :: 0 <= c < |g| && c != open && Mapped(hm'[c]) && !Mapped(hm[c]) ==> ClosedAt(g, m, hm', c)
  }

  lemma JustifiedExtends(g: seq<Type>, m: seq<nat>, hm: seq<nat>, hm': seq<nat>, x: nat, y: nat)
    requires ValidGraph(g) && Acyclic(m) && |m| == |g| == |hm'| == |hm| && x < |g| && y < |g|
    requires forall i :: 0 <= i < |hm| ==> hm[i] < |hm| || hm[i] == UNPROCESSED
    requires forall i :: 0 <= i < |hm'| ==> hm'[i] < |hm'| || hm'[i] == UNPROCESSED
    requires Extends(hm, hm') && Justified(g, m, hm, x, y)
    ensures Justified(g, m, hm', x, y)
  {
  }

  lemma ClosedExtends(g: seq<Type>, m: seq<nat>, hm: seq<nat>, hm': seq<nat>, c: nat)
    requires ValidGraph(g) && Acyclic(m) && |m| == |g| == |hm'| == |hm| && c < |g|
    requires forall i :: 0 <= i < |hm| ==> hm[i] < |hm| || hm[i] == UNPROCESSED
    requires forall i :: 0 <= i < |hm'| ==> hm'[i] < |hm'| || hm'[i] == UNPROCESSED
    requires Extends(hm, hm') && Mapped(hm[c]) && ClosedAt(g, m, hm, c)
    ensures ClosedAt(g, m, hm', c)
  {
    hide Justified, PairCompatible, Refs;
    if g[hm[c]].kind == g[c].kind {
      var xs, ys := VisitRefs(g[hm[c]]), VisitRefs(g[c]);
      forall j | 0 <= j < |xs|
        ensures xs[j] < |g| && ys[j] < |g| && Justified(g, m, hm', xs[j], ys[j])
      {
        JustifiedExtends(g, m, hm, hm', xs[j], ys[j]);
      }
    }
  }

  /** The verdict on a pair before its references are looked at. */
  function LocalAnswer(cand: Type, canon: Type): (r: Answer)
    requires WellFormed(cand) && WellFormed(canon)
    ensures r == Same ==> PairCompatible(cand, canon)
  {
    if cand.name != canon.name then Differs
    else if (cand.kind.Fwd? || canon.kind.Fwd?) && cand.kind != canon.kind then
      var concrete := if cand.kind.Fwd? then canon.kind else cand.kind;
      var declared := if cand.kind.Fwd? then FwdKind(cand) else FwdKind(canon);
      if declared == concrete then Same else Differs
    else if cand.kind != canon.kind then Differs
    else
      match cand.kind
      case Void | Var | Datasec | DeclTag | Other(_) => Error(Inval)
      case LocProto | Locsec => Differs
      case _ => if LocallyCompatible(cand, canon) then Same else Differs
  }

  /** What the comparison with the partner of a canonical type says of another candidate. */
  function Compared(g: seq<Type>, partner: nat, cand: nat, budget: nat): (eq: Answer)
    requires ValidGraph(g) && partner < |g| && cand < |g|
    ensures eq == Same ==> IdenticalTo(g, partner, cand)
  {
    match Identical(g, partner, cand, IDENTICAL_DEPTH, budget, budget)
    case Yes => Same
    case No => Differs
    case Stuck => Error(Endless)
  }

  /** The answer, and the pairs recorded by then. */
  datatype Walked = Walked(answer: Answer, hm: seq<nat>)

  ghost predicate Pairs(g: seq<Type>, hm: seq<nat>) {
    |hm| == |g| <= MAX_NR_TYPES + 1 && forall i :: 0 <= i < |hm| ==> hm[i] < |hm| || hm[i] == UNPROCESSED
  }

  ghost function Unmatched(hm: seq<nat>): set<nat> {
    set i: nat | i < |hm| && !Mapped(hm[i])
  }

  lemma FewerUnmatched(hm: seq<nat>, hm': seq<nat>, c: nat)
    requires Extends(hm, hm')
    ensures |Unmatched(hm')| <= |Unmatched(hm)|
    ensures c < |hm| && !Mapped(hm[c]) && Mapped(hm'[c]) ==> |Unmatched(hm')| < |Unmatched(hm)|
  {
    assert Unmatched(hm') <= Unmatched(hm);
    SubsetSize(Unmatched(hm'), Unmatched(hm));
    if c < |hm| && !Mapped(hm[c]) && Mapped(hm'[c]) {
      SubsetSize(Unmatched(hm'), Unmatched(hm) - {c});
    }
  }

  /** The walk as a function of the pairs it starts from, where there is memory enough. */
  ghost function Walk(g: seq<Type>, m: seq<nat>, hm: seq<nat>, cand: nat, canon: nat, budget: nat): (w: Walked)
    requires ValidGraph(g) && Acyclic(m) && |m| == |g| && Pairs(g, hm) && cand < |g| && canon < |g|
    ensures Pairs(g, w.hm) && Extends(hm, w.hm)
    decreases |Unmatched(hm)|, 0, 0
  {
    if Resolve(m, cand) == Resolve(m, canon) then Walked(Same, hm)
    else
      var c := ResolveFwd(g, m, canon);
      if Mapped(hm[c]) then Walked(if hm[c] == cand then Same else Compared(g, hm[c], cand, budget), hm)
      else
        var eq, hm1 := LocalAnswer(g[cand], g[c]), hm[c := cand];
        if eq == Same && g[cand].kind == g[c].kind then
          FewerUnmatched(hm, hm1, c);
          SameVisitCount(g[cand], g[c]);
          VisitRefsInRange(g[cand], |g|);
          VisitRefsInRange(g[c], |g|);
          WalkAll(g, m, hm1, VisitRefs(g[cand]), VisitRefs(g[c]), budget)
        else Walked(eq, hm1)
  }

  ghost function WalkAll(g: seq<Type>, m: seq<nat>, hm: seq<nat>, xs: seq<nat>, ys: seq<nat>, budget: nat): (w: Walked)
    requires ValidGraph(g) && Acyclic(m) && |m| == |g| && Pairs(g, hm)
    requires |xs| == |ys| && InRange(xs, |g|) && InRange(ys, |g|)
    ensures Pairs(g, w.hm) && Extends(hm, w.hm)
    decreases |Unmatched(hm)|, 1, |xs|
  {
    if xs == [] then Walked(Same, hm)
    else
      var w := Walk(g, m, hm, xs[0], ys[0], budget);
      if w.answer != Same then w
      else
        FewerUnmatched(hm, w.hm, 0);
        WalkAll(g, m, w.hm, xs[1..], ys[1..], budget)
  }

  /** Whether the graphs below a candidate and below a canonical type match. `budget` bounds the
      chains that the comparison of identical types follows. */
  method IsEquiv(d: State, candId: nat, canonId: nat, budget: nat) returns (eq: Answer)
    requires d.Ok() && candId < |d.types| && canonId < |d.types|
    modifies d`hypotMap, d`hypotList, d`hypotAdjustCanon
    ensures d.Ok()
    ensures Extends(old(d.hypotMap), d.hypotMap) && |old(d.hypotList)| <= |d.hypotList|
    ensures eq == Same ==> Justified(d.types, d.canon, d.hypotMap, candId, canonId)
    ensures eq == Same ==> NewClosed(d.types, d.canon, old(d.hypotMap), d.hypotMap, |d.types|)
    ensures NothingToResolve(d.types) && !old(d.hypotAdjustCanon) ==> !d.hypotAdjustCanon
    ensures d.plenty ==> Walked(eq, d.hypotMap) == Walk(d.types, d.canon, old(d.hypotMap), candId, canonId, budget)
    decreases |d.types| - |d.hypotList|, 1
  {
    hide Refs, LocallyCompatible, Keeps, LocalAnswer, AllJustified, Compared, IdenticalTo, WalkAll;
    var g, m := d.types, d.canon;
    var candEnd := ResolveTypeId(m, candId);
    var canonEnd := ResolveTypeId(m, canonId);
    if candEnd == canonEnd {
      return Same;
    }
    var c := ResolveFwdId(d, canonId);
    var partner := d.hypotMap[c];
    if Mapped(partner) {
      if partner == candId {
        return Same;
      }
      return Compared(g, partner, candId, budget);
    }
    var added := HypotMapAdd(d, c, candId);
    if !added {
      return Error(NoMem);
    }
    eq := LocalAnswer(g[candId], g[c]);
    if eq == Same {
      if g[candId].kind == g[c].kind {
        SameVisitCount(g[candId], g[c]);
        VisitRefsInRange(g[candId], |g|);
        VisitRefsInRange(g[c], |g|);
        eq := RefsEquiv(d, VisitRefs(g[candId]), VisitRefs(g[c]), c, budget);
      } else if g[c].kind.Fwd? && c < d.startId {
        d.hypotAdjustCanon := true;
      }
    }
  }

  /** Match the references of a pair one by one. */
  method RefsEquiv(d: State, xs: seq<nat>, ys: seq<nat>, ghost c: nat, budget: nat) returns (eq: Answer)
    requires d.Ok() && |xs| == |ys| && c < |d.types| && Mapped(d.hypotMap[c])
    requires InRange(xs, |d.types|) && InRange(ys, |d.types|)
    modifies d`hypotMap, d`hypotList, d`hypotAdjustCanon
    ensures d.Ok()
    ensures Extends(old(d.hypotMap), d.hypotMap) && |old(d.hypotList)| <= |d.hypotList|
    ensures eq == Same ==> AllJustified(d.types, d.canon, d.hypotMap, xs, ys)
    ensures eq == Same ==> NewClosed(d.types, d.canon, old(d.hypotMap), d.hypotMap, c)
    ensures NothingToResolve(d.types) && !old(d.hypotAdjustCanon) ==> !d.hypotAdjustCanon
    ensures d.plenty ==> Walked(eq, d.hypotMap) == WalkAll(d.types, d.canon, old(d.hypotMap), xs, ys, budget)
    decreases |d.types| - |d.hypotList|, 2
  {
    hide Refs, Keeps, Justified, ClosedAt, Acyclic, Walk, WalkAll;
    ghost var g, m := d.types, d.canon;
    var j := 0;
    assert xs[0..] == xs && ys[0..] == ys;
    while j < |xs|
      invariant j <= |xs| && d.Ok() && |old(d.hypotList)| <= |d.hypotList|
      invariant Extends(old(d.hypotMap), d.hypotMap)
      invariant NewClosed(g, m, old(d.hypotMap), d.hypotMap, c)
      invariant forall i :: 0 <= i < j ==> Justified(g, m, d.hypotMap, xs[i], ys[i])
      invariant NothingToResolve(g) && !old(d.hypotAdjustCanon) ==> !d.hypotAdjustCanon
      invariant d.plenty ==>
        WalkAll(g, m, old(d.hypotMap), xs, ys, budget) == WalkAll(g, m, d.hypotMap, xs[j..], ys[j..], budget)
    {
      ghost var hm1 := d.hypotMap;
      WalkNext(g, m, hm1, xs[j..], ys[j..], budget);
      assert xs[j..][1..] == xs[j + 1..] && ys[j..][1..] == ys[j + 1..];
      eq := IsEquiv(d, xs[j], ys[j], budget);
      if eq != Same {
        return;
      }
      WalkStep(g, m, old(d.hypotMap), hm1, d.hypotMap, c, xs[..j], ys[..j]);
      assert forall i :: 0 <= i < j ==> xs[i] == xs[..j][i] && ys[i] == ys[..j][i];
      j := j + 1;
    }
    WalkNone(g, m, d.hypotMap, xs[j..], ys[j..], budget);
    eq := Same;
  }

  lemma WalkNext(g: seq<Type>, m: seq<nat>, hm: seq<nat>, xs: seq<nat>, ys: seq<nat>, budget: nat)
    requires ValidGraph(g) && Acyclic(m) && |m| == |g| && Pairs(g, hm)
    requires |xs| == |ys| > 0 && InRange(xs, |g|) && InRange(ys, |g|)
    ensures var w := Walk(g, m, hm, xs[0], ys[0], budget);
      WalkAll(g, m, hm, xs, ys, budget) ==
      if w.answer != Same then w else WalkAll(g, m, w.hm, xs[1..], ys[1..], budget)
  {
    hide Walk;
  }

  lemma WalkNone(g: seq<Type>, m: seq<nat>, hm: seq<nat>, xs: seq<nat>, ys: seq<nat>, budget: nat)
    requires ValidGraph(g) && Acyclic(m) && |m| == |g| && Pairs(g, hm) && xs == ys == []
    ensures WalkAll(g, m, hm, xs, ys, budget) == Walked(Same, hm)
  {
  }

  lemma SameVisitCount(cand: Type, canon: Type)
    requires WellFormed(cand) && WellFormed(canon) && cand.kind == canon.kind
    requires LocallyCompatible(cand, canon)
    ensures |VisitRefs(cand)| == |VisitRefs(canon)|
  {
    if IsAnyEnum(cand) {
      NoCols(0, cand.elems);
      NoCols(0, canon.elems);
    } else {
      LocallyCompatibleShape(cand, canon);
    }
  }

  lemma WalkStep(g: seq<Type>, m: seq<nat>, hm0: seq<nat>, hm1: seq<nat>, hm2: seq<nat>, c: nat, xs: seq<nat>,
                 ys: seq<nat>)
    requires ValidGraph(g) && Acyclic(m) && |m| == |g| == |hm0| == |hm1| == |hm2| && c < |g|
    requires forall i :: 0 <= i < |hm1| ==> hm1[i] < |hm1| || hm1[i] == UNPROCESSED
    requires forall i :: 0 <= i < |hm2| ==> hm2[i] < |hm2| || hm2[i] == UNPROCESSED
    requires Extends(hm1, hm2) && Mapped(hm1[c])
    requires NewClosed(g, m, hm0, hm1, c) && NewClosed(g, m, hm1, hm2, |g|)
    requires |xs| == |ys| && InRange(xs, |g|) && InRange(ys, |g|)
    requires forall i :: 0 <= i < |xs| ==> Justified(g, m, hm1, xs[i], ys[i])
    ensures NewClosed(g, m, hm0, hm2, c)
    ensures forall i :: 0 <= i < |xs| ==> Justified(g, m, hm2, xs[i], ys[i])
  {
    hide ClosedAt, Justified;
    forall b | 0 <= b < |g| && b != c && Mapped(hm2[b]) && !Mapped(hm0[b])
      ensures ClosedAt(g, m, hm2, b)
    {
      if Mapped(hm1[b]) {
        ClosedExtends(g, m, hm1, hm2, b);
      }
    }
    forall i | 0 <= i < |xs|
      ensures Justified(g, m, hm2, xs[i], ys[i])
    {
      JustifiedExtends(g, m, hm1, hm2, xs[i], ys[i]);
    }
  }
}
