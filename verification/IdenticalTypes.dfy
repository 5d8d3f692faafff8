/** The depth-limited structural comparison of two types of one compilation unit. */
module IdenticalTypes {
  import opened BtfTypes
  import opened Meaning
  import opened TypeEquality

  /** Stuck: the comparison has followed chain kinds for longer than its budget of steps. */
  datatype Verdict = Yes | No | Stuck

  const IDENTICAL_DEPTH := 16

  /** Chain kinds are followed without a change of depth: only `left` counts them, and it starts
      again from `budget` below every other kind. */
  function Identical(g: seq<Type>, id1: nat, id2: nat, depth: nat, left: nat, budget: nat): Verdict
    requires ValidGraph(g) && id1 < |g| && id2 < |g|
    decreases depth, left, 0, 0
  {
    var t1, t2 := g[id1], g[id2];
    if depth == 0 || t1.kind != t2.kind then No
    else if t1.kind.Void? then Yes
    else if t1.kind.LocParam? || !LocallyCompatible(t1, t2) then No
    else
      VisitRefsInRange(t1, |g|);
      VisitRefsInRange(t2, |g|);
      if IsChainKind(t1.kind) then
        if left == 0 then Stuck
        else
          assert VisitRefs(t1) == [t1.st] && VisitRefs(t2) == [t2.st];
          Identical(g, t1.st, t2.st, depth, left - 1, budget)
      else IdenticalAll(g, VisitRefs(t1), VisitRefs(t2), depth - 1, budget)
  }

  /** Pairwise comparison that skips equal ids and stops at the first difference. */
  function IdenticalAll(g: seq<Type>, xs: seq<nat>, ys: seq<nat>, depth: nat, budget: nat): Verdict
    requires ValidGraph(g) && InRange(xs, |g|) && InRange(ys, |g|)
    decreases depth, budget, 1, |xs|
  {
    if xs == [] || ys == [] then Yes
    else
      var v := if xs[0] == ys[0] then Yes else Identical(g, xs[0], ys[0], depth, budget, budget);
      if v.Yes? then IdenticalAll(g, xs[1..], ys[1..], depth, budget) else v
  }

  ghost predicate EnumsSettled(g: seq<Type>) {
    forall i, j :: 0 <= i < |g| && 0 <= j < |g| ==> SettledEnums(g[i], g[j])
  }

  /** Where empty enums match only their equals, the comparison accepts only equivalent types. */
  lemma {:induction false} IdenticalSound(g: seq<Type>, id1: nat, id2: nat, depth: nat, left: nat, budget: nat)
    requires ValidGraph(g) && id1 < |g| && id2 < |g|
    requires EnumsSettled(g)
    requires Identical(g, id1, id2, depth, left, budget) == Yes
    ensures Equivalent(g, id1, id2)
    decreases depth, left, 0, 0
  {
    hide LocallyCompatible, SettledEnums, Shape, Refs;
    var t1, t2 := g[id1], g[id2];
    if !t1.kind.Void? {
      LocallyCompatibleShape(t1, t2);
      VisitRefsInRange(t1, |g|);
      VisitRefsInRange(t2, |g|);
      assert |VisitRefs(t1)| == |VisitRefs(t2)|;
      if IsChainKind(t1.kind) {
        ChainRefs(t1);
        ChainRefs(t2);
        IdenticalSound(g, t1.st, t2.st, depth, left - 1, budget);
      } else {
        IdenticalAllSound(g, VisitRefs(t1), VisitRefs(t2), depth - 1, budget);
      }
      AllEquivalentVisited(g, t1, t2);
      EquivalentByParts(g, id1, id2);
    }
  }

  lemma ChainRefs(t: Type)
    requires WellFormed(t) && IsChainKind(t.kind)
    ensures Refs(t) == VisitRefs(t) == [t.st]
  {
  }

  lemma {:induction false} IdenticalAllSound(g: seq<Type>, xs: seq<nat>, ys: seq<nat>, depth: nat, budget: nat)
    requires ValidGraph(g) && InRange(xs, |g|) && InRange(ys, |g|) && |xs| == |ys|
    requires EnumsSettled(g)
    requires IdenticalAll(g, xs, ys, depth, budget) == Yes
    ensures AllEquivalent(g, xs, ys)
    decreases depth, budget, 1, |xs|
  {
    hide Identical, EnumsSettled, Equivalent, LocallyCompatible, Refs;
    if xs != [] {
      if xs[0] != ys[0] {
        IdenticalSound(g, xs[0], ys[0], depth, budget, budget);
      }
      SelfEquivalent(g, xs[0]);
      IdenticalAllSound(g, xs[1..], ys[1..], depth, budget);
      forall j | 0 <= j < |xs|
        ensures Equivalent(g, xs[j], ys[j])
      {
        if j > 0 {
          assert xs[j] == xs[1..][j - 1] && ys[j] == ys[1..][j - 1];
        }
      }
    }
  }

  // ----- when the comparison ends -----

  /** Every step along chain kinds lowers the rank. */
  ghost predicate ChainRanked(g: seq<Type>, rank: seq<nat>)
    requires ValidGraph(g)
  {
    |rank| == |g| && forall i :: 0 <= i < |g| && IsChainKind(g[i].kind) && g[i].st < |g| ==> rank[g[i].st] < rank[i]
  }

  /** No cycle consists of chain kinds alone. */
  ghost predicate NoChainCycle(g: seq<Type>)
    requires ValidGraph(g)
  {
    exists rank :: ChainRanked(g, rank)
  }

  /** The budget is enough for every comparison. */
  ghost predicate Ends(g: seq<Type>, budget: nat)
    requires ValidGraph(g)
  {
    forall id1, id2, depth :: 0 <= id1 < |g| && 0 <= id2 < |g| && 0 <= depth ==>
      Identical(g, id1, id2, depth, budget, budget) != Stuck
  }

  lemma {:induction false} EndsByRank(g: seq<Type>, rank: seq<nat>, id1: nat, id2: nat, depth: nat, left: nat,
                                      budget: nat)
    requires ValidGraph(g) && id1 < |g| && id2 < |g|
    requires ChainRanked(g, rank) && forall i :: 0 <= i < |g| ==> rank[i] <= budget
    requires rank[id1] <= left
    ensures Identical(g, id1, id2, depth, left, budget) != Stuck
    decreases depth, left, 0, 0
  {
    hide LocallyCompatible, Refs;
    var t1, t2 := g[id1], g[id2];
    if depth > 0 && t1.kind == t2.kind && !t1.kind.Void? && !t1.kind.LocParam? && LocallyCompatible(t1, t2) {
      VisitRefsInRange(t1, |g|);
      VisitRefsInRange(t2, |g|);
      if IsChainKind(t1.kind) {
        ChainRefs(t1);
        ChainRefs(t2);
        assert VisitRefs(t1)[0] < |g| && VisitRefs(t2)[0] < |g|;
        EndsByRank(g, rank, t1.st, t2.st, depth, left - 1, budget);
      } else {
        AllEndByRank(g, rank, VisitRefs(t1), VisitRefs(t2), depth - 1, budget);
      }
    }
  }

  lemma {:induction false} AllEndByRank(g: seq<Type>, rank: seq<nat>, xs: seq<nat>, ys: seq<nat>, depth: nat,
                                        budget: nat)
    requires ValidGraph(g) && InRange(xs, |g|) && InRange(ys, |g|)
    requires ChainRanked(g, rank) && forall i :: 0 <= i < |g| ==> rank[i] <= budget
    ensures IdenticalAll(g, xs, ys, depth, budget) != Stuck
    decreases depth, budget, 1, |xs|
  {
    if xs != [] && ys != [] {
      if xs[0] != ys[0] {
        EndsByRank(g, rank, xs[0], ys[0], depth, budget, budget);
      }
      AllEndByRank(g, rank, xs[1..], ys[1..], depth, budget);
    }
  }

  function Max(rank: seq<nat>): (m: nat)
    ensures forall i :: 0 <= i < |rank| ==> rank[i] <= m
  {
    if rank == [] then 0
    else
      var m := Max(rank[1..]);
      assert forall i :: 1 <= i < |rank| ==> rank[i] == rank[1..][i - 1];
      if rank[0] > m then rank[0] else m
  }

  /** The comparison of a type with itself walks to the end of its chain. */
  ghost predicate ChainEnds(g: seq<Type>, id: nat, left: nat)
    requires ValidGraph(g) && id < |g|
    decreases left
  {
    IsChainKind(g[id].kind) ==> left > 0 && g[id].st < |g| && ChainEnds(g, g[id].st, left - 1)
  }

  ghost function ChainLength(g: seq<Type>, id: nat, left: nat): nat
    requires ValidGraph(g) && id < |g| && ChainEnds(g, id, left)
    decreases left
  {
    if IsChainKind(g[id].kind) then 1 + ChainLength(g, g[id].st, left - 1) else 0
  }

  lemma {:induction false} SelfComparison(g: seq<Type>, id: nat, left: nat, budget: nat)
    requires ValidGraph(g) && id < |g|
    requires Identical(g, id, id, 1, left, budget) != Stuck
    ensures ChainEnds(g, id, left)
    decreases left
  {
    hide Refs;
    if IsChainKind(g[id].kind) {
      ChainRefs(g[id]);
      VisitRefsInRange(g[id], |g|);
      assert VisitRefs(g[id])[0] < |g|;
      SelfComparison(g, g[id].st, left - 1, budget);
    }
  }

  lemma {:induction false} MoreStepsSameLength(g: seq<Type>, id: nat, left: nat)
    requires ValidGraph(g) && id < |g| && ChainEnds(g, id, left)
    ensures ChainEnds(g, id, left + 1) && ChainLength(g, id, left + 1) == ChainLength(g, id, left)
    decreases left
  {
    if IsChainKind(g[id].kind) {
      MoreStepsSameLength(g, g[id].st, left - 1);
    }
  }

  /** The comparison ends on all pairs of types, at all depths, exactly when no cycle of the graph
      consists of chain kinds alone. */
  lemma EndsExactly(g: seq<Type>)
    requires ValidGraph(g)
    ensures (exists budget: nat :: Ends(g, budget)) <==> NoChainCycle(g)
  {
    hide Identical;
    if NoChainCycle(g) {
      var rank :| ChainRanked(g, rank);
      var budget := Max(rank);
      forall id1, id2, depth | 0 <= id1 < |g| && 0 <= id2 < |g| && 0 <= depth
        ensures Identical(g, id1, id2, depth, budget, budget) != Stuck
      {
        EndsByRank(g, rank, id1, id2, depth, budget, budget);
      }
      assert Ends(g, budget);
    }
    if budget: nat :| Ends(g, budget) {
      EndsRanks(g, budget);
    }
  }

  lemma EndsRanks(g: seq<Type>, budget: nat)
    requires ValidGraph(g) && Ends(g, budget)
    ensures NoChainCycle(g)
  {
    forall i | 0 <= i < |g|
      ensures ChainEnds(g, i, budget)
    {
      SelfComparison(g, i, budget, budget);
    }
    var rank := seq(|g|, i requires 0 <= i < |g| => ChainLength(g, i, budget));
    forall i | 0 <= i < |g| && IsChainKind(g[i].kind) && g[i].st < |g|
      ensures rank[g[i].st] < rank[i]
    {
      assert ChainEnds(g, i, budget);
      MoreStepsSameLength(g, g[i].st, budget - 1);
    }
    assert ChainRanked(g, rank);
  }

  lemma ChainStep(g: seq<Type>, id1: nat, id2: nat, depth: nat, left: nat, budget: nat)
    requires ValidGraph(g) && id1 < |g| && id2 < |g| && depth > 0
    requires IsChainKind(g[id1].kind) && EqualInfo(g[id1], g[id2]) && g[id1].name == g[id2].name
    requires g[id1].st < |g| && g[id2].st < |g|
    ensures Identical(g, id1, id2, depth, left, budget)
         == if left == 0 then Stuck else Identical(g, g[id1].st, g[id2].st, depth, left - 1, budget)
  {
  }

  /** A typedef of a pointer to itself, as Go programs have them. */
  ghost predicate IsKnot(g: seq<Type>, a: nat, name: nat) {
    a + 1 < |g| && g[a] == Type(Typedef, false, 0, name, a + 1, [], []) && g[a + 1] == Type(Ptr, false, 0, 0, a, [], [])
  }

  /** The comparison of two of them never ends, whatever its budget. */
  lemma {:induction false} KnotsNeverEnd(g: seq<Type>, name: nat, a: nat, b: nat, left: nat, budget: nat)
    requires ValidGraph(g) && IsKnot(g, a, name) && IsKnot(g, b, name)
    ensures Identical(g, a, b, IDENTICAL_DEPTH, left, budget) == Stuck
    ensures Identical(g, a + 1, b + 1, IDENTICAL_DEPTH, left, budget) == Stuck
    decreases left
  {
    hide ValidGraph, Identical, Refs;
    ChainStep(g, a, b, IDENTICAL_DEPTH, left, budget);
    ChainStep(g, a + 1, b + 1, IDENTICAL_DEPTH, left, budget);
    if left > 0 {
      KnotsNeverEnd(g, name, a, b, left - 1, budget);
    }
  }
}
