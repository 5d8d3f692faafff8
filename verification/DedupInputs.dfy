/** A graph on which deduplication does not end. */
module DedupInputs {
  import opened BtfTypes
  import opened Meaning
  import opened TypeEquality
  import opened CanonMap
  import opened IdenticalTypes
  import opened GraphMatch
  import opened SmallTypes
  import opened DedupState
  import opened EquivWalk
  import opened StructPass
  import opened PrepPass
  import Dedup
  import Hashmap

  /** A struct with two members of one type, and the same struct with members of two copies of that type; the type
      is a typedef of a pointer to itself. */
  function TwoStructs(): seq<Type> {
    [VOID, StructOf(1, [3, 3]), StructOf(1, [5, 7]), TypedefOf(2, 4), PointerTo(3), TypedefOf(2, 6), PointerTo(5),
     TypedefOf(2, 8), PointerTo(7)]
  }

  lemma TwoStructsValid()
    ensures ValidGraph(TwoStructs()) && |TwoStructs()| == 9
    ensures var g := TwoStructs();
      Refs(g[1]) == [3, 3] && Refs(g[2]) == [5, 7] && IsKnot(g, 3, 2) && IsKnot(g, 5, 2) && IsKnot(g, 7, 2)
  {
    hide Refs, Members, WellFormed;
    var g := TwoStructs();
    VoidRefs();
    StructOfRefs(1, [3, 3]);
    StructOfRefs(1, [5, 7]);
    KnotParts(g, 3, 2);
    KnotParts(g, 5, 2);
    KnotParts(g, 7, 2);
  }

  lemma KnotParts(g: seq<Type>, a: nat, name: nat)
    requires IsKnot(g, a, name)
    ensures WellFormed(g[a]) && WellFormed(g[a + 1]) && Refs(g[a]) == [a + 1] && Refs(g[a + 1]) == [a]
  {
    hide Refs;
    ReferenceRefs(name, a + 1);
    ReferenceRefs(name, a);
  }

  lemma TwoStructsAlike()
    ensures var g := TwoStructs();
      && IsGraphKind(g[1]) && IsGraphKind(g[2]) && WellFormed(g[1]) && WellFormed(g[2])
      && Signature(g[1]) == Signature(g[2]) && EqualByKind(g[2], g[1]) && LocalAnswer(g[2], g[1]) == Same
  {
    hide HashCombine, HashWords, HashMembers;
    var s, t := StructOf(1, [3, 3]), StructOf(1, [5, 7]);
    StructOfRefs(1, [3, 3]);
    StructOfRefs(1, [5, 7]);
    HashTwo(HashCommon(s), s.elems);
    HashTwo(HashCommon(t), t.elems);
    assert HashCommon(s) == HashCommon(t) by {
      assert InfoWord(s) == InfoWord(t);
    }
  }

  lemma HashTwo(h: nat, es: seq<seq<nat>>)
    requires |es| == 2 && forall i :: 0 <= i < |es| ==> |es[i]| == 3
    ensures HashMembers(h, es) ==
      HashCombine(HashCombine(HashCombine(HashCombine(h, es[0][0]), es[0][2]), es[1][0]), es[1][2])
  {
    hide HashCombine;
    assert es[1..][0] == es[1] && es[1..][1..] == [];
    assert HashMembers(h, es) == HashMembers(HashCombine(HashCombine(h, es[0][0]), es[0][2]), es[1..]);
  }

  /** What the walk does with a pair of types that are their own canonical types. */
  lemma WalkPair(g: seq<Type>, m: seq<nat>, hm: seq<nat>, cand: nat, canon: nat, budget: nat)
    requires ValidGraph(g) && Acyclic(m) && |m| == |g| && Pairs(g, hm) && cand < |g| && canon < |g| && cand != canon
    requires !IsLink(m, cand) && !IsLink(m, canon) && !g[canon].kind.Fwd? && !g[canon].kind.Array?
    ensures Mapped(hm[canon]) ==>
      Walk(g, m, hm, cand, canon, budget) ==
        Walked(if hm[canon] == cand then Same else Compared(g, hm[canon], cand, budget), hm)
    ensures !Mapped(hm[canon]) && LocalAnswer(g[cand], g[canon]) == Same && g[cand].kind == g[canon].kind ==>
      && InRange(Refs(g[cand]), |g|) && InRange(Refs(g[canon]), |g|) && |Refs(g[cand])| == |Refs(g[canon])|
      && Walk(g, m, hm, cand, canon, budget) ==
           WalkAll(g, m, hm[canon := cand], Refs(g[cand]), Refs(g[canon]), budget)
  {
    hide WalkAll, LocalAnswer, Compared, Refs;
    VisitRefsInRange(g[cand], |g|);
    VisitRefsInRange(g[canon], |g|);
    if LocalAnswer(g[cand], g[canon]) == Same && g[cand].kind == g[canon].kind {
      SameVisitCount(g[cand], g[canon]);
    }
  }

  /** A walk below one reference goes on as the walk of that reference does. */
  lemma WalkOne(g: seq<Type>, m: seq<nat>, hm: seq<nat>, x: nat, y: nat, budget: nat)
    requires ValidGraph(g) && Acyclic(m) && |m| == |g| && Pairs(g, hm) && x < |g| && y < |g|
    ensures WalkAll(g, m, hm, [x], [y], budget) == Walk(g, m, hm, x, y, budget)
  {
    hide Walk;
    var w := Walk(g, m, hm, x, y, budget);
    assert [x][1..] == [] && [y][1..] == [];
    WalkNone(g, m, w.hm, [], [], budget);
  }

  lemma WalkTwo(g: seq<Type>, m: seq<nat>, hm: seq<nat>, xs: seq<nat>, ys: seq<nat>, budget: nat)
    requires ValidGraph(g) && Acyclic(m) && |m| == |g| && Pairs(g, hm)
    requires |xs| == |ys| == 2 && InRange(xs, |g|) && InRange(ys, |g|)
    requires Walk(g, m, hm, xs[0], ys[0], budget).answer == Same
    ensures WalkAll(g, m, hm, xs, ys, budget) ==
      Walk(g, m, Walk(g, m, hm, xs[0], ys[0], budget).hm, xs[1], ys[1], budget)
  {
    hide Walk;
    var w := Walk(g, m, hm, xs[0], ys[0], budget);
    assert xs[1..] == [xs[1]] && ys[1..] == [ys[1]];
    WalkOne(g, m, w.hm, xs[1], ys[1], budget);
  }

  ghost predicate Unlinked(m: seq<nat>) {
    forall i :: 0 <= i < |m| ==> !IsLink(m, i)
  }

  /** Two knots of one name match, and both halves of each are recorded. */
  lemma WalkKnots(g: seq<Type>, m: seq<nat>, hm: seq<nat>, name: nat, x: nat, y: nat, budget: nat)
    requires ValidGraph(g) && Acyclic(m) && |m| == |g| && Pairs(g, hm) && Unlinked(m)
    requires IsKnot(g, x, name) && IsKnot(g, y, name) && x != y && !Mapped(hm[y]) && !Mapped(hm[y + 1])
    ensures Walk(g, m, hm, x, y, budget) == Walked(Same, hm[y := x][y + 1 := x + 1])
  {
    hide Walk, WalkAll, Refs, ValidGraph, Compared, Acyclic;
    ReferenceRefs(name, x + 1);
    ReferenceRefs(name, y + 1);
    ReferenceRefs(0, x);
    ReferenceRefs(0, y);
    var hm1 := hm[y := x];
    var hm2 := hm1[y + 1 := x + 1];
    WalkPair(g, m, hm, x, y, budget);
    WalkOne(g, m, hm1, x + 1, y + 1, budget);
    WalkPair(g, m, hm1, x + 1, y + 1, budget);
    WalkOne(g, m, hm2, x, y, budget);
    WalkPair(g, m, hm2, x, y, budget);
  }

  /** The second member of the second struct meets a type that has a partner already, and is compared with it. */
  lemma WalkHangs(g: seq<Type>, m: seq<nat>, budget: nat)
    requires ValidGraph(g) && Acyclic(m) && |m| == |g| == 9 && Unlinked(m)
    requires Refs(g[1]) == [3, 3] && Refs(g[2]) == [5, 7] && IsKnot(g, 3, 2) && IsKnot(g, 5, 2) && IsKnot(g, 7, 2)
    requires g[1].kind.Struct? && g[2].kind.Struct? && LocalAnswer(g[2], g[1]) == Same
    ensures Walk(g, m, NoPairs(9), 2, 1, budget).answer == Error(Endless)
  {
    hide Walk, WalkAll, Refs, ValidGraph, Acyclic, Identical, LocalAnswer;
    var hm := NoPairs(9);
    var hm1 := hm[1 := 2];
    WalkPair(g, m, hm, 2, 1, budget);
    WalkKnots(g, m, hm1, 2, 5, 3, budget);
    WalkTwo(g, m, hm1, [5, 7], [3, 3], budget);
    WalkPair(g, m, hm1[3 := 5][4 := 6], 7, 3, budget);
    KnotsNeverEnd(g, 2, 5, 7, budget, budget);
  }

  lemma OnlyCandidate(m: seq<nat>, entries: multiset<Hashmap.Entry>, budget: nat)
    requires Acyclic(m) && |m| == 9 && Unlinked(m) && ValidGraph(TwoStructs())
    requires entries == multiset{Hashmap.Entry(Signature(TwoStructs()[1]), 1)}
    ensures AllFail(TwoStructs(), m, entries, 2, budget, Endless)
  {
    hide Walk, Signature, EqualByKind, Refs, ValidGraph, Acyclic, LocalAnswer;
    TwoStructsValid();
    TwoStructsAlike();
    WalkHangs(TwoStructs(), m, budget);
    assert IsCandidate(TwoStructs(), entries, 2, 1);
  }

  lemma NewGraph(m: seq<nat>)
    requires ValidGraph(TwoStructs()) && OwnFresh(TwoStructs(), m, 0)
    ensures |m| == |TwoStructs()| == 9 && NoCandidate(TwoStructs(), multiset{}, 1) && !Mapped(m[1]) && !Mapped(m[2])
    ensures Unlinked(m[1 := 1])
  {
    hide Signature, EqualByKind, ValidGraph;
  }

  /** Whatever budget the comparison of identical types has, the pass over structs uses it up: the original never
      comes back. */
  method KnotsHang(budget: nat) returns (r: Status)
    ensures r == Fail(Endless)
  {
    hide Walk, Signature, EqualByKind, Refs, ValidGraph, Acyclic, AllFail, NoCandidate, Listed, Complete, Distinct;
    hide TwoStructs, Unlinked;
    hide Hashmap.Table.Valid, Hashmap.All;
    TwoStructsValid();
    var g := TwoStructs();
    var table := new Hashmap.Table(k => k % 0x1_0000_0000_0000_0000, (a, b) => a == b);
    var d := new State(g, 1, table, true);
    Dedup.NothingListed(g, d.canon, 1);
    NewGraph(d.canon);
    r := StructType(d, 1, budget);
    if r == Done {
      OnlyCandidate(d.canon, d.table.Contents(), budget);
      r := StructType(d, 2, budget);
    }
  }
}
