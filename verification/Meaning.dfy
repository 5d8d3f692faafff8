/** What a type means: the tree got by following its references to a given depth,
    first with string offsets as labels, then with the strings themselves. */
module Meaning {
  import opened BtfTypes

  /** A type graph: entry 0 and no other is void, every reference leads to an entry. */
  ghost predicate ValidGraph(g: seq<Type>) {
    && |g| > 0
    && g[0] == VOID
    && (forall i :: 0 < i < |g| ==> !g[i].kind.Void?)
    && (forall i :: 0 <= i < |g| ==> WellFormed(g[i]))
    && (forall i :: 0 <= i < |g| ==> InRange(Refs(g[i]), |g|))
  }

  ghost predicate InRange(rs: seq<nat>, n: nat) {
    forall j :: 0 <= j < |rs| ==> rs[j] < n
  }

  datatype Tree = Cut | Node(shape: Type, kids: seq<Tree>)

  /** The graph below `id`, unfolded to depth `k`; cycles unfold forever. */
  ghost function Unfold(g: seq<Type>, id: nat, k: nat): Tree
    requires ValidGraph(g) && id < |g|
    decreases k
  {
    if k == 0 then Cut
    else
      var rs := Refs(g[id]);
      Node(Shape(g[id]), seq(|rs|, j requires 0 <= j < |rs| => Unfold(g, rs[j], k - 1)))
  }

  /** Two entries that no unfolding tells apart. */
  ghost predicate Equivalent(g: seq<Type>, a: nat, b: nat)
    requires ValidGraph(g) && a < |g| && b < |g|
  {
    forall k: nat :: Unfold(g, a, k) == Unfold(g, b, k)
  }

  lemma SelfEquivalent(g: seq<Type>, i: nat)
    requires ValidGraph(g) && i < |g|
    ensures Equivalent(g, i, i)
  {
  }

  ghost predicate AllEquivalent(g: seq<Type>, xs: seq<nat>, ys: seq<nat>)
    requires ValidGraph(g) && InRange(xs, |g|) && InRange(ys, |g|)
  {
    |xs| == |ys| && forall j :: 0 <= j < |xs| ==> Equivalent(g, xs[j], ys[j])
  }

  /** The references of a type in the order in which two graphs are walked side by side:
      an array's index type comes before its element type. */
  function VisitRefs(t: Type): (rs: seq<nat>)
    requires WellFormed(t)
    ensures |rs| == |Refs(t)|
  {
    if t.kind.Array? then [t.extra[1], t.extra[0]] else Refs(t)
  }

  lemma VoidRefs()
    ensures WellFormed(VOID) && Refs(VOID) == [] && Names(VOID) == []
  {
  }

  lemma VisitRefsInRange(t: Type, n: nat)
    requires WellFormed(t) && InRange(Refs(t), n)
    ensures InRange(VisitRefs(t), n)
  {
    if t.kind.Array? {
      assert Refs(t)[0] == t.extra[0] && Refs(t)[1] == t.extra[1];
    }
  }

  lemma AllEquivalentVisited(g: seq<Type>, t1: Type, t2: Type)
    requires ValidGraph(g) && WellFormed(t1) && WellFormed(t2) && t1.kind == t2.kind
    requires InRange(Refs(t1), |g|) && InRange(Refs(t2), |g|)
    requires InRange(VisitRefs(t1), |g|) && InRange(VisitRefs(t2), |g|)
    requires AllEquivalent(g, VisitRefs(t1), VisitRefs(t2))
    ensures AllEquivalent(g, Refs(t1), Refs(t2))
  {
    hide Cols, Equivalent;
    if t1.kind.Array? {
      NoCols(0, t1.elems);
      NoCols(0, t2.elems);
      assert Refs(t1) == [VisitRefs(t1)[1], VisitRefs(t1)[0]];
      assert Refs(t2) == [VisitRefs(t2)[1], VisitRefs(t2)[0]];
    }
  }

  /** Same shape and pairwise equivalent references make equivalent types. */
  lemma EquivalentByParts(g: seq<Type>, a: nat, b: nat)
    requires ValidGraph(g) && a < |g| && b < |g|
    requires Shape(g[a]) == Shape(g[b])
    requires AllEquivalent(g, Refs(g[a]), Refs(g[b]))
    ensures Equivalent(g, a, b)
  {
    hide Refs, Shape;
    var rs, rs' := Refs(g[a]), Refs(g[b]);
    forall k: nat
      ensures Unfold(g, a, k) == Unfold(g, b, k)
    {
      if k > 0 {
        forall j | 0 <= j < |rs|
          ensures Unfold(g, rs[j], k - 1) == Unfold(g, rs'[j], k - 1)
        {
          assert Equivalent(g, rs[j], rs'[j]);
        }
      }
    }
  }

  /** Replacing references by equivalent ones leaves every unfolding as it was. */
  lemma {:induction false} UnfoldAfterReplacement(g: seq<Type>, g': seq<Type>, id: nat, k: nat)
    requires ValidGraph(g) && ValidGraph(g') && |g| == |g'| && id < |g|
    requires forall i :: 0 <= i < |g| ==> Shape(g'[i]) == Shape(g[i]) && AllEquivalent(g, Refs(g'[i]), Refs(g[i]))
    ensures Unfold(g', id, k) == Unfold(g, id, k)
    decreases k
  {
    hide Refs, Shape;
    if k > 0 {
      var rs, rs' := Refs(g[id]), Refs(g'[id]);
      forall j | 0 <= j < |rs|
        ensures Unfold(g', rs'[j], k - 1) == Unfold(g, rs[j], k - 1)
      {
        UnfoldAfterReplacement(g, g', rs'[j], k - 1);
        assert Equivalent(g, rs'[j], rs[j]);
      }
    }
  }

  // ----- with strings -----

  type Strings = nat -> string

  datatype NamedTree = NamedCut | NamedNode(shape: Type, names: seq<string>, kids: seq<NamedTree>)

  ghost function Read(ns: seq<nat>, s: Strings): (r: seq<string>)
    ensures |r| == |ns|
  {
    seq(|ns|, j requires 0 <= j < |ns| => s(ns[j]))
  }

  /** A shape without its string offsets. */
  ghost function Blank(t: Type): (r: Type)
    requires WellFormed(t)
  {
    WithNames(Shape(t), Zeros(|Names(Shape(t))|))
  }

  lemma BlankKind(t: Type)
    requires WellFormed(t)
    ensures Blank(t).kind == t.kind
  {
  }

  ghost function Means(g: seq<Type>, s: Strings, id: nat, k: nat): NamedTree
    requires ValidGraph(g) && id < |g|
    decreases k
  {
    if k == 0 then NamedCut
    else
      var rs := Refs(g[id]);
      NamedNode(Blank(g[id]), Read(Names(g[id]), s),
                seq(|rs|, j requires 0 <= j < |rs| => Means(g, s, rs[j], k - 1)))
  }

  lemma NamesOfWithRefs(t: Type, rs: seq<nat>)
    requires WellFormed(t) && |rs| == |Refs(t)|
    ensures Names(WithRefs(t, rs)) == Names(t)
  {
    hide Cols, WithCols;
    OtherCols(RefLo(t.kind), RefHi(t.kind), 0, NameHi(t.kind), t.elems, rs[|HeadRefs(t)|..]);
  }

  lemma LabelOfShape(t1: Type, t2: Type)
    requires WellFormed(t1) && WellFormed(t2) && Shape(t1) == Shape(t2)
    ensures Blank(t1) == Blank(t2) && Names(t1) == Names(t2) && |Refs(t1)| == |Refs(t2)|
  {
    NamesOfWithRefs(t1, Zeros(|Refs(t1)|));
    NamesOfWithRefs(t2, Zeros(|Refs(t2)|));
  }

  /** Equal unfoldings mean the same under every reading of the string offsets. */
  lemma {:induction false} MeaningOfUnfold(g: seq<Type>, g': seq<Type>, s: Strings, a: nat, b: nat, k: nat)
    requires ValidGraph(g) && ValidGraph(g') && a < |g| && b < |g'|
    requires Unfold(g, a, k) == Unfold(g', b, k)
    ensures Means(g, s, a, k) == Means(g', s, b, k)
    decreases k
  {
    hide Refs, Shape, Names, Blank;
    if k > 0 {
      LabelOfShape(g[a], g'[b]);
      var rs, rs' := Refs(g[a]), Refs(g'[b]);
      var u, u' := Unfold(g, a, k), Unfold(g', b, k);
      assert |u.kids| == |rs| && |u'.kids| == |rs'|;
      forall j | 0 <= j < |rs|
        ensures Means(g, s, rs[j], k - 1) == Means(g', s, rs'[j], k - 1)
      {
        assert u.kids[j] == u'.kids[j];
        MeaningOfUnfold(g, g', s, rs[j], rs'[j], k - 1);
      }
    }
  }

  // ----- string offsets rewritten -----

  lemma RefsOfWithNames(t: Type, ns: seq<nat>)
    requires WellFormed(t) && |ns| == |Names(t)|
    ensures Refs(WithNames(t, ns)) == Refs(t)
  {
    hide Cols, WithCols;
    OtherCols(0, NameHi(t.kind), RefLo(t.kind), RefHi(t.kind), t.elems, ns[|HeadNames(t)|..]);
  }

  lemma BlankOfWithNames(t: Type, ns: seq<nat>)
    requires WellFormed(t) && |ns| == |Names(t)|
    ensures Blank(WithNames(t, ns)) == Blank(t)
  {
    hide Cols, WithCols;
    RefsOfWithNames(t, ns);
    var t1, zr := WithNames(t, ns), Zeros(|Refs(t)|);
    NamesOfWithRefs(t, zr);
    NamesOfWithRefs(t1, zr);
    assert Blank(t) == WithNames(WithRefs(t, zr), Zeros(|ns|)) && Blank(t1) == WithNames(WithRefs(t1, zr), Zeros(|ns|));
    BlankElems(t, ns, zr);
  }

  lemma BlankElems(t: Type, ns: seq<nat>, zr: seq<nat>)
    requires WellFormed(t) && |ns| == |Names(t)| && |zr| == |Refs(t)|
    requires Refs(WithNames(t, ns)) == Refs(t) && Names(WithRefs(t, zr)) == Names(t)
    requires |Names(WithNames(t, ns))| == |ns| && Names(WithRefs(WithNames(t, ns), zr)) == Names(WithNames(t, ns))
    ensures WithNames(WithRefs(WithNames(t, ns), zr), Zeros(|ns|)) == WithNames(WithRefs(t, zr), Zeros(|ns|))
  {
    hide Cols, WithCols, RefLo, RefHi, NameHi, ElemWords, InfoWords;
    ColsCommute(RefLo(t.kind), RefHi(t.kind), 0, NameHi(t.kind), t.elems,
                zr[|HeadRefs(t)|..], ns[|HeadNames(t)|..], Zeros(|ns|)[|HeadNames(t)|..]);
  }

  /** Rewriting string offsets so that each reads as before keeps every meaning. */
  lemma {:induction false} MeaningAfterRenaming(g: seq<Type>, s: Strings, g': seq<Type>, s': Strings, id: nat, k: nat)
    requires ValidGraph(g) && ValidGraph(g') && |g| == |g'| && id < |g|
    requires forall i :: 0 <= i < |g| ==> Refs(g'[i]) == Refs(g[i]) && Blank(g'[i]) == Blank(g[i])
    requires forall i :: 0 <= i < |g| ==> Read(Names(g'[i]), s') == Read(Names(g[i]), s)
    ensures Means(g', s', id, k) == Means(g, s, id, k)
    decreases k
  {
    hide Refs, Names, Blank;
    if k > 0 {
      var rs := Refs(g[id]);
      forall j | 0 <= j < |rs|
        ensures Means(g', s', rs[j], k - 1) == Means(g, s, rs[j], k - 1)
      {
        MeaningAfterRenaming(g, s, g', s', rs[j], k - 1);
      }
    }
  }
}
