/** What the types mean after compaction and rewriting. */
module DedupResult {
  import opened BtfTypes
  import opened Meaning
  import opened CanonMap
  import opened GraphMatch
  import opened RefPass
  import opened CompactPass

  /** The first `start` types refer to each other only. */
  ghost predicate BaseClosed(g: seq<Type>, start: nat)
    requires ValidGraph(g)
  {
    start <= |g| && forall i :: 0 <= i < start ==> InRange(Refs(g[i]), start)
  }

  lemma FinalIdBounded(m: seq<nat>, start: nat, i: nat)
    requires AllCanonical(m) && start <= |m| && i < |m|
    ensures FinalId(m, start, i) < start + |Survivors(m, start, |m|)|
  {
    hide Survivors, Acyclic;
    NewIdBounded(m, start, Resolve(m, i));
  }

  /** Where a canonical type ends up, and what its references have become. */
  lemma RemappedAt(g: seq<Type>, m: seq<nat>, start: nat, r: nat)
    requires ValidGraph(g) && AllCanonical(m) && |m| == |g| && start <= r < |g| && m[r] == r
    ensures NewId(m, start, r) < |Remapped(g, m, start)|
    ensures Remapped(g, m, start)[NewId(m, start, r)] == WithRefs(g[r], FinalRefs(m, start, Refs(g[r])))
  {
    hide Refs, WithRefs, FinalRefs, Acyclic;
    SurvivorAt(m, start, r);
  }

  lemma RemappedValid(g: seq<Type>, m: seq<nat>, start: nat)
    requires ValidGraph(g) && AllCanonical(m) && |m| == |g| && 0 < start && BaseClosed(g, start)
    ensures ValidGraph(Remapped(g, m, start))
  {
    hide Refs, WithRefs, Acyclic, Survivors, FinalId;
    var g', s := Remapped(g, m, start), Survivors(m, start, |m|);
    forall i | 0 <= i < |g'|
      ensures WellFormed(g'[i]) && InRange(Refs(g'[i]), |g'|) && (i > 0 ==> !g'[i].kind.Void?)
    {
      if i < start {
        assert g'[i] == g[i];
      } else {
        var old_ := s[i - start];
        var rs := Refs(g[old_]);
        assert g'[i] == WithRefs(g[old_], FinalRefs(m, start, rs));
        forall j | 0 <= j < |rs|
          ensures FinalRefs(m, start, rs)[j] < |g'|
        {
          FinalIdBounded(m, start, rs[j]);
        }
      }
    }
  }

  lemma {:induction false} BaseUnfold(g: seq<Type>, g': seq<Type>, start: nat, b: nat, k: nat)
    requires ValidGraph(g) && ValidGraph(g') && BaseClosed(g, start) && b < start <= |g'| && g'[..start] == g[..start]
    ensures Unfold(g', b, k) == Unfold(g, b, k)
    decreases k
  {
    hide Refs, Shape;
    if k > 0 {
      assert g'[b] == g[b] by {
        assert g'[..start][b] == g[..start][b];
      }
      var rs := Refs(g[b]);
      forall j | 0 <= j < |rs|
        ensures Unfold(g', rs[j], k - 1) == Unfold(g, rs[j], k - 1)
      {
        BaseUnfold(g, g', start, rs[j], k - 1);
      }
    }
  }

  /** Every type unfolds as its final type does, to every depth. */
  lemma {:induction false} RemappedUnfold(g: seq<Type>, m: seq<nat>, start: nat, i: nat, k: nat)
    requires ValidGraph(g) && AllCanonical(m) && |m| == |g| && 0 < start && BaseClosed(g, start) && i < |g|
    requires Sound(g, m) && ValidGraph(Remapped(g, m, start))
    ensures FinalId(m, start, i) < |Remapped(g, m, start)|
    ensures Unfold(Remapped(g, m, start), FinalId(m, start, i), k) == Unfold(g, i, k)
    decreases k
  {
    hide Refs, Shape, WithRefs, Survivors, Remapped, FinalRefs, Acyclic, Sound;
    var g', r, x := Remapped(g, m, start), Resolve(m, i), FinalId(m, start, i);
    FinalIdBounded(m, start, i);
    ResolveSound(g, m, i);
    assert Unfold(g, i, k) == Unfold(g, r, k);
    if r < start {
      BasePrefix(g, m, start);
      BaseUnfold(g, g', start, r, k);
    } else if k > 0 {
      RemappedAt(g, m, start, r);
      var rs, rs' := Refs(g[r]), FinalRefs(m, start, Refs(g[r]));
      ShapeOfWithRefs(g[r], rs');
      assert Refs(g'[x]) == rs';
      forall j | 0 <= j < |rs|
        ensures rs'[j] < |g'| && Unfold(g', rs'[j], k - 1) == Unfold(g, rs[j], k - 1)
      {
        FinalRefAt(m, start, rs, j);
        RemappedUnfold(g, m, start, rs[j], k - 1);
      }
    }
  }

  lemma BasePrefix(g: seq<Type>, m: seq<nat>, start: nat)
    requires ValidGraph(g) && Acyclic(m) && |m| == |g| && start <= |g|
    ensures Remapped(g, m, start)[..start] == g[..start]
  {
    hide Refs, WithRefs, Acyclic, Survivors, FinalRefs;
  }

  lemma FinalRefAt(m: seq<nat>, start: nat, rs: seq<nat>, j: nat)
    requires Acyclic(m) && start <= |m| && InRange(rs, |m|) && j < |rs|
    ensures FinalRefs(m, start, rs)[j] == FinalId(m, start, rs[j])
  {
  }

  lemma NewIdInjective(m: seq<nat>, start: nat, a: nat, b: nat)
    requires start <= |m| && a < |m| && b < |m| && m[a] == a && m[b] == b
    requires NewId(m, start, a) == NewId(m, start, b)
    ensures a == b
  {
    hide Survivors;
    if start <= a < b {
      NewIdOrder(m, start, a, b);
    } else if start <= b < a {
      NewIdOrder(m, start, b, a);
    }
  }

  /** Rewriting tells canonical references apart. */
  lemma FinalRefsInjective(m: seq<nat>, start: nat, rs: seq<nat>, rs': seq<nat>)
    requires Acyclic(m) && start <= |m| && InRange(rs, |m|) && InRange(rs', |m|)
    requires forall j :: 0 <= j < |rs| ==> m[rs[j]] == rs[j]
    requires forall j :: 0 <= j < |rs'| ==> m[rs'[j]] == rs'[j]
    requires FinalRefs(m, start, rs) == FinalRefs(m, start, rs')
    ensures rs == rs'
  {
    hide Survivors, NewId, Acyclic;
    assert |rs| == |FinalRefs(m, start, rs)| && |rs'| == |FinalRefs(m, start, rs')|;
    forall j | 0 <= j < |rs|
      ensures rs[j] == rs'[j]
    {
      FinalRefAt(m, start, rs, j);
      FinalRefAt(m, start, rs', j);
      NewIdInjective(m, start, rs[j], rs'[j]);
    }
  }

  /** Canonical types that differ still differ after their references are rewritten. */
  lemma StillDistinct(g: seq<Type>, m: seq<nat>, start: nat, i: nat, j: nat)
    requires ValidGraph(g) && AllCanonical(m) && |m| == |g| && start <= i < |g| && start <= j < |g|
    requires m[i] == i && m[j] == j && g[i] != g[j] && CanonRefs(g, m, i) && CanonRefs(g, m, j)
    ensures NewId(m, start, i) < |Remapped(g, m, start)| && NewId(m, start, j) < |Remapped(g, m, start)|
    ensures Remapped(g, m, start)[NewId(m, start, i)] != Remapped(g, m, start)[NewId(m, start, j)]
  {
    hide Refs, Shape, WithRefs, Survivors, Remapped, FinalRefs, Acyclic;
    RemappedAt(g, m, start, i);
    RemappedAt(g, m, start, j);
    var ri, rj := FinalRefs(m, start, Refs(g[i])), FinalRefs(m, start, Refs(g[j]));
    if WithRefs(g[i], ri) == WithRefs(g[j], rj) {
      ShapeOfWithRefs(g[i], ri);
      ShapeOfWithRefs(g[j], rj);
      FinalRefsInjective(m, start, Refs(g[i]), Refs(g[j]));
      ShapeAndRefs(g[i], g[j]);
    }
  }

  /** The same against a type of the base, whose references are not rewritten. */
  lemma StillDistinctFromBase(g: seq<Type>, m: seq<nat>, start: nat, i: nat, b: nat)
    requires ValidGraph(g) && AllCanonical(m) && |m| == |g| && BaseClosed(g, start) && b < start <= i < |g|
    requires m[i] == i && g[i] != g[b] && CanonRefs(g, m, i)
    ensures NewId(m, start, i) < |Remapped(g, m, start)|
    ensures Remapped(g, m, start)[NewId(m, start, i)] != g[b]
  {
    hide Refs, Shape, WithRefs, Survivors, Remapped, Acyclic;
    RemappedAt(g, m, start, i);
    var rs := Refs(g[i]);
    var ri := FinalRefs(m, start, rs);
    if WithRefs(g[i], ri) == g[b] {
      ShapeOfWithRefs(g[i], ri);
      assert Refs(g[b]) == ri && |ri| == |rs|;
      forall j | 0 <= j < |rs|
        ensures rs[j] == ri[j]
      {
        FinalRefAt(m, start, rs, j);
        assert ri[j] < start;
      }
      ShapeAndRefs(g[i], g[b]);
    }
  }
}
