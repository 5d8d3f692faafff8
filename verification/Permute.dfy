/** Reordering the own types of an object. */
module Permute {
  import opened BtfTypes
  import opened Meaning
  import opened GraphMatch
  import opened DedupState
  import opened DedupResult
  import opened Rewrite

  // ----- sizes and offsets -----

  /** The words that a type takes. */
  function Words(t: Type): nat {
    3 + |t.extra| + |t.elems| * ElemWords(t.kind)
  }

  function Total(ts: seq<Type>): nat {
    if ts == [] then 0 else Total(ts[..|ts| - 1]) + Words(ts[|ts| - 1])
  }

  /** Offsets say where each own type starts. */
  ghost predicate Indexed(own: seq<Type>, offs: seq<nat>) {
    |offs| == |own| && forall i :: 0 <= i < |offs| ==> offs[i] == Total(own[..i])
  }

  // ----- permutations -----

  /** Each own id is the image of exactly one. */
  ghost predicate IsPermutation(ids: seq<nat>, start: nat, n: nat) {
    && start <= n && |ids| == n - start
    && (forall i :: 0 <= i < |ids| ==> start <= ids[i] < n)
    && (forall i, j :: 0 <= i < j < |ids| ==> ids[i] != ids[j])
  }

  /** Pigeons and holes: no hole is left. */
  lemma NoneMissing(ids: seq<nat>, start: nat, n: nat, v: nat)
    requires IsPermutation(ids, start, n) && start <= v < n
    ensures v in ids
  {
    if v !in ids {
      var squeezed := seq(|ids|, i requires 0 <= i < |ids| =>
        if ids[i] > v then ids[i] - start - 1 else ids[i] - start);
      assert InRange(squeezed, n - start - 1);
      forall i, j | 0 <= i < j < |squeezed|
        ensures squeezed[i] != squeezed[j]
      {
        assert ids[i] != v && ids[j] != v && ids[i] != ids[j];
      }
      DistinctCount(squeezed, n - start - 1);
    }
  }

  /** Where ids go: those of the base stay. */
  function NewId(ids: seq<nat>, start: nat, id: nat): nat
    requires id < start + |ids|
  {
    if id < start then id else ids[id - start]
  }

  function NewIds(ids: seq<nat>, start: nat): (m: seq<nat>)
    ensures |m| == start + |ids|
  {
    seq(start + |ids|, id requires 0 <= id < start + |ids| => NewId(ids, start, id))
  }

  /** The same types in another order, with references to match. */
  ghost predicate Permuted(g: seq<Type>, g': seq<Type>, ids: seq<nat>, start: nat) {
    && ValidGraph(g) && |g'| == |g| && IsPermutation(ids, start, |g|) && g'[..start] == g[..start]
    && (forall i :: start <= i < |g| ==> g'[ids[i - start]] == LookedUp(NewIds(ids, start), g[i]))
  }

  lemma PermutedValid(g: seq<Type>, g': seq<Type>, ids: seq<nat>, start: nat)
    requires Permuted(g, g', ids, start) && 0 < start && BaseClosed(g, start)
    ensures ValidGraph(g')
  {
    hide Refs, LookedUp, WellFormed, IsPermutation;
    forall k | 0 <= k < |g'|
      ensures WellFormed(g'[k]) && InRange(Refs(g'[k]), |g'|) && (k > 0 ==> !g'[k].kind.Void?)
    {
      if k < start {
        assert g'[k] == g'[..start][k] == g[..start][k];
      } else {
        PermutedAt(g, g', ids, start, k);
      }
    }
    assert g'[0] == g'[..start][0];
  }

  lemma PermutedAt(g: seq<Type>, g': seq<Type>, ids: seq<nat>, start: nat, k: nat)
    requires Permuted(g, g', ids, start) && 0 < start <= k < |g'|
    ensures WellFormed(g'[k]) && InRange(Refs(g'[k]), |g'|) && !g'[k].kind.Void?
  {
    hide Refs, LookedUp, WellFormed, NewIds;
    NoneMissing(ids, start, |g|, k);
    var i :| 0 <= i < |ids| && ids[i] == k;
    var m, t := NewIds(ids, start), g[start + i];
    assert g'[ids[(start + i) - start]] == LookedUp(m, t);
    assert InRange(Refs(t), |m|);
    LookedUpParts(m, t);
    NewIdsInRange(ids, start, |g|);
  }

  lemma NewIdsInRange(ids: seq<nat>, start: nat, n: nat)
    requires IsPermutation(ids, start, n)
    ensures forall x :: 0 <= x < |NewIds(ids, start)| ==> NewIds(ids, start)[x] < n
  {
  }

  /** Every type means, under its new id, what it meant under the old one. */
  lemma {:induction false} PermutedMeans(g: seq<Type>, g': seq<Type>, ids: seq<nat>, start: nat, s: Strings, x: nat,
                                         k: nat)
    requires Permuted(g, g', ids, start) && 0 < start && BaseClosed(g, start) && ValidGraph(g') && x < |g|
    ensures NewId(ids, start, x) < |g'| && Means(g', s, NewId(ids, start, x), k) == Means(g, s, x, k)
    decreases k
  {
    hide Refs, LookedUp, Names, Blank, BaseClosed;
    var m, x' := NewIds(ids, start), NewId(ids, start, x);
    if k > 0 {
      var rs := Refs(g[x]);
      if x < start {
        assert g'[x] == g'[..start][x] == g[..start][x];
        BaseRefs(g, start, x);
      } else {
        LookedUpParts(m, g[x]);
      }
      assert |Refs(g'[x'])| == |rs| && forall j :: 0 <= j < |rs| ==> Refs(g'[x'])[j] == NewId(ids, start, rs[j]);
      forall j | 0 <= j < |rs|
        ensures Means(g', s, Refs(g'[x'])[j], k - 1) == Means(g, s, rs[j], k - 1)
      {
        PermutedMeans(g, g', ids, start, s, rs[j], k - 1);
      }
    }
  }

  lemma BaseRefs(g: seq<Type>, start: nat, x: nat)
    requires ValidGraph(g) && BaseClosed(g, start) && x < start
    ensures forall j :: 0 <= j < |Refs(g[x])| ==> Refs(g[x])[j] < start
  {
  }

  // ----- the total size stays -----

  function Sum(a: seq<nat>): nat {
    if a == [] then 0 else Sum(a[..|a| - 1]) + a[|a| - 1]
  }

  lemma {:induction false} SumWithout(a: seq<nat>, q: nat)
    requires q < |a|
    ensures Sum(a) == Sum(a[..q] + a[q + 1..]) + a[q]
    decreases |a|
  {
    var n := |a| - 1;
    if q == n {
      assert a[..q] + a[q + 1..] == a[..n];
    } else {
      SumWithout(a[..n], q);
      var b := a[..q] + a[q + 1..];
      assert b[..|b| - 1] == a[..n][..q] + a[..n][q + 1..];
    }
  }

  lemma {:induction false} SumPermuted(a: seq<nat>, b: seq<nat>, p: seq<nat>)
    requires |a| == |b| == |p| && InRange(p, |a|) && forall i, j :: 0 <= i < j < |p| ==> p[i] != p[j]
    requires forall i :: 0 <= i < |a| ==> b[p[i]] == a[i]
    ensures Sum(a) == Sum(b)
    decreases |a|
  {
    if a != [] {
      var n := |a| - 1;
      var q := p[n];
      var b' := b[..q] + b[q + 1..];
      var p' := seq(n, i requires 0 <= i < n => if p[i] > q then p[i] - 1 else p[i]);
      forall i | 0 <= i < n
        ensures p'[i] < n && b'[p'[i]] == a[..n][i]
      {
        assert p[i] != q;
      }
      SumPermuted(a[..n], b', p');
      SumWithout(b, q);
    }
  }

  function Sizes(ts: seq<Type>): (r: seq<nat>)
    ensures |r| == |ts| && forall i :: 0 <= i < |ts| ==> r[i] == Words(ts[i])
  {
    seq(|ts|, i requires 0 <= i < |ts| => Words(ts[i]))
  }

  lemma {:induction false} TotalIsSum(ts: seq<Type>)
    ensures Total(ts) == Sum(Sizes(ts))
  {
    if ts != [] {
      TotalIsSum(ts[..|ts| - 1]);
      assert Sizes(ts)[..|ts| - 1] == Sizes(ts[..|ts| - 1]);
    }
  }

  /** A permuted object takes as much room as before. */
  lemma SameTotal(g: seq<Type>, g': seq<Type>, ids: seq<nat>, start: nat)
    requires Permuted(g, g', ids, start)
    ensures Total(g'[start..]) == Total(g[start..])
  {
    hide Refs, LookedUp, Total, Sum;
    var own, own', n := g[start..], g'[start..], |g| - start;
    var p := seq(n, i requires 0 <= i < n => ids[i] - start);
    forall i | 0 <= i < n
      ensures Sizes(own')[p[i]] == Sizes(own)[i]
    {
      assert g'[ids[(start + i) - start]] == LookedUp(NewIds(ids, start), g[start + i]);
    }
    SumPermuted(Sizes(own), Sizes(own'), p);
    TotalIsSum(own);
    TotalIsSum(own');
  }

  // ----- the operation -----

  class Object {
    const start: nat
    const hasBase: bool
    var types: seq<Type>
    var offs: seq<nat>

    ghost predicate Valid()
      reads this
    {
      && ValidGraph(types) && 0 < start <= |types| && BaseClosed(types, start) && (!hasBase ==> start == 1)
      && Indexed(types[start..], offs)
    }
  }

  /** The ids that a map gives to own types; without a base it starts with an entry for void. */
  ghost predicate Accepts(types: seq<Type>, start: nat, hasBase: bool, idMap: seq<nat>) {
    var skip := if hasBase then 0 else 1;
    && |idMap| >= skip && (!hasBase ==> idMap[0] == 0) && IsPermutation(idMap[skip..], start, |types|)
  }

  /** Note for each own id where it comes from. Works out if and only if the map is a permutation. */
  method OrderMap(ids: seq<nat>, start: nat, n: nat) returns (ok: bool, order: seq<nat>)
    requires 0 < start <= n && |ids| == n - start
    ensures ok <==> IsPermutation(ids, start, n)
    ensures ok ==> |order| == |ids| && forall i :: 0 <= i < |ids| ==> order[ids[i] - start] == start + i
  {
    order := seq(|ids|, _ => 0);
    ok := false;
    var i := 0;
    while i < |ids|
      invariant 0 <= i <= |ids| == |order|
      invariant Noted(ids, start, n, order, i)
    {
      var id := ids[i];
      if id < start || id >= n {
        return;
      }
      if order[id - start] != 0 {
        assert LeadsBack(ids, start, order, id - start, i);
        return;
      }
      NotedNext(ids, start, n, order, i);
      order := order[id - start := start + i];
      i := i + 1;
    }
    NotedAll(ids, start, n, order);
    forall k | 0 <= k < |ids|
      ensures order[ids[k] - start] == start + k
    {
      assert Leads(ids, start, order, k);
    }
    ok := true;
  }

  /** The entries of the first `i` ids are in place, and there are no others. */
  ghost predicate Noted(ids: seq<nat>, start: nat, n: nat, order: seq<nat>, i: nat) {
    && i <= |ids| == |order| && start + |ids| == n
    && (forall k :: 0 <= k < i ==> Leads(ids, start, order, k))
    && (forall h :: 0 <= h < |order| ==> order[h] == 0 || LeadsBack(ids, start, order, h, i))
  }

  ghost predicate Leads(ids: seq<nat>, start: nat, order: seq<nat>, k: nat)
    requires k < |ids|
  {
    start <= ids[k] < start + |order| && order[ids[k] - start] == start + k
  }

  ghost predicate LeadsBack(ids: seq<nat>, start: nat, order: seq<nat>, h: nat, i: nat)
    requires h < |order| && i <= |ids|
  {
    start <= order[h] < start + i && ids[order[h] - start] == start + h
  }

  lemma NotedNext(ids: seq<nat>, start: nat, n: nat, order: seq<nat>, i: nat)
    requires 0 < start && Noted(ids, start, n, order, i) && i < |ids| && start <= ids[i] < n &&
      order[ids[i] - start] == 0
    ensures Noted(ids, start, n, order[ids[i] - start := start + i], i + 1)
  {
    var order' := order[ids[i] - start := start + i];
    forall k | 0 <= k <= i
      ensures Leads(ids, start, order', k)
    {
      assert k < i ==> Leads(ids, start, order, k);
    }
    forall h | 0 <= h < |order'|
      ensures order'[h] == 0 || LeadsBack(ids, start, order', h, i + 1)
    {
      assert order[h] == 0 || LeadsBack(ids, start, order, h, i);
    }
  }

  lemma NotedAll(ids: seq<nat>, start: nat, n: nat, order: seq<nat>)
    requires Noted(ids, start, n, order, |ids|)
    ensures IsPermutation(ids, start, n)
  {
    forall i, j | 0 <= i < j < |ids|
      ensures ids[i] != ids[j]
    {
      assert Leads(ids, start, order, i) && Leads(ids, start, order, j);
    }
    forall i | 0 <= i < |ids|
      ensures start <= ids[i] < n
    {
      assert Leads(ids, start, order, i);
    }
  }

  /** Put the own types in the order that a map asks for. On failure nothing changes. */
  method Permute(b: Object, idMap: seq<nat>) returns (r: Status)
    requires b.Valid() && (!b.hasBase ==> idMap != [])
    modifies b
    ensures r == Done <==>
      Accepts(old(b.types), b.start, b.hasBase, idMap) &&
      forall i :: b.start <= i < |old(b.types)| ==> !old(b.types)[i].kind.Other?
    ensures r != Done ==> b.types == old(b.types) && b.offs == old(b.offs)
    ensures r == Done ==> b.Valid() && Permuted(old(b.types), b.types, if b.hasBase then idMap else idMap[1..], b.start)
    ensures r == Done ==> Total(b.types[b.start..]) == old(Total(b.types[b.start..]))
  {
    hide Refs, LookedUp, Permuted, Total, IsPermutation;
    if !b.hasBase && idMap[0] != 0 {
      return Fail(Inval);
    }
    var ids := if b.hasBase then idMap else idMap[1..];
    assert b.hasBase ==> idMap[0..] == idMap;
    if |ids| != |b.types| - b.start {
      CountsDiffer(ids, b.start, |b.types|);
      return Fail(Inval);
    }
    var ok, order := OrderMap(ids, b.start, |b.types|);
    if !ok {
      return Fail(Inval);
    }
    var own;
    r, own := Reorder(b, ids, order);
    if r != Done {
      return;
    }
    ghost var g := b.types;
    ghost var g' := b.types[..b.start] + own;
    MakePermuted(g, own, ids, b.start);
    PermutedValid(g, g', ids, b.start);
    SameTotal(g, g', ids, b.start);
    SameBase(g, g', b.start);
    b.offs := Offsets(own);
    b.types := b.types[..b.start] + own;
    assert b.types[b.start..] == own;
  }

  lemma CountsDiffer(ids: seq<nat>, start: nat, n: nat)
    requires |ids| != n - start
    ensures !IsPermutation(ids, start, n)
  {
  }

  lemma SameBase(g: seq<Type>, g': seq<Type>, start: nat)
    requires ValidGraph(g) && ValidGraph(g') && BaseClosed(g, start) && start <= |g'| && g'[..start] == g[..start]
    ensures BaseClosed(g', start)
  {
    hide Refs;
    assert forall i :: 0 <= i < start ==> g'[i] == g'[..start][i] == g[..start][i];
  }

  lemma MakePermuted(g: seq<Type>, own: seq<Type>, ids: seq<nat>, start: nat)
    requires ValidGraph(g) && IsPermutation(ids, start, |g|) && |own| == |ids|
    requires forall i :: start <= i < |g| ==> own[ids[i - start] - start] == LookedUp(NewIds(ids, start), g[i])
    ensures Permuted(g, g[..start] + own, ids, start)
  {
    hide Refs, LookedUp;
  }

  /** Copy the own types in their new order, with their references rewritten. */
  method Reorder(b: Object, ids: seq<nat>, order: seq<nat>) returns (r: Status, own: seq<Type>)
    requires b.Valid() && IsPermutation(ids, b.start, |b.types|)
    requires |order| == |ids| && forall i :: 0 <= i < |ids| ==> order[ids[i] - b.start] == b.start + i
    ensures r == Done <==> forall i :: b.start <= i < |b.types| ==> !b.types[i].kind.Other?
    ensures r == Done ==>
      |own| == |ids| && forall i ::
      b.start <= i < |b.types| ==> own[ids[i - b.start] - b.start] == LookedUp(NewIds(ids, b.start), b.types[i])
  {
    hide Refs, LookedUp, Indexed, BaseClosed;
    var m := NewIds(ids, b.start);
    own := [];
    var k := 0;
    while k < |order|
      invariant 0 <= k <= |order| && |own| == k
      invariant forall j :: 0 <= j < k ==>
        b.start <= order[j] < |b.types| && !b.types[order[j]].kind.Other? && own[j] == LookedUp(m, b.types[order[j]])
    {
      NoneMissing(ids, b.start, |b.types|, b.start + k);
      ghost var i :| 0 <= i < |ids| && ids[i] == b.start + k;
      var t';
      r, t' := LookUpIds(b.types[order[k]], m);
      if r != Done {
        return;
      }
      own := own + [t'];
      k := k + 1;
    }
    forall i | b.start <= i < |b.types|
      ensures !b.types[i].kind.Other? && own[ids[i - b.start] - b.start] == LookedUp(m, b.types[i])
    {
      assert order[ids[i - b.start] - b.start] == i;
    }
    r := Done;
  }

  /** Where each type starts. */
  method Offsets(own: seq<Type>) returns (offs: seq<nat>)
    ensures Indexed(own, offs)
  {
    offs := [];
    var at := 0;
    var i := 0;
    while i < |own|
      invariant 0 <= i <= |own| && |offs| == i && at == Total(own[..i])
      invariant forall j :: 0 <= j < i ==> offs[j] == Total(own[..j])
    {
      offs := offs + [at];
      at := at + Words(own[i]);
      assert own[..i + 1][..i] == own[..i];
      i := i + 1;
    }
  }
}
