/** The last two passes: canonical types close ranks in place, then every reference gets its final id. */
module CompactPass {
  import opened BtfTypes
  import opened Meaning
  import opened CanonMap
  import opened GraphMatch
  import opened FieldIter
  import opened DedupState

  /** The canonical ids from `lo` up to `hi`, in order. */
  ghost function Survivors(m: seq<nat>, lo: nat, hi: nat): (s: seq<nat>)
    requires lo <= hi <= |m|
    ensures |s| <= hi - lo
    ensures forall i :: 0 <= i < |s| ==> lo <= s[i] < hi && m[s[i]] == s[i]
    decreases hi
  {
    if lo == hi then []
    else Survivors(m, lo, hi - 1) + (if m[hi - 1] == hi - 1 then [hi - 1] else [])
  }

  /** The id that a canonical type has in the end. */
  ghost function NewId(m: seq<nat>, start: nat, id: nat): nat
    requires start <= |m| && id < |m|
  {
    if id < start then id else if m[id] == id then start + |Survivors(m, start, id)| else UNPROCESSED
  }

  /** The id that any type has in the end. */
  ghost function FinalId(m: seq<nat>, start: nat, id: nat): nat
    requires Acyclic(m) && start <= |m| && id < |m|
  {
    NewId(m, start, Resolve(m, id))
  }

  lemma {:induction false} SurvivorsSplit(m: seq<nat>, lo: nat, mid: nat, hi: nat)
    requires lo <= mid <= hi <= |m|
    ensures Survivors(m, lo, hi) == Survivors(m, lo, mid) + Survivors(m, mid, hi)
    decreases hi
  {
    if mid < hi {
      SurvivorsSplit(m, lo, mid, hi - 1);
    }
  }

  /** New ids follow the order of the old ones, without gaps. */
  lemma NewIdOrder(m: seq<nat>, start: nat, i: nat, j: nat)
    requires start <= i < j < |m| && m[i] == i && m[j] == j
    ensures NewId(m, start, i) < NewId(m, start, j) < start + |Survivors(m, start, |m|)|
  {
    SurvivorsSplit(m, start, i + 1, j);
    SurvivorsSplit(m, start, j + 1, |m|);
  }

  lemma SurvivorAt(m: seq<nat>, start: nat, i: nat)
    requires start <= i < |m| && m[i] == i
    ensures |Survivors(m, start, i)| < |Survivors(m, start, |m|)|
    ensures Survivors(m, start, |m|)[|Survivors(m, start, i)|] == i
  {
    SurvivorsSplit(m, start, i + 1, |m|);
  }

  lemma SurvivorIndex(m: seq<nat>, start: nat, x: nat)
    requires start <= |m| && x < |Survivors(m, start, |m|)|
    ensures NewId(m, start, Survivors(m, start, |m|)[x]) == start + x
  {
    var s := Survivors(m, start, |m|);
    var i := s[x];
    SurvivorsSplit(m, start, i, |m|);
    SurvivorAt(m, start, i);
    SurvivorsIncrease(m, start, |m|);
  }

  lemma {:induction false} SurvivorsIncrease(m: seq<nat>, lo: nat, hi: nat)
    requires lo <= hi <= |m|
    ensures forall a, b :: 0 <= a < b < |Survivors(m, lo, hi)| ==> Survivors(m, lo, hi)[a] < Survivors(m, lo, hi)[b]
    decreases hi
  {
    if lo < hi {
      SurvivorsIncrease(m, lo, hi - 1);
    }
  }

  /** The list of types built afresh from the survivors. */
  ghost function Compacted(g: seq<Type>, m: seq<nat>, start: nat): (r: seq<Type>)
    requires |m| == |g| && start <= |g|
    ensures |r| == start + |Survivors(m, start, |m|)|
  {
    var s := Survivors(m, start, |m|);
    g[..start] + seq(|s|, x requires 0 <= x < |s| => g[s[x]])
  }

  /** Move the canonical types together in place, and note their new ids. */
  method CompactTypes(d: State)
    requires |d.types| == |d.canon| == |d.hypotMap| <= MAX_NR_TYPES + 1 && 0 < d.startId <= |d.types|
    modifies d`types, d`hypotMap
    ensures d.types == Compacted(old(d.types), d.canon, d.startId)
    ensures |d.hypotMap| == |d.canon|
    ensures forall i :: 0 <= i < |d.canon| ==> d.hypotMap[i] == NewId(d.canon, d.startId, i)
  {
    hide Survivors, NewId;
    ghost var g, m := d.types, d.canon;
    ghost var s := [];
    FirstSurvivor(m, d.startId);
    var n := |d.types|;
    d.hypotMap := seq(n, i requires 0 <= i < n => if i < d.startId then i else UNPROCESSED);
    var next, id := d.startId, d.startId;
    while id < n
      invariant d.startId <= next <= id <= n == |d.types| == |d.hypotMap|
      invariant s == Survivors(m, d.startId, id) && next == d.startId + |s|
      invariant forall i :: 0 <= i < d.startId || id <= i < n ==> d.types[i] == g[i]
      invariant forall x :: 0 <= x < next - d.startId ==> d.types[d.startId + x] == g[s[x]]
      invariant forall i :: 0 <= i < id ==> d.hypotMap[i] == NewId(m, d.startId, i)
      invariant forall i :: id <= i < n ==> d.hypotMap[i] == UNPROCESSED
    {
      if d.canon[id] == id {
        d.types := d.types[next := d.types[id]];
        d.hypotMap := d.hypotMap[id := next];
        next := next + 1;
      }
      NextSurvivor(m, d.startId, id);
      s := Survivors(m, d.startId, id + 1);
      id := id + 1;
    }
    d.types := d.types[..next];
  }

  lemma FirstSurvivor(m: seq<nat>, start: nat)
    requires start <= |m|
    ensures Survivors(m, start, start) == [] && forall i :: 0 <= i < start ==> NewId(m, start, i) == i
  {
  }

  lemma NextSurvivor(m: seq<nat>, start: nat, id: nat)
    requires start <= id < |m|
    ensures Survivors(m, start, id + 1) == Survivors(m, start, id) + if m[id] == id then [id] else []
    ensures NewId(m, start, id) == if m[id] == id then start + |Survivors(m, start, id)| else UNPROCESSED
  {
  }

  /** References rewritten through the map and the new ids. */
  ghost function FinalRefs(m: seq<nat>, start: nat, rs: seq<nat>): (r: seq<nat>)
    requires Acyclic(m) && start <= |m| && InRange(rs, |m|)
    ensures |r| == |rs|
  {
    seq(|rs|, j requires 0 <= j < |rs| => FinalId(m, start, rs[j]))
  }

  /** All entries lead to canonical types. */
  ghost predicate AllCanonical(m: seq<nat>) {
    Acyclic(m) && forall i :: 0 <= i < |m| ==> m[Resolve(m, i)] == Resolve(m, i)
  }

  /** Rewrite the references of one type in place. */
  method RemapType(m: seq<nat>, newIds: seq<nat>, start: nat, t: Type) returns (r: Status, t': Type)
    requires AllCanonical(m) && |newIds| == |m| && start <= |m|
    requires forall i :: 0 <= i < |m| ==> newIds[i] == NewId(m, start, i)
    requires WellFormed(t) && InRange(Refs(t), |m|) && !t.kind.Other?
    ensures r == Done && t' == WithRefs(t, FinalRefs(m, start, Refs(t)))
  {
    hide Refs, WithRefs, Fields, Survivors, Describe, NewId, Put, Get, Iter.Rest, ValidLoc;
    t' := t;
    var iter := InitIter(t, Ids);
    if iter.None? {
      return Fail(Inval), t;
    }
    var it := iter.value;
    FieldCounts(t);
    WithRefsTwice(t, Refs(t), Refs(t));
    ghost var rs, fs, j := Refs(t), Fields(t, Ids), 0;
    ghost var now: seq<nat> := rs;
    var l := it.Next();
    while l.Some?
      invariant fresh(it) && it.Valid() && 0 <= j <= |rs| == |fs| == |now|
      invariant if l.Some? then j < |rs| && l.value == fs[j] && it.Rest() == fs[j + 1..] else j == |rs|
      invariant WellFormed(t') && t' == WithRefs(t, now)
      invariant forall i :: j <= i < |rs| ==> now[i] == rs[i]
      invariant forall i :: 0 <= i < j ==> now[i] == FinalId(m, start, rs[i])
      decreases |rs| - j
    {
      SameFields(t, t', Ids);
      IdField(t', j, 0);
      var resolved := ResolveTypeId(m, Get(t', l.value));
      var newId := newIds[resolved];
      NewIdBounded(m, start, resolved);
      if newId > MAX_NR_TYPES {
        return Fail(Inval), t';
      }
      IdField(t', j, newId);
      WithRefsTwice(t, now, now[j := newId]);
      t' := Put(t', l.value, newId);
      now := now[j := newId];
      j := j + 1;
      l := it.Next();
    }
    assert now == FinalRefs(m, start, rs);
    r := Done;
  }

  lemma NewIdBounded(m: seq<nat>, start: nat, id: nat)
    requires Acyclic(m) && start <= |m| && id < |m| && m[id] == id
    ensures NewId(m, start, id) < start + |Survivors(m, start, |m|)| <= |m|
  {
    hide Acyclic;
    if id >= start {
      SurvivorAt(m, start, id);
    }
  }

  /** The types after compaction and rewriting. */
  ghost function Remapped(g: seq<Type>, m: seq<nat>, start: nat): (r: seq<Type>)
    requires ValidGraph(g) && Acyclic(m) && |m| == |g| && start <= |g|
    ensures |r| == start + |Survivors(m, start, |m|)|
  {
    var s := Survivors(m, start, |m|);
    g[..start] + seq(|s|, x requires 0 <= x < |s| => WithRefs(g[s[x]], FinalRefs(m, start, Refs(g[s[x]]))))
  }

  /** Rewrite the references of all own types. */
  method RemapTypes(d: State, ghost g: seq<Type>) returns (r: Status)
    requires ValidGraph(g) && AllCanonical(d.canon) && |d.canon| == |g| && 0 < d.startId <= |g|
    requires forall i :: 0 < i < |g| ==> !g[i].kind.Other?
    requires d.types == Compacted(g, d.canon, d.startId)
    requires |d.hypotMap| == |d.canon|
    requires forall i :: 0 <= i < |d.canon| ==> d.hypotMap[i] == NewId(d.canon, d.startId, i)
    modifies d`types
    ensures r == Done && d.types == Remapped(g, d.canon, d.startId)
  {
    hide Refs, WithRefs, NewId, Acyclic, FinalRefs;
    ghost var s, goal := Survivors(d.canon, d.startId, |d.canon|), Remapped(g, d.canon, d.startId);
    var id := d.startId;
    while id < |d.types|
      invariant d.startId <= id <= |d.types| == |goal|
      invariant forall i :: 0 <= i < |goal| ==>
        d.types[i] == if i < id then goal[i] else Compacted(g, d.canon, d.startId)[i]
    {
      ghost var old_ := g[s[id - d.startId]];
      assert d.types[id] == old_;
      var t';
      r, t' := RemapType(d.canon, d.hypotMap, d.startId, d.types[id]);
      if r != Done {
        return;
      }
      d.types := d.types[id := t'];
      id := id + 1;
    }
    r := Done;
  }
}
