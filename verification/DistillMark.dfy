/** Which base types a split object needs: everything its types refer to, directly or through others,
    but not what lies behind named structs and unions. */
module DistillMark {
  import opened BtfTypes
  import opened Meaning
  import opened GraphMatch
  import opened DedupState
  import opened DedupResult
  import opened Rewrite

  /** The kinds of base types that a split object may refer to. */
  predicate IsCarried(k: Kind) {
    k.Int? || k.Float? || k.Fwd? || k.Array? || k.Struct? || k.Union? || k.Typedef? || k.Enum? || k.Enum64?
    || k.Ptr? || k.Const? || k.Restrict? || k.Volatile? || k.Func? || k.FuncProto? || k.TypeTag?
    || k.LocParam? || k.LocProto?
  }

  predicate NamedComposite(t: Type) {
    IsComposite(t) && t.name != 0
  }

  /** From an own type along references into the base, but through no named struct or union. */
  ghost predicate Trail(g: seq<Type>, start: nat, p: seq<nat>)
    requires ValidGraph(g)
  {
    && |p| > 0 && start <= p[0] < |g|
    && (forall i :: 0 < i < |p| ==> 0 < p[i] < start && p[i] < |g|)
    && (forall i :: 0 < i < |p| ==> p[i] in Refs(g[p[i - 1]]))
    && (forall i :: 0 < i < |p| - 1 ==> !NamedComposite(g[p[i]]))
  }

  ghost predicate Needed(g: seq<Type>, start: nat, x: nat)
    requires ValidGraph(g)
  {
    exists p :: Trail(g, start, p) && |p| > 1 && p[|p| - 1] == x
  }

  lemma TrailOn(g: seq<Type>, start: nat, p: seq<nat>, y: nat)
    requires ValidGraph(g) && Trail(g, start, p) && start <= |g| && 0 < y < start && y in Refs(g[p[|p| - 1]])
    requires |p| > 1 ==> !NamedComposite(g[p[|p| - 1]])
    ensures Trail(g, start, p + [y]) && Needed(g, start, y)
  {
    hide Refs;
    var q := p + [y];
    assert q[|q| - 1] == y && forall i :: 0 <= i < |p| ==> q[i] == p[i];
  }

  // ----- marks -----

  /** Marks are the ids themselves, on needed base types of the right kinds. */
  ghost predicate Marks(g: seq<Type>, start: nat, ids: seq<nat>)
    requires ValidGraph(g)
  {
    |ids| == |g| && forall x :: 0 <= x < |g| && ids[x] != 0 ==>
      0 < x < start && ids[x] == x && IsCarried(g[x].kind) && Needed(g, start, x)
  }

  ghost predicate RefsMarked(g: seq<Type>, start: nat, ids: seq<nat>, rs: seq<nat>)
    requires |ids| == |g| && InRange(rs, |g|)
  {
    forall j :: 0 <= j < |rs| && 0 < rs[j] < start ==> ids[rs[j]] != 0
  }

  ghost predicate MoreMarks(ids: seq<nat>, ids': seq<nat>) {
    |ids'| == |ids| && forall x :: 0 <= x < |ids| && ids[x] != 0 ==> ids'[x] == ids[x]
  }

  /** What has been marked since is closed under references, short of named structs and unions. */
  ghost predicate ClosedSince(g: seq<Type>, start: nat, ids: seq<nat>, ids': seq<nat>)
    requires ValidGraph(g) && |ids| == |ids'| == |g|
  {
    forall x :: 0 <= x < |g| && ids[x] == 0 && ids'[x] != 0 && !NamedComposite(g[x]) ==>
      RefsMarked(g, start, ids', Refs(g[x]))
  }

  ghost function Unmarked(start: nat, ids: seq<nat>): set<nat>
    requires start <= |ids|
  {
    set x | 0 < x < start && ids[x] == 0
  }

  /** A type that keeps the split object from being distilled. */
  ghost predicate Obstacle(g: seq<Type>, start: nat, x: nat)
    requires ValidGraph(g) && x < |g|
  {
    (Needed(g, start, x) && !IsCarried(g[x].kind)) || (start <= x && g[x].kind.Other?)
  }

  ghost predicate Obstructed(g: seq<Type>, start: nat)
    requires ValidGraph(g)
  {
    exists x :: 0 < x < |g| && Obstacle(g, start, x)
  }

  lemma MarkedMonotone(g: seq<Type>, start: nat, ids: seq<nat>, ids1: seq<nat>, ids2: seq<nat>)
    requires ValidGraph(g) && |ids| == |ids1| == |ids2| == |g| && MoreMarks(ids1, ids2)
    requires ClosedSince(g, start, ids, ids1) && ClosedSince(g, start, ids1, ids2)
    ensures ClosedSince(g, start, ids, ids2)
  {
    hide Refs;
  }

  lemma NothingSince(g: seq<Type>, start: nat, ids: seq<nat>)
    requires ValidGraph(g) && |ids| == |g|
    ensures ClosedSince(g, start, ids, ids)
  {
  }

  lemma OwnObstacle(g: seq<Type>, start: nat, i: nat)
    requires ValidGraph(g) && start <= i < |g| && g[i].kind.Other?
    ensures Obstructed(g, start)
  {
    hide Refs, Needed;
    assert Obstacle(g, start, i);
  }

  /** Mark all base types that one type refers to, and on from there. */
  method MarkRefs(g: seq<Type>, start: nat, ids: seq<nat>, i: nat, ghost p: seq<nat>)
    returns (r: Status, ids': seq<nat>)
    requires ValidGraph(g) && start <= |g| && BaseClosed(g, start) && Marks(g, start, ids)
    requires Trail(g, start, p) && i == p[|p| - 1] && i < |g| == |ids| && (|p| > 1 ==> !NamedComposite(g[i]))
    requires i < start ==> !g[i].kind.Other?
    ensures r == Done ==> Marks(g, start, ids') && MoreMarks(ids, ids')
    ensures r == Done ==>
      RefsMarked(g, start, ids', Refs(g[i])) && ClosedSince(g, start, ids, ids') && !g[i].kind.Other?
    ensures r != Done ==> Obstructed(g, start)
    decreases Unmarked(start, ids), 1
  {
    hide Refs, IsCarried, NamedComposite, Needed, Trail, Marks, BaseClosed, ClosedSince, Obstructed;
    ids' := ids;
    var read := ReadIds(g[i]);
    if read.None? {
      OwnObstacle(g, start, i);
      return Fail(Inval), ids;
    }
    var rs := read.value;
    NothingSince(g, start, ids);
    var j := 0;
    while j < |rs|
      invariant 0 <= j <= |rs| && Marks(g, start, ids') && MoreMarks(ids, ids') && ClosedSince(g, start, ids, ids')
      invariant forall x :: 0 <= x < j && 0 < rs[x] < start ==> ids'[rs[x]] != 0
    {
      var id := rs[j];
      if id != 0 && id < start && ids'[id] == 0 {
        TrailOn(g, start, p, id);
        ghost var was := ids';
        r, ids' := MarkOne(g, start, ids', id, p);
        if r != Done {
          return;
        }
        MarkedMonotone(g, start, ids, was, ids');
      }
      j := j + 1;
    }
    r := Done;
  }

  /** Mark one base type that is not marked yet, and what it needs. */
  method MarkOne(g: seq<Type>, start: nat, ids: seq<nat>, id: nat, ghost p: seq<nat>)
    returns (r: Status, ids': seq<nat>)
    requires ValidGraph(g) && start <= |g| && BaseClosed(g, start) && Marks(g, start, ids)
    requires 0 < id < start && ids[id] == 0 && Trail(g, start, p + [id]) && Needed(g, start, id)
    ensures r == Done ==>
      Marks(g, start, ids') && MoreMarks(ids, ids') && ids'[id] != 0 && ClosedSince(g, start, ids, ids')
    ensures r != Done ==> Obstructed(g, start)
    decreases Unmarked(start, ids), 0
  {
    hide Refs, Needed, BaseClosed;
    ids' := ids;
    if !IsCarried(g[id].kind) {
      assert Obstacle(g, start, id);
      return Fail(Inval), ids;
    }
    ids' := ids[id := id];
    if NamedComposite(g[id]) {
      return Done, ids';
    }
    ghost var q := p + [id];
    assert q[|q| - 1] == id && |q| > 1 by {
      assert Trail(g, start, q);
    }
    assert id in Unmarked(start, ids) && id !in Unmarked(start, ids');
    r, ids' := MarkRefs(g, start, ids', id, q);
  }

  /** Mark the base types that all own types need. */
  method MarkAll(g: seq<Type>, start: nat) returns (r: Status, ids: seq<nat>)
    requires ValidGraph(g) && 0 < start <= |g| && BaseClosed(g, start)
    ensures r == Done <==> !Obstructed(g, start)
    ensures r == Done ==> Marks(g, start, ids) && forall x :: 0 < x < |g| ==> (ids[x] != 0 <==> Needed(g, start, x))
  {
    hide Refs, Needed, BaseClosed, Trail;
    ids := seq(|g|, _ => 0);
    ghost var ids0 := ids;
    var i := start;
    while i < |g|
      invariant start <= i <= |g| && Marks(g, start, ids) && ClosedSince(g, start, ids0, ids) && |ids0| == |g|
      invariant forall x :: 0 <= x < |g| ==> ids0[x] == 0
      invariant forall x :: start <= x < i ==> !g[x].kind.Other? && RefsMarked(g, start, ids, Refs(g[x]))
    {
      OwnTrail(g, start, i);
      ghost var was := ids;
      r, ids := MarkRefs(g, start, ids, i, [i]);
      if r != Done {
        return;
      }
      MarkedMonotone(g, start, ids0, was, ids);
      i := i + 1;
    }
    r := Done;
    forall x | 0 < x < |g|
      ensures Needed(g, start, x) ==> ids[x] != 0
    {
      NeededMarked(g, start, ids, x);
    }
  }

  lemma OwnTrail(g: seq<Type>, start: nat, i: nat)
    requires ValidGraph(g) && start <= i < |g|
    ensures Trail(g, start, [i])
  {
  }

  lemma {:induction false} TrailMarked(g: seq<Type>, start: nat, ids: seq<nat>, p: seq<nat>, n: nat)
    requires ValidGraph(g) && |ids| == |g| && Trail(g, start, p) && 0 < n < |p|
    requires forall x :: start <= x < |g| ==> RefsMarked(g, start, ids, Refs(g[x]))
    requires forall x :: 0 <= x < |g| && ids[x] != 0 && !NamedComposite(g[x]) ==> RefsMarked(g, start, ids, Refs(g[x]))
    ensures ids[p[n]] != 0
    decreases n
  {
    hide Refs;
    if n > 1 {
      TrailMarked(g, start, ids, p, n - 1);
    }
    assert p[n] in Refs(g[p[n - 1]]) && RefsMarked(g, start, ids, Refs(g[p[n - 1]]));
  }

  /** Marks that are closed cover everything that is needed. */
  lemma NeededMarked(g: seq<Type>, start: nat, ids: seq<nat>, x: nat)
    requires ValidGraph(g) && |ids| == |g| && x < |g|
    requires forall x :: start <= x < |g| ==> RefsMarked(g, start, ids, Refs(g[x]))
    requires forall x :: 0 <= x < |g| && ids[x] != 0 && !NamedComposite(g[x]) ==> RefsMarked(g, start, ids, Refs(g[x]))
    ensures Needed(g, start, x) ==> ids[x] != 0
  {
    hide Refs, RefsMarked;
    if Needed(g, start, x) {
      var p :| Trail(g, start, p) && |p| > 1 && p[|p| - 1] == x;
      TrailMarked(g, start, ids, p, |p| - 1);
    }
  }
}
