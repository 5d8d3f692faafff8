/** Which structs and unions are members of others by value: the walk through modifiers, typedefs and
    arrays from a member to what it is made of. */
module Embedding {
  import opened BtfTypes
  import opened Meaning
  import opened GraphMatch
  import opened SmallTypes
  import opened DedupState
  import opened Rewrite

  const IS_EMBEDDED: nat := 0xffff_ffff

  predicate IsPassed(k: Kind) {
    k.Const? || k.Restrict? || k.Volatile? || k.Typedef? || k.TypeTag? || k.Array?
  }

  /** The walk stops at void and at every type that is more than a name for, or a row of, another. */
  predicate Stops(g: seq<Type>, id: nat)
    requires id < |g|
  {
    id == 0 || !IsPassed(g[id].kind)
  }

  function Next(g: seq<Type>, id: nat): (r: nat)
    requires ValidGraph(g) && id < |g| && !Stops(g, id)
    ensures r < |g|
  {
    var t := g[id];
    assert Refs(t)[0] == if t.kind.Array? then t.extra[0] else t.st;
    if t.kind.Array? then t.extra[0] else t.st
  }

  /** Where the walk is after `n` steps. */
  ghost function Node(g: seq<Type>, id: nat, n: nat): (r: nat)
    requires ValidGraph(g) && id < |g|
    ensures r < |g|
  {
    if n == 0 then id
    else
      var p := Node(g, id, n - 1);
      if Stops(g, p) then p else Next(g, p)
  }

  ghost predicate NeverStops(g: seq<Type>, id: nat)
    requires ValidGraph(g) && id < |g|
  {
    forall n: nat :: !Stops(g, Node(g, id, n))
  }

  ghost predicate ReachedFrom(g: seq<Type>, id: nat, d: nat)
    requires ValidGraph(g) && id < |g|
  {
    exists n: nat :: Node(g, id, n) == d && Stops(g, d)
  }

  /** The walk is deterministic: it stops at no more than one type. */
  lemma {:induction false} StaysStopped(g: seq<Type>, id: nat, n: nat, k: nat)
    requires ValidGraph(g) && id < |g| && Stops(g, Node(g, id, n)) && n <= k
    ensures Node(g, id, k) == Node(g, id, n)
    decreases k
  {
    hide Stops, Next;
    if n < k {
      StaysStopped(g, id, n, k - 1);
    }
  }

  lemma {:induction false} SameAfter(g: seq<Type>, id: nat, a: nat, b: nat, n: nat)
    requires ValidGraph(g) && id < |g| && Node(g, id, a) == Node(g, id, b)
    ensures Node(g, id, a + n) == Node(g, id, b + n)
    decreases n
  {
    hide Stops, Next;
    if n > 0 {
      SameAfter(g, id, a, b, n - 1);
      assert a + n - 1 == a + (n - 1) && b + n - 1 == b + (n - 1);
    }
  }

  /** A walk that comes back to a type goes round forever. */
  lemma {:induction false} RoundForever(g: seq<Type>, id: nat, a: nat, b: nat, n: nat)
    requires ValidGraph(g) && id < |g| && a < b && Node(g, id, a) == Node(g, id, b)
    requires forall i :: 0 <= i < b ==> !Stops(g, Node(g, id, i))
    ensures !Stops(g, Node(g, id, n))
    decreases n
  {
    hide Stops, Next;
    if n >= b {
      RoundForever(g, id, a, b, n - (b - a));
      SameAfter(g, id, a, b, n - b);
      assert Node(g, id, a + (n - b)) == Node(g, id, n - (b - a)) by {
        assert a + (n - b) == n - (b - a);
      }
    }
  }

  /** A walk that takes more steps than there are types never stops. */
  lemma LongWalkNeverStops(g: seq<Type>, id: nat)
    requires ValidGraph(g) && id < |g|
    requires forall n :: 0 <= n <= |g| ==> !Stops(g, Node(g, id, n))
    ensures NeverStops(g, id)
  {
    hide Stops, Next, Node;
    var nodes := seq(|g| + 1, n requires 0 <= n => Node(g, id, n));
    if forall i, j :: 0 <= i < j < |nodes| ==> nodes[i] != nodes[j] {
      DistinctCount(nodes, |g|);
    } else {
      var a, b :| 0 <= a < b < |nodes| && nodes[a] == nodes[b];
      forall n: nat
        ensures !Stops(g, Node(g, id, n))
      {
        RoundForever(g, id, a, b, n);
      }
    }
  }

  /** Types that the walk passes, of which each leads to another one. */
  ghost predicate IsPassedLoop(g: seq<Type>, loop: set<nat>)
    requires ValidGraph(g)
  {
    forall u :: u in loop ==> u < |g| && !Stops(g, u) && Next(g, u) in loop
  }

  /** The type is in no such cycle, nor does it lead into one. */
  ghost predicate Walkable(g: seq<Type>, id: nat)
    requires ValidGraph(g)
  {
    forall loop :: IsPassedLoop(g, loop) ==> id !in loop
  }

  lemma {:induction false} StaysInLoop(g: seq<Type>, loop: set<nat>, id: nat, n: nat)
    requires ValidGraph(g) && id < |g| && IsPassedLoop(g, loop) && id in loop
    ensures Node(g, id, n) in loop
  {
    hide Stops, Next;
    if n > 0 {
      StaysInLoop(g, loop, id, n - 1);
    }
  }

  lemma {:induction false} OneStepOn(g: seq<Type>, id: nat, n: nat)
    requires ValidGraph(g) && id < |g| && !Stops(g, id)
    ensures Node(g, Next(g, id), n) == Node(g, id, n + 1)
  {
    hide Stops, Next;
    if n > 0 {
      OneStepOn(g, id, n - 1);
    }
  }

  /** A walk goes on forever exactly if it starts among types that lead to each other. */
  lemma NeverStopsExactly(g: seq<Type>, id: nat)
    requires ValidGraph(g) && id < |g|
    ensures NeverStops(g, id) <==> !Walkable(g, id)
  {
    hide Stops, Next, Node;
    if NeverStops(g, id) {
      var loop := set u: nat | u < |g| && NeverStops(g, u);
      forall u | u in loop
        ensures u < |g| && !Stops(g, u) && Next(g, u) in loop
      {
        NeverStopsNext(g, u);
      }
      assert IsPassedLoop(g, loop);
    }
    if !Walkable(g, id) {
      var loop :| IsPassedLoop(g, loop) && id in loop;
      forall n: nat
        ensures !Stops(g, Node(g, id, n))
      {
        StaysInLoop(g, loop, id, n);
      }
    }
  }

  lemma NeverStopsNext(g: seq<Type>, u: nat)
    requires ValidGraph(g) && u < |g| && NeverStops(g, u)
    ensures !Stops(g, u) && NeverStops(g, Next(g, u))
  {
    hide Stops, Next;
    assert Node(g, u, 0) == u;
    forall n: nat
      ensures !Stops(g, Node(g, Next(g, u), n))
    {
      OneStepOn(g, u, n);
    }
  }

  /** A struct whose member is a typedef of itself. */
  function SelfTypedef(): seq<Type> {
    [VOID, StructOf(1, [2]), TypedefOf(2, 2)]
  }

  lemma SelfTypedefParts()
    ensures var g := SelfTypedef(); ValidGraph(g) && Refs(g[1]) == [2] && Refs(g[2]) == [2]
  {
    hide Refs, Members;
    VoidRefs();
    StructOfRefs(1, [2]);
    ReferenceRefs(2, 2);
  }

  /** Marking does not end on it. */
  lemma SelfTypedefNeverMarked()
    ensures ValidGraph(SelfTypedef()) && !WalksEnd(SelfTypedef(), 1, 3)
  {
    hide Refs;
    var g := SelfTypedef();
    SelfTypedefParts();
    assert IsPassedLoop(g, {2});
    assert IsComposite(g[1]) && !Walkable(g, Refs(g[1])[0]);
  }

  // ----- marking -----

  /** Some reference of a struct or union from `from` up to `to` leads to `d`. */
  ghost predicate LedTo(g: seq<Type>, from: nat, to: nat, d: nat)
    requires ValidGraph(g) && to <= |g|
  {
    exists i :: from <= i < to && IsComposite(g[i]) && LedToBy(g, Refs(g[i]), d)
  }

  ghost predicate LedToBy(g: seq<Type>, rs: seq<nat>, d: nat)
    requires ValidGraph(g) && InRange(rs, |g|)
  {
    exists j :: 0 <= j < |rs| && ReachedFrom(g, rs[j], d)
  }

  /** The distilled struct or union `d` is a member, by value, of some own type. */
  ghost predicate Embedded(g: seq<Type>, nrDist: nat, d: nat)
    requires ValidGraph(g)
  {
    d < nrDist < |g| && 0 < d && IsComposite(g[d]) && LedTo(g, nrDist, |g|, d)
  }

  /** No member of the structs and unions from `from` up to `to` is in a cycle of types that the walk passes, or
      leads into one. */
  ghost predicate WalksEnd(g: seq<Type>, from: nat, to: nat)
    requires ValidGraph(g) && to <= |g|
  {
    forall i, j :: from <= i < to && IsComposite(g[i]) && 0 <= j < |Refs(g[i])| ==> Walkable(g, Refs(g[i])[j])
  }

  /** The map after marking what `hit` holds of. */
  ghost predicate Marked(m: seq<nat>, m': seq<nat>, g: seq<Type>, nrDist: nat, from: nat, to: nat, rs: seq<nat>)
    requires ValidGraph(g) && to <= |g| && InRange(rs, |g|) && nrDist <= |g|
  {
    |m'| == |m| && forall d :: 0 <= d < |m| ==>
      m'[d] ==
      if 0 < d < nrDist && IsComposite(g[d]) && (LedTo(g, from, to, d) || LedToBy(g, rs, d)) then IS_EMBEDDED
      else m[d]
  }

  lemma StopsSomewhere(g: seq<Type>, id: nat, n: nat)
    requires ValidGraph(g) && id < |g| && Stops(g, Node(g, id, n))
    ensures Walkable(g, id)
  {
    hide Walkable, Stops, Node;
    NeverStopsExactly(g, id);
  }

  /** Walk from one member, and mark the distilled struct or union at the end. */
  method MarkFrom(g: seq<Type>, nrDist: nat, m: seq<nat>, id: nat) returns (r: Status, m': seq<nat>)
    requires ValidGraph(g) && id < |g| == |m| && nrDist <= |g|
    ensures r == Done <==> Walkable(g, id)
    ensures |m'| == |m|
    ensures r == Done ==> forall d :: 0 <= d < |m| ==>
      m'[d] == if 0 < d < nrDist && IsComposite(g[d]) && ReachedFrom(g, id, d) then IS_EMBEDDED else m[d]
  {
    hide Next, Walkable, NeverStops, Stops, Node, ReachedFrom;
    m' := m;
    var next := id;
    var n := 0;
    NodeSteps(g, id, 0);
    while !Stops(g, next) && n <= |g|
      invariant next < |g| && n <= |g| + 1 && next == Node(g, id, n)
      invariant forall i :: 0 <= i < n ==> !Stops(g, Node(g, id, i))
      decreases |g| + 1 - n
    {
      NodeSteps(g, id, n);
      next := Next(g, next);
      n := n + 1;
    }
    if !Stops(g, next) {
      LongWalkNeverStops(g, id);
      NeverStopsExactly(g, id);
      return Fail(Endless), m;
    }
    StopsSomewhere(g, id, n);
    forall d: nat
      ensures ReachedFrom(g, id, d) <==> d == next
    {
      OneEnd(g, id, n, d);
    }
    if next != 0 && IsComposite(g[next]) && next < nrDist {
      m' := m[next := IS_EMBEDDED];
    }
    r := Done;
  }

  lemma NodeSteps(g: seq<Type>, id: nat, n: nat)
    requires ValidGraph(g) && id < |g|
    ensures Node(g, id, 0) == id
    ensures var p := Node(g, id, n); Node(g, id, n + 1) == if Stops(g, p) then p else Next(g, p)
  {
    hide Stops, Next;
  }

  lemma OneEnd(g: seq<Type>, id: nat, n: nat, d: nat)
    requires ValidGraph(g) && id < |g| && Stops(g, Node(g, id, n))
    ensures ReachedFrom(g, id, d) <==> d == Node(g, id, n)
  {
    hide Stops, Node;
    if ReachedFrom(g, id, d) {
      var k: nat :| Node(g, id, k) == d && Stops(g, d);
      StaysStopped(g, id, if k < n then k else n, if k < n then n else k);
    }
  }

  lemma MarkedMore(m: seq<nat>, m1: seq<nat>, m2: seq<nat>, g: seq<Type>, nrDist: nat, from: nat, to: nat,
                   rs: seq<nat>, id: nat)
    requires ValidGraph(g) && to <= |g| == |m| && InRange(rs, |g|) && nrDist <= |g| && id < |g|
    requires Marked(m, m1, g, nrDist, from, to, rs) && |m2| == |m1|
    requires forall d :: 0 <= d < |m| ==>
      m2[d] == if 0 < d < nrDist && IsComposite(g[d]) && ReachedFrom(g, id, d) then IS_EMBEDDED else m1[d]
    ensures Marked(m, m2, g, nrDist, from, to, rs + [id])
  {
    hide ReachedFrom, LedTo, Refs;
    forall d | 0 <= d < |m|
      ensures LedToBy(g, rs + [id], d) <==> LedToBy(g, rs, d) || ReachedFrom(g, id, d)
    {
      if LedToBy(g, rs, d) {
        var j :| 0 <= j < |rs| && ReachedFrom(g, rs[j], d);
        assert (rs + [id])[j] == rs[j];
      }
      if ReachedFrom(g, id, d) {
        assert (rs + [id])[|rs|] == id;
      }
    }
  }

  /** Mark what the members of one struct or union are made of. */
  method MarkType(g: seq<Type>, nrDist: nat, m: seq<nat>, i: nat, ghost m0: seq<nat>) returns (r: Status, m': seq<nat>)
    requires ValidGraph(g) && nrDist <= i < |g| == |m| == |m0| && Marked(m0, m, g, nrDist, nrDist, i, [])
    ensures r == Done <==> WalksEnd(g, i, i + 1)
    ensures r == Done ==> |m'| == |m| && Marked(m0, m', g, nrDist, nrDist, i + 1, [])
  {
    hide Refs, Walkable, ReachedFrom, LedTo, LedToBy;
    m' := m;
    if !IsComposite(g[i]) {
      MarkedNext(m0, m, g, nrDist, i);
      return Done, m;
    }
    var ids := ReadIds(g[i]);
    var rs := ids.value;
    var j := 0;
    while j < |rs|
      invariant 0 <= j <= |rs| && Marked(m0, m', g, nrDist, nrDist, i, rs[..j])
      invariant forall x :: 0 <= x < j ==> Walkable(g, rs[x])
    {
      ghost var was := m';
      r, m' := MarkFrom(g, nrDist, m', rs[j]);
      if r != Done {
        return;
      }
      MarkedMore(m0, was, m', g, nrDist, nrDist, i, rs[..j], rs[j]);
      assert rs[..j] + [rs[j]] == rs[..j + 1];
      j := j + 1;
    }
    assert rs[..j] == rs;
    MarkedNext(m0, m', g, nrDist, i);
    r := Done;
  }

  lemma MarkedNext(m0: seq<nat>, m: seq<nat>, g: seq<Type>, nrDist: nat, i: nat)
    requires ValidGraph(g) && nrDist <= i < |g| == |m| == |m0|
    requires Marked(m0, m, g, nrDist, nrDist, i, if IsComposite(g[i]) then Refs(g[i]) else [])
    ensures Marked(m0, m, g, nrDist, nrDist, i + 1, [])
  {
    hide Refs, LedToBy;
    forall d | 0 <= d < |m|
      ensures LedTo(g, nrDist, i + 1, d) <==> LedTo(g, nrDist, i, d) || (IsComposite(g[i]) && LedToBy(g, Refs(g[i]), d))
    {
    }
    assert forall d :: !LedToBy(g, [], d) by {
      NoneLed(g);
    }
  }

  lemma NoneLed(g: seq<Type>)
    requires ValidGraph(g)
    ensures forall d :: !LedToBy(g, [], d)
  {
  }

  /** Mark all distilled structs and unions that own types embed. */
  method MarkEmbedded(g: seq<Type>, nrDist: nat, m: seq<nat>) returns (r: Status, m': seq<nat>)
    requires ValidGraph(g) && 0 < nrDist <= |g| == |m|
    ensures r == Done <==> WalksEnd(g, nrDist, |g|)
    ensures r == Done ==> |m'| == |m| && forall d :: 0 <= d < |m| ==>
      m'[d] == if Embedded(g, nrDist, d) then IS_EMBEDDED else m[d]
  {
    hide Refs, ReachedFrom, LedToBy, Walkable;
    m' := m;
    NoneLed(g);
    var i := nrDist;
    while i < |g|
      invariant nrDist <= i <= |g| && Marked(m, m', g, nrDist, nrDist, i, []) && WalksEnd(g, nrDist, i)
    {
      r, m' := MarkType(g, nrDist, m', i, m);
      if r != Done {
        return;
      }
      i := i + 1;
    }
    r := Done;
  }
}
