/** The order in which type definitions are written out as C: a struct or union comes after everything that
    it contains by value. */
module DumpOrder {
  import opened BtfTypes
  import opened Meaning
  import opened GraphMatch
  import opened Sets

  datatype OrderState = NotOrdered | Ordering | Ordered

  datatype Link = Strong | Weak | Stop(error: Errno)

  // ----- containment by value -----

  predicate Named(t: Type) {
    IsComposite(t) && t.name != 0
  }

  predicate IsModifier(k: Kind) {
    k.Volatile? || k.Const? || k.Restrict? || k.TypeTag?
  }

  /** From a type, reached through a pointer or not, to a type that its definition needs. A pointer needs
      what it points to only as far as that has to be written inline. */
  ghost predicate Step(g: seq<Type>, u: nat, ptr: bool, v: nat, ptr': bool)
    requires ValidGraph(g) && u < |g|
  {
    var t := g[u];
    if t.kind.Ptr? then v == t.st && ptr'
    else if t.kind.Array? then v == t.extra[0] && !ptr'
    else if IsModifier(t.kind) || t.kind.Typedef? then v == t.st && ptr' == ptr
    else IsComposite(t) && !Named(t) && v in Refs(t) && !ptr'
  }

  datatype Place = Place(id: nat, ptr: bool)

  ghost predicate Walk(g: seq<Type>, w: seq<Place>)
    requires ValidGraph(g)
  {
    && |w| > 0 && (forall i :: 0 <= i < |w| ==> w[i].id < |g|)
    && (forall i :: 0 < i < |w| ==> Step(g, w[i - 1].id, w[i - 1].ptr, w[i].id, w[i].ptr))
  }

  /** A member of `x` leads to the named struct or union `y`, not through a pointer to it. */
  ghost predicate Contains(g: seq<Type>, x: nat, y: nat)
    requires ValidGraph(g) && x < |g|
  {
    IsComposite(g[x]) && y < |g| && Named(g[y]) &&
    exists w: seq<Place> :: Walk(g, w) && w[0].id in Refs(g[x]) && !w[0].ptr && w[|w| - 1] == Place(y, false)
  }

  // ----- what has been ordered -----

  /** Places that need nothing more: closed under steps, and every named struct or union that is needed is
      ordered. */
  ghost predicate ClosedDone(g: seq<Type>, order: seq<OrderState>, done: set<Place>)
    requires ValidGraph(g) && |order| == |g|
  {
    forall p :: p in done ==> p.id < |g| && DoneAt(g, order, done, p)
  }

  ghost predicate DoneAt(g: seq<Type>, order: seq<OrderState>, done: set<Place>, p: Place)
    requires ValidGraph(g) && |order| == |g| && p.id < |g|
  {
    && (Named(g[p.id]) && !p.ptr ==> order[p.id] == Ordered)
    && (forall v, ptr' :: Step(g, p.id, p.ptr, v, ptr') ==> Place(v, ptr') in done)
  }

  /** Ordered types need nothing more, whichever way they are reached; the members of a struct or union
      neither. */
  ghost predicate OrderedDone(g: seq<Type>, order: seq<OrderState>, done: set<Place>)
    requires ValidGraph(g) && |order| == |g|
  {
    forall u :: 0 <= u < |g| && order[u] == Ordered ==>
      && Place(u, false) in done && Place(u, true) in done
      && (IsComposite(g[u]) ==> MembersDone(g, done, Refs(g[u])))
  }

  ghost predicate MembersDone(g: seq<Type>, done: set<Place>, rs: seq<nat>) {
    forall j :: 0 <= j < |rs| ==> Place(rs[j], false) in done
  }

  lemma {:induction false} WalkDone(g: seq<Type>, order: seq<OrderState>, done: set<Place>, w: seq<Place>, n: nat)
    requires ValidGraph(g) && |order| == |g| && ClosedDone(g, order, done) && Walk(g, w) && n < |w| && w[0] in done
    ensures w[n] in done
    decreases n
  {
    hide Step;
    if n > 0 {
      WalkDone(g, order, done, w, n - 1);
      assert DoneAt(g, order, done, w[n - 1]);
      assert Step(g, w[n - 1].id, w[n - 1].ptr, w[n].id, w[n].ptr);
      assert w[n] == Place(w[n].id, w[n].ptr);
    }
  }

  /** Whatever a struct or union contains is ordered once its members need nothing more. */
  lemma ContainedOrdered(g: seq<Type>, order: seq<OrderState>, done: set<Place>, x: nat, y: nat)
    requires ValidGraph(g) && |order| == |g| && ClosedDone(g, order, done) && x < |g| &&
      MembersDone(g, done, Refs(g[x]))
    requires Contains(g, x, y)
    ensures order[y] == Ordered
  {
    hide Step, Refs;
    var w: seq<Place> :| Walk(g, w) && w[0].id in Refs(g[x]) && !w[0].ptr && w[|w| - 1] == Place(y, false);
    var j :| 0 <= j < |Refs(g[x])| && Refs(g[x])[j] == w[0].id;
    assert w[0] == Place(w[0].id, false);
    WalkDone(g, order, done, w, |w| - 1);
    assert DoneAt(g, order, done, Place(y, false));
  }

  // ----- the queue -----

  predicate IsDefinition(t: Type) {
    IsComposite(t) || t.kind.Enum? || t.kind.Enum64? || t.kind.Fwd?
  }

  /** Everything queued so far: what is contained comes first, structs, unions, enums and forward declarations
      come once, and the named structs and unions are those that are ordered. */
  ghost predicate Queued(g: seq<Type>, order: seq<OrderState>, all: seq<nat>)
    requires ValidGraph(g) && |order| == |g|
  {
    && InRange(all, |g|)
    && (forall p :: 0 <= p < |all| && IsDefinition(g[all[p]]) ==> order[all[p]] == Ordered)
    && (forall u :: 0 <= u < |g| && Named(g[u]) && order[u] == Ordered ==> u in all)
    && (forall p, q :: 0 <= p < q < |all| && IsDefinition(g[all[p]]) ==> all[p] != all[q])
    && (forall p, y :: 0 <= p < |all| && Contains(g, all[p], y) ==> y in all[..p])
  }

  lemma QueueMore(g: seq<Type>, order: seq<OrderState>, all: seq<nat>, id: nat)
    requires ValidGraph(g) && |order| == |g| && id < |g| && Queued(g, order, all)
    requires IsDefinition(g[id]) ==> order[id] != Ordered
    requires forall y: nat :: Contains(g, id, y) ==> order[y] == Ordered
    ensures Queued(g, order[id := Ordered], all + [id])
  {
    hide Contains, Refs;
    var all' := all + [id];
    assert forall p :: 0 <= p < |all| ==> all'[p] == all[p];
    assert all'[|all|] == id;
    forall p, y | 0 <= p < |all'| && Contains(g, all'[p], y)
      ensures y in all'[..p]
    {
      ContainedNamed(g, all'[p], y);
      assert all'[..p] == all[..p];
      assert p == |all| ==> all[..p] == all;
    }
  }

  lemma ContainedNamed(g: seq<Type>, x: nat, y: nat)
    requires ValidGraph(g) && x < |g| && Contains(g, x, y)
    ensures y < |g| && Named(g[y])
  {
  }

  /** A type that is not queued becomes ordered. */
  lemma NotQueued(g: seq<Type>, order: seq<OrderState>, all: seq<nat>, id: nat)
    requires ValidGraph(g) && |order| == |g| && id < |g| && Queued(g, order, all) && !Named(g[id])
    ensures Queued(g, order[id := Ordered], all)
  {
    hide Contains, Refs;
  }

  // ----- termination -----

  /** The types that ordering goes on to from a type other than a struct or union. */
  function Follows(t: Type): (rs: seq<nat>)
    requires WellFormed(t)
  {
    if t.kind.Array? then [t.extra[0]]
    else if t.kind.Ptr? || t.kind.Typedef? || IsModifier(t.kind) then [t.st]
    else if t.kind.FuncProto? then Refs(t)
    else []
  }

  /** Every cycle of the graph passes through a struct or union: ranks fall along all other references. */
  ghost predicate RankedBare(g: seq<Type>, rank: seq<nat>)
    requires ValidGraph(g)
  {
    |rank| == |g| && forall u, j :: 0 <= u < |g| && 0 <= j < |Follows(g[u])| ==>
      var v := Follows(g[u])[j]; v < |g| && (IsComposite(g[v]) || rank[v] < rank[u])
  }

  /** Types, none of them a struct or union, of which each leads to another one. */
  ghost predicate IsBareLoop(g: seq<Type>, loop: set<nat>)
    requires ValidGraph(g)
  {
    forall u :: u in loop ==> u < |g| && !IsComposite(g[u]) && LeadsTo(Follows(g[u]), loop)
  }

  ghost predicate LeadsTo(rs: seq<nat>, to: set<nat>) {
    exists j :: 0 <= j < |rs| && rs[j] in to
  }

  /** Nothing of such a cycle has been ordered. */
  ghost predicate Spared(g: seq<Type>, order: seq<OrderState>, loop: set<nat>)
    requires ValidGraph(g) && |order| == |g|
  {
    IsBareLoop(g, loop) && forall u :: u in loop ==> order[u] == NotOrdered
  }

  lemma SparedParts(g: seq<Type>, order: seq<OrderState>, loop: set<nat>, id: nat)
    requires ValidGraph(g) && |order| == |g| && id < |g|
    ensures Spared(g, order, loop) && id in loop ==>
      order[id] == NotOrdered && !IsComposite(g[id]) && LeadsTo(Follows(g[id]), loop)
    ensures Spared(g, order, loop) && id !in loop ==>
      Spared(g, order[id := Ordering], loop) && Spared(g, order[id := Ordered], loop)
  {
    hide Follows, LeadsTo;
  }

  /** A type that leads nowhere is not in a cycle. */
  lemma SparedLeaf(g: seq<Type>, order: seq<OrderState>, loop: set<nat>, id: nat)
    requires ValidGraph(g) && |order| == |g| && id < |g|
    ensures var k := g[id].kind;
      Spared(g, order, loop) && id in loop ==> k.Array? || k.Ptr? || k.Typedef? || IsModifier(k) || k.FuncProto?
  {
    hide Refs;
  }

  /** Each leads to one other type only. */
  ghost predicate Straight(g: seq<Type>, loop: set<nat>)
    requires ValidGraph(g)
  {
    forall u :: u in loop && u < |g| ==> |Follows(g[u])| == 1
  }

  // ----- ranks exist exactly if there is no such cycle -----

  /** There are `n` more steps from a type without entering a struct or union. */
  ghost predicate GoesOn(g: seq<Type>, u: nat, n: nat)
    requires ValidGraph(g)
    decreases n
  {
    u < |g| && !IsComposite(g[u]) && (n == 0 ||
      exists j :: 0 <= j < |Follows(g[u])| && GoesOn(g, Follows(g[u])[j], n - 1))
  }

  lemma {:induction false} GoesLess(g: seq<Type>, u: nat, n: nat)
    requires ValidGraph(g) && n > 0 && GoesOn(g, u, n)
    ensures GoesOn(g, u, n - 1)
    decreases n
  {
    hide Follows;
    if n > 1 {
      var j :| 0 <= j < |Follows(g[u])| && GoesOn(g, Follows(g[u])[j], n - 1);
      GoesLess(g, Follows(g[u])[j], n - 1);
    }
  }

  ghost function Going(g: seq<Type>, n: nat): set<nat>
    requires ValidGraph(g)
  {
    set u: nat | u < |g| && GoesOn(g, u, n)
  }

  /** Types from which the number of steps makes no difference lead to each other. */
  lemma GoingForever(g: seq<Type>, n: nat)
    requires ValidGraph(g) && Going(g, n) == Going(g, n + 1)
    ensures IsBareLoop(g, Going(g, n))
  {
    hide Follows;
    forall u | u in Going(g, n)
      ensures u < |g| && !IsComposite(g[u]) && LeadsTo(Follows(g[u]), Going(g, n))
    {
      assert u in Going(g, n + 1);
      var j :| 0 <= j < |Follows(g[u])| && GoesOn(g, Follows(g[u])[j], n);
      assert Follows(g[u])[j] in Going(g, n);
    }
  }

  /** With each step there are fewer types from which it can be made, or there is such a cycle. */
  lemma {:induction false} FewerGoOn(g: seq<Type>, n: nat)
    requires ValidGraph(g)
    ensures (exists k: nat :: Going(g, k) == Going(g, k + 1)) || |Going(g, n)| + n <= |g|
  {
    hide GoesOn;
    if n == 0 {
      Counted(Going(g, 0), |g|);
    } else {
      FewerGoOn(g, n - 1);
      var a, b := Going(g, n), Going(g, n - 1);
      forall u | u in a
        ensures u in b
      {
        GoesLess(g, u, n);
      }
      if a != b {
        var u :| u in b && u !in a;
        SubsetSize(a, b - {u});
      }
    }
  }

  /** The first number of steps that cannot be made. */
  ghost function Limit(g: seq<Type>, u: nat, n: nat): nat
    requires ValidGraph(g)
  {
    if n > 0 && !GoesOn(g, u, n - 1) then Limit(g, u, n - 1) else n
  }

  lemma {:induction false} LimitIs(g: seq<Type>, u: nat, n: nat)
    requires ValidGraph(g) && !GoesOn(g, u, n)
    ensures var r := Limit(g, u, n); !GoesOn(g, u, r) && (r > 0 ==> GoesOn(g, u, r - 1))
  {
    hide GoesOn;
    if n > 0 && !GoesOn(g, u, n - 1) {
      LimitIs(g, u, n - 1);
    }
  }

  lemma FollowsInRange(g: seq<Type>, u: nat)
    requires ValidGraph(g) && u < |g|
    ensures InRange(Follows(g[u]), |g|)
  {
    var t := g[u];
    assert t.kind.Ptr? || t.kind.Typedef? || IsModifier(t.kind) || t.kind.Array? ==> Follows(t)[0] == Refs(t)[0];
  }

  lemma LimitFalls(g: seq<Type>, u: nat, v: nat, n: nat)
    requires ValidGraph(g) && u < |g| && v in Follows(g[u]) && !GoesOn(g, u, n) && !GoesOn(g, v, n)
    ensures v < |g| && (IsComposite(g[u]) || IsComposite(g[v]) || Limit(g, v, n) < Limit(g, u, n))
  {
    hide Follows, GoesOn, Limit;
    FollowsInRange(g, u);
    var a, b := Limit(g, u, n), Limit(g, v, n);
    LimitIs(g, u, n);
    LimitIs(g, v, n);
    if !IsComposite(g[u]) && !IsComposite(g[v]) {
      NoSteps(g, u);
      NoSteps(g, v);
      if a <= b {
        GoesDown(g, v, b - 1, a - 1);
        GoesBefore(g, u, v, a - 1);
      }
    }
  }

  lemma NoSteps(g: seq<Type>, u: nat)
    requires ValidGraph(g) && u < |g| && !IsComposite(g[u])
    ensures GoesOn(g, u, 0)
  {
  }

  lemma GoesBefore(g: seq<Type>, u: nat, v: nat, n: nat)
    requires ValidGraph(g) && u < |g| && !IsComposite(g[u]) && v in Follows(g[u]) && GoesOn(g, v, n)
    ensures GoesOn(g, u, n + 1)
  {
    hide Follows;
  }

  lemma {:induction false} GoesDown(g: seq<Type>, u: nat, n: nat, m: nat)
    requires ValidGraph(g) && m <= n && GoesOn(g, u, n)
    ensures GoesOn(g, u, m)
    decreases n
  {
    hide GoesOn;
    if m < n {
      GoesLess(g, u, n);
      GoesDown(g, u, n - 1, m);
    }
  }

  /** Every cycle passes through a struct or union exactly if ranks can be given. */
  lemma RankedExactly(g: seq<Type>)
    requires ValidGraph(g)
    ensures (exists rank :: RankedBare(g, rank)) <==> (forall loop :: IsBareLoop(g, loop) ==> loop == {})
  {
    hide IsBareLoop, GoesOn, RankedBare;
    if rank :| RankedBare(g, rank) {
      forall loop | IsBareLoop(g, loop)
        ensures loop == {}
      {
        if u :| u in loop {
          LoopInRange(g, loop, u);
          OutsideLoops(g, rank, loop, u);
        }
      }
    }
    if forall loop :: IsBareLoop(g, loop) ==> loop == {} {
      FewerGoOn(g, |g| + 1);
      var n: nat :| Going(g, n) == Going(g, n + 1);
      GoingForever(g, n);
      RankByLimit(g, n);
    }
  }

  lemma RankByLimit(g: seq<Type>, n: nat)
    requires ValidGraph(g) && Going(g, n) == {}
    ensures exists rank :: RankedBare(g, rank)
  {
    hide Follows, GoesOn;
    assert forall u: nat :: u < |g| && GoesOn(g, u, n) ==> u in Going(g, n);
    var rank := seq(|g|, u requires 0 <= u < |g| => Limit(g, u, n));
    forall u, j | 0 <= u < |g| && 0 <= j < |Follows(g[u])|
      ensures var v := Follows(g[u])[j]; v < |g| && (IsComposite(g[v]) || rank[v] < rank[u])
    {
      NotComposite(g[u], j);
      FollowsInRange(g, u);
      LimitFalls(g, u, Follows(g[u])[j], n);
    }
    assert RankedBare(g, rank);
  }

  lemma NotComposite(t: Type, j: nat)
    requires WellFormed(t) && j < |Follows(t)|
    ensures !IsComposite(t)
  {
  }

  lemma LoopInRange(g: seq<Type>, loop: set<nat>, u: nat)
    requires ValidGraph(g) && IsBareLoop(g, loop) && u in loop
    ensures u < |g|
  {
  }

  lemma {:induction false} OutsideLoops(g: seq<Type>, rank: seq<nat>, loop: set<nat>, u: nat)
    requires ValidGraph(g) && RankedBare(g, rank) && IsBareLoop(g, loop) && u < |g|
    ensures u !in loop
    decreases rank[u]
  {
    hide Follows;
    if u in loop {
      var j :| 0 <= j < |Follows(g[u])| && Follows(g[u])[j] in loop;
      OutsideLoops(g, rank, loop, Follows(g[u])[j]);
    }
  }

  /** Structs and unions that have not been entered. */
  ghost function Fresh(g: seq<Type>, order: seq<OrderState>): set<nat>
    requires |order| == |g|
  {
    set u | 0 <= u < |g| && IsComposite(g[u]) && order[u] == NotOrdered
  }

  /** Nesting that suffices, with ranks up to `top`. */
  ghost function Depth(g: seq<Type>, order: seq<OrderState>, rank: seq<nat>, top: nat, id: nat): nat
    requires |order| == |g| == |rank| && id < |g|
  {
    |Fresh(g, order)| * (top + 2) + 1 + (if IsComposite(g[id]) then 0 else rank[id] + 1)
  }

  ghost predicate Progress(order: seq<OrderState>, order': seq<OrderState>) {
    |order'| == |order| && forall u :: 0 <= u < |order| ==>
      && (order[u] != NotOrdered ==> order'[u] != NotOrdered)
      && (order[u] == Ordered ==> order'[u] == Ordered)
      && (order[u] == Ordering ==> order'[u] == Ordering)
  }

  /** With the bounds of `rank` and `top`, `budget` levels of nesting are enough. */
  ghost predicate Enough(g: seq<Type>, order: seq<OrderState>, rank: seq<nat>, top: nat, id: nat, budget: nat)
    requires ValidGraph(g) && |order| == |g| && id < |g|
  {
    RankedBare(g, rank) && (forall u :: 0 <= u < |g| ==> rank[u] <= top) && Depth(g, order, rank, top, id) <= budget
  }

  lemma FreshShrinks(g: seq<Type>, order: seq<OrderState>, order': seq<OrderState>)
    requires |order| == |g| && Progress(order, order')
    ensures |Fresh(g, order')| <= |Fresh(g, order)|
  {
    var a, b := Fresh(g, order'), Fresh(g, order);
    assert a <= b;
    SubsetSize(a, b);
  }

  lemma EnoughLater(g: seq<Type>, order: seq<OrderState>, order': seq<OrderState>, rank: seq<nat>, top: nat, id: nat,
                    budget: nat)
    requires ValidGraph(g) && |order| == |g| && id < |g| && Progress(order, order') &&
      Enough(g, order, rank, top, id, budget)
    ensures Enough(g, order', rank, top, id, budget)
  {
    hide Refs, RankedBare;
    FreshShrinks(g, order, order');
    Times(|Fresh(g, order')|, |Fresh(g, order)|, top + 2);
  }

  lemma Times(a: nat, b: nat, k: nat)
    requires a <= b
    ensures a * k <= b * k
  {
  }

  lemma EnoughBelow(g: seq<Type>, order: seq<OrderState>, rank: seq<nat>, top: nat, id: nat, budget: nat, j: nat)
    requires ValidGraph(g) && |order| == |g| && id < |g| && Enough(g, order, rank, top, id, budget)
    requires !IsComposite(g[id]) && j < |Follows(g[id])|
    ensures budget > 1 && Follows(g[id])[j] < |g| && Enough(g, order, rank, top, Follows(g[id])[j], budget - 1)
  {
    hide Refs;
  }

  lemma EnoughInside(g: seq<Type>, order: seq<OrderState>, rank: seq<nat>, top: nat, id: nat, budget: nat, m: nat)
    requires ValidGraph(g) && |order| == |g| && id < |g| && Enough(g, order, rank, top, id, budget)
    requires IsComposite(g[id]) && order[id] == NotOrdered && m < |g|
    ensures budget > 1 && Enough(g, order[id := Ordering], rank, top, m, budget - 1)
  {
    hide Refs, RankedBare;
    var order' := order[id := Ordering];
    assert Fresh(g, order') == Fresh(g, order) - {id};
    var n := |Fresh(g, order)|;
    assert |Fresh(g, order')| == n - 1;
    assert (n - 1) * (top + 2) == n * (top + 2) - (top + 2);
  }

  // ----- the state -----

  /** Whoever needs nothing more needs nothing more through a pointer either. */
  ghost predicate Weakened(done: set<Place>) {
    forall u: nat :: Place(u, false) in done ==> Place(u, true) in done
  }

  /** What is known of a state, apart from the queue. */
  ghost predicate Consistent(g: seq<Type>, order: seq<OrderState>, done: set<Place>) {
    && ValidGraph(g) && |order| == |g|
    && ClosedDone(g, order, done) && OrderedDone(g, order, done) && Weakened(done)
    && (forall u :: 0 <= u < |g| && order[u] == Ordering ==> IsComposite(g[u]))
  }

  /** At first only void is ordered. */
  lemma Beginning(g: seq<Type>, order: seq<OrderState>, loop: set<nat>)
    requires ValidGraph(g) && |order| == |g| && IsBareLoop(g, loop)
    requires forall u :: 0 <= u < |g| ==> order[u] == if u == 0 then Ordered else NotOrdered
    ensures Consistent(g, order, {Place(0, false), Place(0, true)}) && Queued(g, order, []) && Spared(g, order, loop)
  {
    hide Refs, Contains, LeadsTo;
    VoidRefs();
    if 0 in loop {
      VoidLeadsNowhere(g, loop);
    }
  }

  lemma VoidLeadsNowhere(g: seq<Type>, loop: set<nat>)
    requires ValidGraph(g)
    ensures !LeadsTo(Follows(g[0]), loop)
  {
  }

  function Reached(id: nat, ptr: bool): set<Place> {
    if ptr then {Place(id, true)} else {Place(id, false), Place(id, true)}
  }

  /** One more place that needs nothing more. */
  lemma Reach(g: seq<Type>, order: seq<OrderState>, done: set<Place>, id: nat, ptr: bool)
    requires Consistent(g, order, done) && id < |g|
    requires Named(g[id]) && !ptr ==> order[id] == Ordered
    requires forall v, ptr' :: Step(g, id, ptr, v, ptr') ==> Place(v, ptr') in done
    ensures Consistent(g, order, done + Reached(id, ptr))
  {
    hide Refs;
    var done' := done + Reached(id, ptr);
    forall p | p in done'
      ensures p.id < |g| && DoneAt(g, order, done', p)
    {
      if p in done {
        assert DoneAt(g, order, done, p);
      } else {
        WeakStep(g, order, done, id, ptr);
      }
    }
  }

  lemma WeakStep(g: seq<Type>, order: seq<OrderState>, done: set<Place>, id: nat, ptr: bool)
    requires ValidGraph(g) && id < |g| && Weakened(done)
    requires forall v, ptr' :: Step(g, id, ptr, v, ptr') ==> Place(v, ptr') in done
    ensures forall v, ptr' :: Step(g, id, true, v, ptr') ==> Place(v, ptr') in done
  {
    hide Refs;
    forall v, ptr' | Step(g, id, true, v, ptr')
      ensures Place(v, ptr') in done
    {
      if IsModifier(g[id].kind) || g[id].kind.Typedef? {
        assert Step(g, id, ptr, v, ptr);
      } else {
        assert Step(g, id, ptr, v, ptr');
      }
    }
  }

  /** A type becomes ordered. */
  lemma Settle(g: seq<Type>, order: seq<OrderState>, done: set<Place>, id: nat)
    requires Consistent(g, order, done) && id < |g|
    requires forall v, ptr' :: Step(g, id, false, v, ptr') ==> Place(v, ptr') in done
    requires IsComposite(g[id]) ==> MembersDone(g, done, Refs(g[id]))
    ensures Consistent(g, order[id := Ordered], done + Reached(id, false))
  {
    hide Refs;
    var order' := order[id := Ordered];
    var done' := done + Reached(id, false);
    WeakStep(g, order, done, id, false);
    forall p | p in done'
      ensures p.id < |g| && DoneAt(g, order', done', p)
    {
      if p in done {
        assert DoneAt(g, order, done, p);
      }
    }
  }

  lemma Enter(g: seq<Type>, order: seq<OrderState>, done: set<Place>, id: nat)
    requires Consistent(g, order, done) && id < |g| && order[id] == NotOrdered && IsComposite(g[id])
    ensures Consistent(g, order[id := Ordering], done)
  {
    hide Refs, Step;
    forall p | p in done
      ensures p.id < |g| && DoneAt(g, order[id := Ordering], done, p)
    {
      assert DoneAt(g, order, done, p);
    }
  }

  lemma EnterQueue(g: seq<Type>, order: seq<OrderState>, all: seq<nat>, id: nat)
    requires ValidGraph(g) && |order| == |g| && id < |g| && order[id] == NotOrdered && Queued(g, order, all)
    ensures Queued(g, order[id := Ordering], all)
  {
    hide Refs, Contains;
  }

  ghost predicate EnoughAll(g: seq<Type>, order: seq<OrderState>, rank: seq<nat>, top: nat, budget: nat)
    requires ValidGraph(g) && |order| == |g|
  {
    forall m :: 0 <= m < |g| ==> Enough(g, order, rank, top, m, budget)
  }

  ghost predicate EnoughNext(g: seq<Type>, order: seq<OrderState>, rank: seq<nat>, top: nat, id: nat, budget: nat)
    requires ValidGraph(g) && |order| == |g| && id < |g|
  {
    var rs := Follows(g[id]);
    forall j :: 0 <= j < |rs| ==> rs[j] < |g| && Enough(g, order, rank, top, rs[j], budget)
  }

  /** What is enough for a type is, one level down, enough for what follows. */
  lemma EnoughOneDown(g: seq<Type>, order: seq<OrderState>, rank: seq<nat>, top: nat, id: nat, budget: nat)
    requires ValidGraph(g) && |order| == |g| && id < |g| && Enough(g, order, rank, top, id, budget)
    ensures budget > 0
    ensures IsComposite(g[id]) && order[id] == NotOrdered ==> EnoughAll(g, order[id := Ordering], rank, top, budget - 1)
    ensures !IsComposite(g[id]) ==> EnoughNext(g, order, rank, top, id, budget - 1)
  {
    hide Refs, Follows, RankedBare, Enough;
    assert budget > 0 by {
      EnoughPositive(g, order, rank, top, id, budget);
    }
    if IsComposite(g[id]) && order[id] == NotOrdered {
      var order', less := order[id := Ordering], budget - 1;
      forall m | 0 <= m < |g|
        ensures Enough(g, order', rank, top, m, less)
      {
        EnoughInside(g, order, rank, top, id, budget, m);
      }
    }
    if !IsComposite(g[id]) {
      var rs := Follows(g[id]);
      forall j | 0 <= j < |rs|
        ensures rs[j] < |g| && Enough(g, order, rank, top, rs[j], budget - 1)
      {
        EnoughBelow(g, order, rank, top, id, budget, j);
      }
    }
  }

  lemma EnoughPositive(g: seq<Type>, order: seq<OrderState>, rank: seq<nat>, top: nat, id: nat, budget: nat)
    requires ValidGraph(g) && |order| == |g| && id < |g| && Enough(g, order, rank, top, id, budget)
    ensures budget > 0
  {
    hide Refs, Follows;
    Times(0, |Fresh(g, order)|, top + 2);
  }
}
