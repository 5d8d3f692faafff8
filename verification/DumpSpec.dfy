/** What ordering one type does, as a function of the state it starts from, and when it ends. */
module DumpSpec {
  import opened BtfTypes
  import opened Meaning
  import opened GraphMatch
  import opened IdenticalTypes
  import opened Sets
  import opened DumpOrder

  /** How the recursion comes back, the state it leaves, and what it has queued. */
  datatype Run = Run(link: Link, order: seq<OrderState>, queue: seq<nat>)

  function Onto(queue: seq<nat>, v: Run): Run {
    v.(queue := queue + v.queue)
  }

  /** Types that need no other. */
  predicate IsLeaf(t: Type) {
    !IsComposite(t) && !t.kind.Ptr? && !t.kind.Array? && !IsModifier(t.kind) && !t.kind.Typedef? && !t.kind.FuncProto?
  }

  /** What is ordered below a type, and whether that counts as behind a pointer. */
  function Below(t: Type): seq<nat>
    requires WellFormed(t)
  {
    if IsComposite(t) then Refs(t) else Follows(t)
  }

  predicate BelowPtr(t: Type, ptr: bool) {
    t.kind.Ptr? || (ptr && !t.kind.Array? && !IsComposite(t))
  }

  function Entered(t: Type, order: seq<OrderState>, id: nat): (order': seq<OrderState>)
    requires id < |order|
    ensures |order'| == |order|
  {
    if IsComposite(t) then order[id := Ordering] else order
  }

  /** Back from what is below: a pointer is marked whatever came of its target, a struct or union is queued if it
      has a name, and a typedef unless it names what a forward declaration can stand for. */
  function Left(t: Type, id: nat, ptr: bool, v: Run): (v': Run)
    requires id < |v.order|
    ensures |v'.order| == |v.order|
  {
    if t.kind.Ptr? then v.(order := v.order[id := Ordered])
    else if v.link.Stop? then v
    else if IsComposite(t) then Run(Strong, v.order[id := Ordered], v.queue + if t.name != 0 then [id] else [])
    else if t.kind.Typedef? && !(ptr && v.link.Weak?) then Run(Strong, v.order[id := Ordered], v.queue + [id])
    else v
  }

  function VisitLeaf(t: Type, refd: bool, order: seq<OrderState>, id: nat): (v: Run)
    requires id < |order|
    ensures |v.order| == |order|
  {
    match t.kind
    case Enum | Enum64 | Fwd => Run(Strong, order[id := Ordered], if t.name != 0 || !refd then [id] else [])
    case Int | Float | Func | Var | Datasec | DeclTag | LocParam | LocProto | Locsec =>
      Run(Weak, order[id := Ordered], [])
    case _ => Run(Stop(Inval), order, [])
  }

  /** Whether the answer is known without a look at what is below. */
  predicate AtOnce(t: Type, st: OrderState, ptr: bool, budget: nat) {
    st != NotOrdered || budget == 0 || IsLeaf(t) || (IsComposite(t) && ptr && t.name != 0)
  }

  function Answer(t: Type, refd: bool, order: seq<OrderState>, id: nat, ptr: bool, budget: nat): (v: Run)
    requires id < |order| && AtOnce(t, order[id], ptr, budget)
    ensures |v.order| == |order|
  {
    if order[id] == Ordered then Run(Strong, order, [])
    else if budget == 0 then Run(Stop(Endless), order, [])
    else if order[id] == Ordering then Run(if ptr && t.name != 0 then Weak else Stop(Loop), order, [])
    else if IsLeaf(t) then VisitLeaf(t, refd, order, id)
    else Run(Weak, order, [])
  }

  ghost function Visit(g: seq<Type>, refd: seq<bool>, order: seq<OrderState>, id: nat, ptr: bool, budget: nat): (v: Run)
    requires ValidGraph(g) && |refd| == |g| == |order| && id < |g|
    ensures |v.order| == |g|
    decreases budget, 0, 0
  {
    var t := g[id];
    if AtOnce(t, order[id], ptr, budget) then Answer(t, refd[id], order, id, ptr, budget)
    else
      BelowInRange(g, id);
      Left(t, id, ptr, VisitAll(g, refd, Entered(t, order, id), Below(t), BelowPtr(t, ptr), budget - 1))
  }

  /** Several types one after the other; strong if any is. */
  ghost function VisitAll(g: seq<Type>, refd: seq<bool>, order: seq<OrderState>, rs: seq<nat>, ptr: bool, budget: nat):
    (v: Run)
    requires ValidGraph(g) && |refd| == |g| == |order| && InRange(rs, |g|)
    ensures |v.order| == |g|
    decreases budget, 1, |rs|
  {
    if rs == [] then Run(Weak, order, [])
    else
      var v := Visit(g, refd, order, rs[0], ptr, budget);
      if v.link.Stop? then v else Then(v, VisitAll(g, refd, v.order, rs[1..], ptr, budget))
  }

  /** One after the other, unless the first has stopped. */
  function Then(v: Run, more: Run): Run {
    Run(if more.link.Weak? then v.link else more.link, more.order, v.queue + more.queue)
  }

  lemma OntoThen(queue: seq<nat>, a: Run, b: Run)
    ensures Onto(queue, Then(a, b)) == Then(Onto(queue, a), b)
    ensures Then(Onto(queue, a), b).queue == Onto(Onto(queue, a).queue, b).queue
  {
    assert queue + a.queue + b.queue == queue + (a.queue + b.queue);
  }

  lemma OntoNothing(queue: seq<nat>, order: seq<OrderState>)
    ensures Onto(queue, Run(Weak, order, [])) == Run(Weak, order, queue)
  {
    assert queue + [] == queue;
  }

  lemma ThenLink(a: Run, b: Run)
    ensures Then(a, b).order == b.order && Then(a, b).link == if b.link.Weak? then a.link else b.link
  {
  }

  lemma ThenThen(a: Run, b: Run, c: Run)
    ensures Then(Then(a, b), c) == Then(a, Then(b, c))
  {
    assert a.queue + b.queue + c.queue == a.queue + (b.queue + c.queue);
  }

  lemma VisitOne(g: seq<Type>, refd: seq<bool>, order: seq<OrderState>, r: nat, ptr: bool, budget: nat)
    requires ValidGraph(g) && |refd| == |g| == |order| && r < |g|
    ensures VisitAll(g, refd, order, [r], ptr, budget) == Visit(g, refd, order, r, ptr, budget)
  {
    hide Visit;
    var v := Visit(g, refd, order, r, ptr, budget);
    assert [r][1..] == [] && v.queue + [] == v.queue;
  }

  lemma BelowInRange(g: seq<Type>, id: nat)
    requires ValidGraph(g) && id < |g|
    ensures InRange(Below(g[id]), |g|)
  {
    FollowsInRange(g, id);
  }

  /** At first only void is ordered. */
  function AtFirst(n: nat): (order: seq<OrderState>)
    ensures |order| == n && forall u :: 0 <= u < n ==> order[u] == if u == 0 then Ordered else NotOrdered
  {
    seq(n, i => if i == 0 then Ordered else NotOrdered)
  }

  // ----- the state goes forward -----

  lemma {:induction false} VisitProgress(g: seq<Type>, refd: seq<bool>, order: seq<OrderState>, id: nat, ptr: bool,
                                         budget: nat)
    requires ValidGraph(g) && |refd| == |g| == |order| && id < |g|
    ensures Progress(order, Visit(g, refd, order, id, ptr, budget).order)
    decreases budget, 0, 0
  {
    hide Below, Progress, Left, Entered, Answer;
    var t := g[id];
    if AtOnce(t, order[id], ptr, budget) {
      ProgressAtOnce(t, refd[id], order, id, ptr, budget);
    } else {
      BelowInRange(g, id);
      VisitAllProgress(g, refd, Entered(t, order, id), Below(t), BelowPtr(t, ptr), budget - 1);
      ProgressBack(t, order, id, ptr,
        VisitAll(g, refd, Entered(t, order, id), Below(t), BelowPtr(t, ptr), budget - 1));
    }
  }

  lemma ProgressAtOnce(t: Type, refd: bool, order: seq<OrderState>, id: nat, ptr: bool, budget: nat)
    requires id < |order| && AtOnce(t, order[id], ptr, budget)
    ensures Progress(order, Answer(t, refd, order, id, ptr, budget).order)
  {
  }

  lemma ProgressBack(t: Type, order: seq<OrderState>, id: nat, ptr: bool, v: Run)
    requires id < |order| == |v.order| && order[id] == NotOrdered && Progress(Entered(t, order, id), v.order)
    ensures Progress(order, Left(t, id, ptr, v).order)
  {
  }

  lemma {:induction false} VisitAllProgress(g: seq<Type>, refd: seq<bool>, order: seq<OrderState>, rs: seq<nat>,
                                            ptr: bool, budget: nat)
    requires ValidGraph(g) && |refd| == |g| == |order| && InRange(rs, |g|)
    ensures Progress(order, VisitAll(g, refd, order, rs, ptr, budget).order)
    decreases budget, 1, |rs|
  {
    if rs != [] {
      VisitProgress(g, refd, order, rs[0], ptr, budget);
      var v := Visit(g, refd, order, rs[0], ptr, budget);
      if !v.link.Stop? {
        VisitAllProgress(g, refd, v.order, rs[1..], ptr, budget);
      }
    }
  }

  lemma AllFromStart(g: seq<Type>, refd: seq<bool>, order: seq<OrderState>, rs: seq<nat>, ptr: bool, budget: nat)
    requires ValidGraph(g) && |refd| == |g| == |order| && InRange(rs, |g|)
    ensures var v := VisitAll(g, refd, order, rs, ptr, budget);
      rs[0..] == rs && Then(Run(Weak, order, []), v) == v
  {
    hide VisitAll;
    var v := VisitAll(g, refd, order, rs, ptr, budget);
    assert [] + v.queue == v.queue;
  }

  lemma AllNext(g: seq<Type>, refd: seq<bool>, order: seq<OrderState>, rs: seq<nat>, ptr: bool, budget: nat)
    requires ValidGraph(g) && |refd| == |g| == |order| && InRange(rs, |g|) && rs != []
    ensures var v := Visit(g, refd, order, rs[0], ptr, budget);
      VisitAll(g, refd, order, rs, ptr, budget) ==
      if v.link.Stop? then v else Then(v, VisitAll(g, refd, v.order, rs[1..], ptr, budget))
  {
    hide Visit;
  }

  lemma AllDone(g: seq<Type>, refd: seq<bool>, order: seq<OrderState>, rs: seq<nat>, ptr: bool, budget: nat, acc: Run)
    requires ValidGraph(g) && |refd| == |g| == |order| && rs == [] && acc.order == order
    ensures Then(acc, VisitAll(g, refd, order, rs, ptr, budget)) == acc
  {
    assert acc.queue + [] == acc.queue;
  }

  /** A pointer has been marked. */
  ghost predicate Marked(g: seq<Type>, order: seq<OrderState>, order': seq<OrderState>)
    requires |order| == |order'| == |g|
  {
    exists p :: 0 <= p < |g| && g[p].kind.Ptr? && order[p] != Ordered && order'[p] == Ordered
  }

  lemma MarkedSince(g: seq<Type>, a: seq<OrderState>, b: seq<OrderState>, c: seq<OrderState>)
    requires |a| == |b| == |c| == |g| && Progress(a, b)
    ensures Marked(g, b, c) ==> Marked(g, a, c)
  {
  }

  lemma MarkedInside(g: seq<Type>, order: seq<OrderState>, order': seq<OrderState>, id: nat)
    requires |order| == |order'| == |g| && id < |g| && IsComposite(g[id])
    ensures Marked(g, order[id := Ordering], order') ==> Marked(g, order, order')
  {
  }

  lemma ProgressTrans(a: seq<OrderState>, b: seq<OrderState>, c: seq<OrderState>)
    requires Progress(a, b) && Progress(b, c)
    ensures Progress(a, c)
  {
  }

  lemma LeafSteps(g: seq<Type>, id: nat)
    requires ValidGraph(g) && id < |g| && IsLeaf(g[id])
    ensures forall v, ptr' :: !Step(g, id, false, v, ptr')
  {
  }

  lemma NamedQueued(g: seq<Type>, order: seq<OrderState>, done: set<Place>, all: seq<nat>, id: nat)
    requires Consistent(g, order, done) && Queued(g, order, all) && id < |g| && Place(id, false) in done
    ensures Named(g[id]) ==> id in all
  {
    hide Contains, Step, Refs;
    assert DoneAt(g, order, done, Place(id, false));
  }

  lemma NoLoop(g: seq<Type>)
    requires ValidGraph(g)
    ensures IsBareLoop(g, {})
  {
  }

  // ----- with enough nesting it ends -----

  lemma {:induction false} VisitEnds(g: seq<Type>, refd: seq<bool>, order: seq<OrderState>, id: nat, ptr: bool,
                                     budget: nat, rank: seq<nat>, top: nat)
    requires ValidGraph(g) && |refd| == |g| == |order| && id < |g| && Enough(g, order, rank, top, id, budget)
    ensures Visit(g, refd, order, id, ptr, budget).link != Stop(Endless)
    decreases budget, 0, 0
  {
    hide Enough, EnoughAll, EnoughNext, Follows, Refs;
    var t := g[id];
    EnoughOneDown(g, order, rank, top, id, budget);
    if !AtOnce(t, order[id], ptr, budget) {
      BelowInRange(g, id);
      EnoughBelowAll(g, order, rank, top, id, budget);
      VisitAllEnds(g, refd, Entered(t, order, id), Below(t), BelowPtr(t, ptr), budget - 1, rank, top);
    }
  }

  lemma EnoughBelowAll(g: seq<Type>, order: seq<OrderState>, rank: seq<nat>, top: nat, id: nat, budget: nat)
    requires ValidGraph(g) && |order| == |g| && id < |g| && Enough(g, order, rank, top, id, budget) && budget > 0
    requires order[id] == NotOrdered && InRange(Below(g[id]), |g|)
    ensures EnoughFor(g, Entered(g[id], order, id), Below(g[id]), rank, top, budget - 1)
  {
    hide Enough, Refs, Follows;
    EnoughOneDown(g, order, rank, top, id, budget);
  }

  /** Enough for each of several types. */
  ghost predicate EnoughFor(g: seq<Type>, order: seq<OrderState>, rs: seq<nat>, rank: seq<nat>, top: nat, budget: nat)
    requires ValidGraph(g) && |order| == |g| && InRange(rs, |g|)
  {
    forall j :: 0 <= j < |rs| ==> Enough(g, order, rank, top, rs[j], budget)
  }

  lemma {:induction false} VisitAllEnds(g: seq<Type>, refd: seq<bool>, order: seq<OrderState>, rs: seq<nat>,
                                        ptr: bool, budget: nat, rank: seq<nat>, top: nat)
    requires ValidGraph(g) && |refd| == |g| == |order| && InRange(rs, |g|)
    requires EnoughFor(g, order, rs, rank, top, budget)
    ensures VisitAll(g, refd, order, rs, ptr, budget).link != Stop(Endless)
    decreases budget, 1, |rs|
  {
    hide Enough, Progress;
    if rs != [] {
      VisitEnds(g, refd, order, rs[0], ptr, budget, rank, top);
      VisitProgress(g, refd, order, rs[0], ptr, budget);
      var v := Visit(g, refd, order, rs[0], ptr, budget);
      if !v.link.Stop? {
        forall j | 0 <= j < |rs[1..]|
          ensures Enough(g, v.order, rank, top, rs[1..][j], budget)
        {
          assert rs[1..][j] == rs[j + 1];
          EnoughLater(g, order, v.order, rank, top, rs[j + 1], budget);
        }
        VisitAllEnds(g, refd, v.order, rs[1..], ptr, budget, rank, top);
      }
    }
  }

  // ----- a cycle without a struct or union is never ordered -----

  lemma {:induction false} VisitSpares(g: seq<Type>, refd: seq<bool>, order: seq<OrderState>, id: nat, ptr: bool,
                                       budget: nat, loop: set<nat>)
    requires ValidGraph(g) && |refd| == |g| == |order| && id < |g| && Spared(g, order, loop)
    ensures var v := Visit(g, refd, order, id, ptr, budget);
      && (!v.link.Stop? ==> Spared(g, v.order, loop) && id !in loop)
      && (id in loop && Straight(g, loop) ==> v.link == Stop(Endless))
    decreases budget, 0, 0
  {
    hide Spared, LeadsTo, Follows, Refs;
    var t := g[id];
    SparedParts(g, order, loop, id);
    SparedLeaf(g, order, loop, id);
    if !AtOnce(t, order[id], ptr, budget) {
      BelowInRange(g, id);
      var v := VisitAll(g, refd, Entered(t, order, id), Below(t), BelowPtr(t, ptr), budget - 1);
      VisitAllSpares(g, refd, Entered(t, order, id), Below(t), BelowPtr(t, ptr), budget - 1, loop);
      SparedParts(g, v.order, loop, id);
      if id in loop {
        LeadsBelow(g, loop, id);
      }
    }
  }

  lemma LeadsBelow(g: seq<Type>, loop: set<nat>, id: nat)
    requires ValidGraph(g) && id < |g| && id in loop && !IsComposite(g[id]) && LeadsTo(Follows(g[id]), loop)
    ensures LeadsTo(Below(g[id]), loop)
    ensures Straight(g, loop) ==> |Below(g[id])| == 1 && Below(g[id])[0] in loop
  {
    hide Follows;
  }

  lemma {:induction false} VisitAllSpares(g: seq<Type>, refd: seq<bool>, order: seq<OrderState>, rs: seq<nat>,
                                          ptr: bool, budget: nat, loop: set<nat>)
    requires ValidGraph(g) && |refd| == |g| == |order| && InRange(rs, |g|) && Spared(g, order, loop)
    ensures var v := VisitAll(g, refd, order, rs, ptr, budget);
      && (!v.link.Stop? ==> Spared(g, v.order, loop) && !LeadsTo(rs, loop))
      && (|rs| == 1 && rs[0] in loop && Straight(g, loop) ==> v.link == Stop(Endless))
    decreases budget, 1, |rs|
  {
    hide Spared, Straight;
    if rs != [] {
      VisitSpares(g, refd, order, rs[0], ptr, budget, loop);
      var v := Visit(g, refd, order, rs[0], ptr, budget);
      if !v.link.Stop? {
        VisitAllSpares(g, refd, v.order, rs[1..], ptr, budget, loop);
        assert forall j :: 0 < j < |rs| ==> rs[j] == rs[1..][j - 1];
      }
    }
  }

  // ----- graphs in which nothing else can go wrong -----

  /** Ranks that never rise along what is ordered, on the way behind a pointer (`w'`) or not (`w`), and fall from a
      struct or union to its members: none contains itself. */
  ghost predicate RankedByValue(g: seq<Type>, w: seq<nat>, w': seq<nat>)
    requires ValidGraph(g)
  {
    && |w| == |w'| == |g|
    && forall u :: 0 <= u < |g| ==>
         && (IsComposite(g[u]) && g[u].name == 0 ==> w'[u] == w[u])
         && forall ptr, j :: 0 <= j < |Below(g[u])| && !(IsComposite(g[u]) && ptr && g[u].name != 0) ==>
              RankBelow(w, w', u, ptr, Below(g[u])[j], BelowPtr(g[u], ptr), IsComposite(g[u]))
  }

  ghost predicate RankBelow(w: seq<nat>, w': seq<nat>, u: nat, ptr: bool, v: nat, ptr': bool, less: bool)
    requires |w| == |w'| && u < |w|
  {
    v < |w| && RankAt(w, w', v, ptr') + (if less then 1 else 0) <= RankAt(w, w', u, ptr)
  }

  ghost function RankAt(w: seq<nat>, w': seq<nat>, u: nat, ptr: bool): nat
    requires |w| == |w'| && u < |w|
  {
    if ptr then w'[u] else w[u]
  }

  /** No struct or union contains itself, and all kinds are known. */
  ghost predicate Orderly(g: seq<Type>)
    requires ValidGraph(g)
  {
    (exists w, w' :: RankedByValue(g, w, w')) && forall u :: 0 <= u < |g| ==> !g[u].kind.Other?
  }

  /** The structs and unions that are being ordered have higher ranks. */
  ghost predicate Above(g: seq<Type>, order: seq<OrderState>, w: seq<nat>, r: nat)
    requires |order| == |g| == |w|
  {
    forall c :: 0 <= c < |g| && order[c] == Ordering ==> IsComposite(g[c]) && w[c] > r
  }

  ghost predicate NoneEntered(order: seq<OrderState>, order': seq<OrderState>) {
    |order'| == |order| && forall c :: 0 <= c < |order| && order'[c] == Ordering ==> order[c] == Ordering
  }

  predicate OnlyEndless(l: Link) {
    l.Stop? ==> l.error == Endless
  }

  lemma {:induction false} VisitOrderly(g: seq<Type>, refd: seq<bool>, order: seq<OrderState>, id: nat, ptr: bool,
                                        budget: nat, w: seq<nat>, w': seq<nat>)
    requires ValidGraph(g) && |refd| == |g| == |order| && id < |g| && RankedByValue(g, w, w') && order[0] == Ordered
    requires (forall u :: 0 <= u < |g| ==> !g[u].kind.Other?) && Above(g, order, w, RankAt(w, w', id, ptr))
    ensures var v := Visit(g, refd, order, id, ptr, budget);
      OnlyEndless(v.link) && (!v.link.Stop? ==> NoneEntered(order, v.order))
    decreases budget, 0, 0
  {
    hide Below, Refs, Follows, Progress;
    var t := g[id];
    if !AtOnce(t, order[id], ptr, budget) {
      BelowInRange(g, id);
      forall j | 0 <= j < |Below(t)|
        ensures Above(g, Entered(t, order, id), w, RankAt(w, w', Below(t)[j], BelowPtr(t, ptr)))
      {
        assert RankBelow(w, w', id, ptr, Below(t)[j], BelowPtr(t, ptr), IsComposite(t));
      }
      VisitAllOrderly(g, refd, Entered(t, order, id), Below(t), BelowPtr(t, ptr), budget - 1, w, w');
    }
  }

  lemma {:induction false} VisitAllOrderly(g: seq<Type>, refd: seq<bool>, order: seq<OrderState>, rs: seq<nat>,
                                           ptr: bool, budget: nat, w: seq<nat>, w': seq<nat>)
    requires ValidGraph(g) && |refd| == |g| == |order| && InRange(rs, |g|) && RankedByValue(g, w, w') &&
      order[0] == Ordered
    requires forall u :: 0 <= u < |g| ==> !g[u].kind.Other?
    requires forall j :: 0 <= j < |rs| ==> Above(g, order, w, RankAt(w, w', rs[j], ptr))
    ensures var v := VisitAll(g, refd, order, rs, ptr, budget);
      OnlyEndless(v.link) && (!v.link.Stop? ==> NoneEntered(order, v.order))
    decreases budget, 1, |rs|
  {
    hide RankedByValue, RankAt;
    if rs != [] {
      VisitOrderly(g, refd, order, rs[0], ptr, budget, w, w');
      VisitProgress(g, refd, order, rs[0], ptr, budget);
      var v := Visit(g, refd, order, rs[0], ptr, budget);
      if !v.link.Stop? {
        VisitAllOrderly(g, refd, v.order, rs[1..], ptr, budget, w, w');
      }
    }
  }

  // ----- which calls end -----

  /** How the first call comes back, for a type. */
  ghost function FirstCall(g: seq<Type>, refd: seq<bool>, id: nat, budget: nat): Link
    requires ValidGraph(g) && |refd| == |g| && id < |g|
  {
    Visit(g, refd, AtFirst(|g|), id, false, budget).link
  }

  ghost predicate NoBareLoop(g: seq<Type>)
    requires ValidGraph(g)
  {
    forall loop :: IsBareLoop(g, loop) ==> loop == {}
  }

  /** Nesting that is enough if every cycle passes through a struct or union. */
  ghost predicate FirstCallsEnd(g: seq<Type>, refd: seq<bool>, budget: nat)
    requires ValidGraph(g) && |refd| == |g|
  {
    forall id :: 0 <= id < |g| ==> FirstCall(g, refd, id, budget) != Stop(Endless)
  }

  /** If every cycle passes through a struct or union, calls end with enough nesting, in every state. */
  lemma CallsEnd(g: seq<Type>, refd: seq<bool>, order: seq<OrderState>, id: nat, ptr: bool, rank: seq<nat>, budget: nat)
    requires ValidGraph(g) && |refd| == |g| == |order| && id < |g| && RankedBare(g, rank)
    requires budget >= Nesting(g, rank)
    ensures Visit(g, refd, order, id, ptr, budget).link != Stop(Endless)
  {
    hide RankedBare, Visit, Enough, Nesting;
    NestingEnough(g, order, rank, id, budget);
    VisitEnds(g, refd, order, id, ptr, budget, rank, Max(rank));
  }

  lemma NestingEnough(g: seq<Type>, order: seq<OrderState>, rank: seq<nat>, id: nat, budget: nat)
    requires ValidGraph(g) && |order| == |g| && id < |g| && RankedBare(g, rank) && budget >= Nesting(g, rank)
    ensures Enough(g, order, rank, Max(rank), id, budget)
  {
    hide RankedBare, Fresh, ValidGraph;
    RankedSize(g, rank);
    FewFresh(g, order, |g|);
    var n, m := |Fresh(g, order)|, Max(rank) + 2;
    Times(n, |g|, m);
    assert Depth(g, order, rank, Max(rank), id) == n * m + 1 + (if IsComposite(g[id]) then 0 else rank[id] + 1);
    assert Nesting(g, rank) == |g| * m + m;
  }

  ghost function Nesting(g: seq<Type>, rank: seq<nat>): nat {
    |g| * (Max(rank) + 2) + Max(rank) + 2
  }

  lemma RankedSize(g: seq<Type>, rank: seq<nat>)
    requires ValidGraph(g) && RankedBare(g, rank)
    ensures |rank| == |g|
  {
    hide Follows;
  }

  lemma {:induction false} FewFresh(g: seq<Type>, order: seq<OrderState>, n: nat)
    requires |order| == |g| && n <= |g|
    ensures |Fresh(g[..n], order[..n])| <= n
    ensures g[..|g|] == g && order[..|g|] == order
  {
    if n > 0 {
      FewFresh(g, order, n - 1);
      var a, b := Fresh(g[..n], order[..n]), Fresh(g[..n - 1], order[..n - 1]);
      assert a <= b + {n - 1};
      SubsetSize(a, b + {n - 1});
    }
  }

  /** A type of a cycle without a struct or union is never ordered; where each leads to one other only, the call
      does not end. */
  lemma LoopNeverOrdered(g: seq<Type>, refd: seq<bool>, id: nat, budget: nat, loop: set<nat>)
    requires ValidGraph(g) && |refd| == |g| && id < |g| && IsBareLoop(g, loop) && id in loop
    ensures FirstCall(g, refd, id, budget).Stop?
    ensures Straight(g, loop) ==> FirstCall(g, refd, id, budget) == Stop(Endless)
    ensures Orderly(g) ==> FirstCall(g, refd, id, budget) == Stop(Endless)
  {
    hide IsBareLoop, Straight, Visit, RankedByValue;
    Beginning(g, AtFirst(|g|), loop);
    VisitSpares(g, refd, AtFirst(|g|), id, false, budget, loop);
    if Orderly(g) {
      var w, w' :| RankedByValue(g, w, w');
      ValueRankSize(g, w, w');
      VisitOrderly(g, refd, AtFirst(|g|), id, false, budget, w, w');
    }
  }

  lemma ValueRankSize(g: seq<Type>, w: seq<nat>, w': seq<nat>)
    requires ValidGraph(g) && RankedByValue(g, w, w')
    ensures |w| == |w'| == |g|
  {
    hide Below;
  }

  /** Where nothing else can go wrong, all calls end exactly if every cycle passes through a struct or union. */
  lemma FirstCallsEndExactly(g: seq<Type>, refd: seq<bool>)
    requires ValidGraph(g) && |refd| == |g| && Orderly(g)
    ensures (exists budget: nat :: FirstCallsEnd(g, refd, budget)) <==> NoBareLoop(g)
  {
    hide IsBareLoop, RankedBare, Visit, Orderly;
    if NoBareLoop(g) {
      RankedExactly(g);
      var rank :| RankedBare(g, rank);
      var budget := Nesting(g, rank);
      forall id | 0 <= id < |g|
        ensures FirstCall(g, refd, id, budget) != Stop(Endless)
      {
        CallsEnd(g, refd, AtFirst(|g|), id, false, rank, budget);
      }
      assert FirstCallsEnd(g, refd, budget);
    }
    if budget: nat :| FirstCallsEnd(g, refd, budget) {
      forall loop | IsBareLoop(g, loop)
        ensures loop == {}
      {
        if u :| u in loop {
          LoopInRange(g, loop, u);
          LoopNeverOrdered(g, refd, u, budget, loop);
        }
      }
    }
  }
}
