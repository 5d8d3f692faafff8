/** Dumping types, one call after the other. */
module Dump {
  import opened BtfTypes
  import opened Meaning
  import opened GraphMatch
  import opened DumpOrder
  import opened DumpSpec

  class Dumper {
    const g: seq<Type>
    /** Whether any other type refers to a type. */
    const referenced: seq<bool>
    var order: seq<OrderState>
    /** What the present call has queued. */
    var queue: seq<nat>
    /** What earlier calls have written out. */
    ghost var past: seq<nat>
    ghost var done: set<Place>

    ghost predicate Valid()
      reads this
    {
      && ValidGraph(g) && |referenced| == |g| == |order| && order[0] == Ordered
      && Consistent(g, order, done) && Queued(g, order, past + queue)
    }

    constructor (g: seq<Type>, referenced: seq<bool>)
      requires ValidGraph(g) && |referenced| == |g|
      ensures Valid() && this.g == g && this.referenced == referenced && past == queue == [] && order == AtFirst(|g|)
    {
      hide Consistent, Queued, Spared, IsBareLoop;
      this.g, this.referenced := g, referenced;
      order := AtFirst(|g|);
      queue, past, done := [], [], {Place(0, false), Place(0, true)};
      new;
      NoLoop(g);
      Beginning(g, order, {});
      assert past + queue == [];
    }

    /** What a step of the ordering keeps. */
    twostate predicate Kept()
      reads this
    {
      && past == old(past) && old(queue) <= queue && old(done) <= done && Progress(old(order), order)
    }

    method Enqueue(id: nat)
      requires Valid() && id < |g| && (IsDefinition(g[id]) ==> order[id] != Ordered)
      requires IsComposite(g[id]) ==> MembersDone(g, done, Refs(g[id]))
      requires forall v, ptr' :: Step(g, id, false, v, ptr') ==> Place(v, ptr') in done
      modifies this`queue, this`order, this`done
      ensures Valid() && queue == old(queue) + [id] && order == old(order)[id := Ordered]
      ensures done == old(done) + Reached(id, false)
    {
      hide Refs, Contains, Step;
      forall y: nat | Contains(g, id, y)
        ensures y < |g| && order[y] == Ordered
      {
        ContainedNamed(g, id, y);
        ContainsComposite(g, id, y);
        ContainedOrdered(g, order, done, id, y);
      }
      QueueMore(g, order, past + queue, id);
      assert past + queue + [id] == past + (queue + [id]);
      Settle(g, order, done, id);
      queue, order, done := queue + [id], order[id := Ordered], done + Reached(id, false);
    }

    method SetOrdered(id: nat)
      requires Valid() && id < |g| && !Named(g[id])
      requires IsComposite(g[id]) ==> MembersDone(g, done, Refs(g[id]))
      requires forall v, ptr' :: Step(g, id, false, v, ptr') ==> Place(v, ptr') in done
      modifies this`order, this`done
      ensures Valid() && order == old(order)[id := Ordered] && done == old(done) + Reached(id, false)
    {
      hide Refs, Contains, Step;
      NotQueued(g, order, past + queue, id);
      Settle(g, order, done, id);
      order, done := order[id := Ordered], done + Reached(id, false);
    }

    /** Order members or parameters, one after the other. */
    method OrderAll(rs: seq<nat>, ptr: bool, budget: nat) returns (r: Link)
      requires Valid() && InRange(rs, |g|)
      modifies this
      ensures !r.Stop? ==> Valid() && forall j :: 0 <= j < |rs| ==> Place(rs[j], ptr) in done
      ensures Kept() && (Valid() || Marked(g, old(order), order))
      ensures Run(r, order, queue) == Onto(old(queue), VisitAll(g, referenced, old(order), rs, ptr, budget))
      decreases budget, 1
    {
      hide Consistent, Queued, Visit, VisitAll, Progress, Marked, ValidGraph, Then;
      ProgressRefl(order);
      ghost var acc := Run(Weak, order, []);
      AllFromStart(g, referenced, order, rs, ptr, budget);
      OntoNothing(queue, order);
      var i := 0;
      r := Weak;
      while i < |rs|
        invariant 0 <= i <= |rs| && Valid() && Kept() && !r.Stop?
        invariant forall j :: 0 <= j < i ==> Place(rs[j], ptr) in done
        invariant acc.order == order && Run(r, order, queue) == Onto(old(queue), acc)
        invariant VisitAll(g, referenced, old(order), rs, ptr, budget) ==
          Then(acc, VisitAll(g, referenced, order, rs[i..], ptr, budget))
      {
        ghost var order0 := order;
        AllNext(g, referenced, order, rs[i..], ptr, budget);
        assert rs[i..][0] == rs[i] && rs[i..][1..] == rs[i + 1..];
        var link := Order(rs[i], ptr, budget);
        ghost var v := Visit(g, referenced, order0, rs[i], ptr, budget);
        OntoThen(old(queue), acc, v);
        ThenLink(Onto(old(queue), acc), v);
        ThenLink(acc, v);
        ProgressTrans(old(order), order0, order);
        MarkedSince(g, old(order), order0, order);
        if link.Stop? {
          return link;
        }
        ThenThen(acc, v, VisitAll(g, referenced, order, rs[i + 1..], ptr, budget));
        acc := Then(acc, v);
        if link.Strong? {
          r := Strong;
        }
        i := i + 1;
      }
      AllDone(g, referenced, order, rs[i..], ptr, budget, acc);
    }

    method OrderComposite(id: nat, ptr: bool, budget: nat) returns (r: Link)
      requires Valid() && id < |g| && IsComposite(g[id]) && order[id] == NotOrdered
      modifies this
      ensures !r.Stop? ==> Valid() && Place(id, ptr) in done && (r.Strong? ==> Place(id, false) in done)
      ensures Kept() && (Valid() || Marked(g, old(order), order))
      ensures Run(r, order, queue) == Onto(old(queue), Visit(g, referenced, old(order), id, ptr, budget + 1))
      decreases budget, 2
    {
      hide Refs, Contains, Consistent, Queued, VisitAll, Marked;
      var t := g[id];
      if ptr && t.name != 0 {
        Reach(g, order, done, id, true);
        done := done + Reached(id, true);
        return Weak;
      }
      Enter(g, order, done, id);
      EnterQueue(g, order, past + queue, id);
      BelowInRange(g, id);
      order := order[id := Ordering];
      ghost var order1 := order;
      r := OrderAll(Refs(t), false, budget);
      ProgressSize(order1, order);
      MarkedInside(g, old(order), order, id);
      if r.Stop? {
        return;
      }
      if t.name != 0 {
        Enqueue(id);
      } else {
        SetOrdered(id);
      }
      r := Strong;
    }

    /** A pointer, an array or a modifier: order the type behind it. */
    method OrderThrough(id: nat, ptr: bool, budget: nat) returns (r: Link)
      requires Valid() && id < |g| && order[id] == NotOrdered
      requires g[id].kind.Ptr? || IsModifier(g[id].kind) || g[id].kind.Array?
      modifies this
      ensures !r.Stop? ==> Valid() && Place(id, ptr) in done && (r.Strong? ==> Place(id, false) in done)
      ensures Kept() && (Valid() || Marked(g, old(order), order))
      ensures Run(r, order, queue) == Onto(old(queue), Visit(g, referenced, old(order), id, ptr, budget + 1))
      decreases budget, 2
    {
      hide Contains, Consistent, Queued, Progress, Cols, VisitAll, Refs;
      var t := g[id];
      var next := if t.kind.Array? then t.extra[0] else t.st;
      BelowInRange(g, id);
      assert Below(t) == [next] && Below(t)[0] < |g|;
      VisitOne(g, referenced, order, next, BelowPtr(t, ptr), budget);
      r := Order(next, if t.kind.Ptr? then true else if t.kind.Array? then false else ptr, budget);
      ProgressSize(old(order), order);
      if t.kind.Ptr? {
        ProgressOn(old(order), order, id);
      }
      if r.Stop? {
        if t.kind.Ptr? {
          order := order[id := Ordered];
        }
        return;
      }
      if t.kind.Ptr? {
        SetOrdered(id);
        return;
      }
      var weak := !t.kind.Array? && ptr && r.Weak?;
      Reach(g, order, done, id, weak);
      done := done + Reached(id, weak);
    }

    /** A typedef is queued unless it only names something that a forward declaration can stand for. */
    method OrderTypedef(id: nat, ptr: bool, budget: nat) returns (r: Link)
      requires Valid() && id < |g| && order[id] == NotOrdered && g[id].kind.Typedef?
      modifies this
      ensures !r.Stop? ==> Valid() && Place(id, ptr) in done && (r.Strong? ==> Place(id, false) in done)
      ensures Kept() && (Valid() || Marked(g, old(order), order))
      ensures Run(r, order, queue) == Onto(old(queue), Visit(g, referenced, old(order), id, ptr, budget + 1))
      decreases budget, 2
    {
      hide Contains, Consistent, Queued, Progress, Cols, VisitAll, Refs, Marked;
      var t := g[id];
      BelowInRange(g, id);
      assert Below(t) == [t.st] && Below(t)[0] < |g|;
      VisitOne(g, referenced, order, t.st, BelowPtr(t, ptr), budget);
      r := Order(t.st, ptr, budget);
      if r.Stop? {
        return;
      }
      if ptr && r.Weak? {
        Reach(g, order, done, id, true);
        done := done + Reached(id, true);
        return;
      }
      ProgressOn(old(order), order, id);
      Enqueue(id);
      r := Strong;
    }

    /** The return type and the parameters of a function. */
    method OrderProto(id: nat, ptr: bool, budget: nat) returns (r: Link)
      requires Valid() && id < |g| && order[id] == NotOrdered && g[id].kind.FuncProto?
      modifies this
      ensures !r.Stop? ==> Valid() && Place(id, ptr) in done && (r.Strong? ==> Place(id, false) in done)
      ensures Kept() && (Valid() || Marked(g, old(order), order))
      ensures Run(r, order, queue) == Onto(old(queue), Visit(g, referenced, old(order), id, ptr, budget + 1))
      decreases budget, 2
    {
      hide Refs, Contains, Consistent, Queued, VisitAll, Marked, Progress;
      BelowInRange(g, id);
      r := OrderAll(Refs(g[id]), ptr, budget);
      if r.Stop? {
        return;
      }
      Reach(g, order, done, id, false);
      done := done + Reached(id, false);
    }

    /** Order what a type needs, and the type itself if it is defined on its own. The budget bounds the nesting. */
    method Order(id: nat, ptr: bool, budget: nat) returns (r: Link)
      requires Valid() && id < |g|
      modifies this
      ensures !r.Stop? ==> Valid() && Place(id, ptr) in done && (r.Strong? ==> Place(id, false) in done)
      ensures Kept() && (Valid() || Marked(g, old(order), order))
      ensures Run(r, order, queue) == Onto(old(queue), Visit(g, referenced, old(order), id, ptr, budget))
      decreases budget, 0
    {
      hide Refs, Contains, Queued, Progress, Follows, VisitAll, Marked;
      ProgressRefl(order);
      assert queue + [] == queue;
      if order[id] == Ordered {
        return Strong;
      }
      if budget == 0 {
        return Stop(Endless);
      }
      if order[id] == Ordering {
        if ptr && g[id].name != 0 {
          Reach(g, order, done, id, true);
          done := done + Reached(id, true);
          return Weak;
        }
        return Stop(Loop);
      }
      var k := g[id].kind;
      if IsComposite(g[id]) {
        r := OrderComposite(id, ptr, budget - 1);
      } else if k.Ptr? || k.Array? || IsModifier(k) {
        r := OrderThrough(id, ptr, budget - 1);
      } else if k.Typedef? {
        r := OrderTypedef(id, ptr, budget - 1);
      } else if k.FuncProto? {
        r := OrderProto(id, ptr, budget - 1);
      } else {
        r := OrderLeaf(id, ptr);
      }
    }

    /** Types that need no other. */
    method OrderLeaf(id: nat, ptr: bool) returns (r: Link)
      requires Valid() && id < |g| && order[id] == NotOrdered && IsLeaf(g[id])
      modifies this
      ensures Valid() && (!r.Stop? ==> Place(id, ptr) in done && (r.Strong? ==> Place(id, false) in done))
      ensures Kept()
      ensures Run(r, order, queue) == Onto(old(queue), VisitLeaf(g[id], referenced[id], old(order), id))
    {
      hide Refs, Contains, Consistent, Queued, Cols;
      var t := g[id];
      LeafSteps(g, id);
      assert queue + [] == queue;
      match t.kind {
        case Enum | Enum64 | Fwd =>
          if t.name != 0 || !referenced[id] {
            Enqueue(id);
          } else {
            SetOrdered(id);
          }
          r := Strong;
        case Int | Float | Func | Var | Datasec | DeclTag | LocParam | LocProto | Locsec =>
          SetOrdered(id);
          r := Weak;
        case _ =>
          r := Stop(Inval);
      }
    }

    /** Write out the definitions for one type, in an order that C accepts. A call that fails writes nothing; if it
        has also queued nothing and marked no pointer, later calls are not affected. */
    method DumpType(id: nat, budget: nat) returns (r: Link, out: seq<nat>)
      requires Valid() && queue == []
      modifies this
      ensures !r.Stop? ==>
        Valid() && queue == [] && past == old(past) + out && id < |g| && (Named(g[id]) ==> id in past)
      ensures r.Stop? ==> out == [] && past == old(past) && |order| == |g|
      ensures id >= |g| ==> r == Stop(Inval) && order == old(order) && queue == []
      ensures r.Stop? && queue == [] && !Marked(g, old(order), order) ==> Valid()
      ensures id < |g| ==>
        Run(r, order, if r.Stop? then queue else out) == Visit(g, referenced, old(order), id, false, budget)
    {
      hide Refs, Contains, Consistent, Queued, Visit, Progress, Marked;
      r, out := Stop(Inval), [];
      if id >= |g| {
        return;
      }
      r := Order(id, false, budget);
      ProgressSize(old(order), order);
      if !r.Stop? {
        NamedQueued(g, order, done, past + queue, id);
        out := queue;
        past, queue := past + queue, [];
        assert past + queue == past;
      }
    }
  }

  /** A run of calls until one fails: everything that has been asked for is written out, and everything in a place
      where C has what it needs. */
  method DumpTypes(d: Dumper, ids: seq<nat>, budget: nat) returns (r: Link)
    requires d.Valid() && d.queue == []
    modifies d
    ensures !r.Stop? ==> d.Valid() && InRange(ids, |d.g|) && InRange(d.past, |d.g|)
    ensures !r.Stop? ==> forall i :: 0 <= i < |ids| && Named(d.g[ids[i]]) ==> ids[i] in d.past
    ensures !r.Stop? ==> InPlace(d.g, d.past)
  {
    hide Refs, Contains, Consistent, Visit, Marked;
    r := Strong;
    var i := 0;
    while i < |ids|
      invariant 0 <= i <= |ids| && d.Valid() && d.queue == [] && !r.Stop?
      invariant InRange(ids[..i], |d.g|)
      invariant forall j :: 0 <= j < i && Named(d.g[ids[j]]) ==> ids[j] in d.past
    {
      ghost var was := d.past;
      var out;
      r, out := d.DumpType(ids[i], budget);
      if r.Stop? {
        return;
      }
      assert forall x :: x in was ==> x in d.past;
      assert ids[..i + 1] == ids[..i] + [ids[i]];
      i := i + 1;
    }
    assert ids[..i] == ids && d.past + d.queue == d.past;
  }

  /** What has been written out is in places where C has what it needs, and each definition is there once. */
  ghost predicate InPlace(g: seq<Type>, all: seq<nat>)
    requires ValidGraph(g) && InRange(all, |g|)
  {
    && (forall p, y :: 0 <= p < |all| && Contains(g, all[p], y) ==> y in all[..p])
    && (forall p, q :: 0 <= p < q < |all| && IsDefinition(g[all[p]]) ==> all[p] != all[q])
  }

  /** A run that goes on after failures, as long as these queue nothing and mark no pointer: what is written out is
      still in place. */
  method DumpAnyway(d: Dumper, ids: seq<nat>, budget: nat) returns (calls: nat)
    requires d.Valid() && d.queue == []
    modifies d
    ensures calls <= |ids| && |d.order| == |d.g| && InRange(d.past, |d.g|) && InPlace(d.g, d.past)
    ensures calls == |ids| ==> d.Valid()
    ensures calls < |ids| ==> exists order :: |order| == |d.g| && Harmful(d.g, order, d.order, d.queue)
  {
    hide Refs, Contains, Consistent, Marked, Visit;
    calls := 0;
    while calls < |ids|
      invariant 0 <= calls <= |ids| && d.Valid() && d.queue == []
    {
      var order := d.order;
      assert d.past + d.queue == d.past;
      var r, out := d.DumpType(ids[calls], budget);
      if r.Stop? && d.queue != [] {
        return;
      }
      var marked := MarksPointer(d.g, order, d.order);
      if r.Stop? && marked {
        return;
      }
      calls := calls + 1;
    }
    assert d.past + d.queue == d.past;
  }

  /** A failure that later calls are affected by. */
  ghost predicate Harmful(g: seq<Type>, order: seq<OrderState>, order': seq<OrderState>, queue: seq<nat>)
    requires |order| == |order'| == |g|
  {
    queue != [] || Marked(g, order, order')
  }

  method MarksPointer(g: seq<Type>, order: seq<OrderState>, order': seq<OrderState>) returns (yes: bool)
    requires |order| == |order'| == |g|
    ensures yes <==> Marked(g, order, order')
  {
    var i := 0;
    while i < |g|
      invariant 0 <= i <= |g|
      invariant forall p :: 0 <= p < i ==> !(g[p].kind.Ptr? && order[p] != Ordered && order'[p] == Ordered)
    {
      if g[i].kind.Ptr? && order[i] != Ordered && order'[i] == Ordered {
        return true;
      }
      i := i + 1;
    }
    yes := false;
  }

  /** One call for a new dumper. If every cycle passes through a struct or union, it ends with enough nesting. For a
      type of a cycle that does not, it fails, and it does not end if each type of the cycle leads to one other
      only, or if nothing else can go wrong. */
  method DumpFirst(g: seq<Type>, referenced: seq<bool>, id: nat, budget: nat, ghost rank: seq<nat>,
                   ghost loop: set<nat>)
    returns (r: Link, out: seq<nat>)
    requires ValidGraph(g) && |referenced| == |g|
    ensures id >= |g| ==> r == Stop(Inval)
    ensures id < |g| && RankedBare(g, rank) && budget >= Nesting(g, rank) ==> r != Stop(Endless)
    ensures IsBareLoop(g, loop) && id in loop ==> r.Stop? && (Straight(g, loop) || Orderly(g) ==> r == Stop(Endless))
    ensures !r.Stop? ==> InRange(out, |g|) && InPlace(g, out) && id < |g| && (Named(g[id]) ==> id in out)
  {
    hide Refs, Contains, Consistent, Visit, IsBareLoop, Straight, Orderly, RankedBare;
    var d := new Dumper(g, referenced);
    r, out := d.DumpType(id, budget);
    if id < |g| && RankedBare(g, rank) && budget >= Nesting(g, rank) {
      CallsEnd(g, referenced, AtFirst(|g|), id, false, rank, budget);
    }
    if IsBareLoop(g, loop) && id in loop {
      LoopInRange(g, loop, id);
      LoopNeverOrdered(g, referenced, id, budget, loop);
    }
    assert [] + out == out && d.past + [] == d.past;
  }

  lemma ProgressSize(order: seq<OrderState>, order': seq<OrderState>)
    requires Progress(order, order')
    ensures |order'| == |order|
  {
  }

  lemma ProgressRefl(order: seq<OrderState>)
    ensures Progress(order, order)
  {
  }

  lemma ProgressOn(order: seq<OrderState>, order': seq<OrderState>, id: nat)
    requires Progress(order, order') && id < |order| && order[id] == NotOrdered
    ensures Progress(order, order'[id := Ordered])
  {
  }

  lemma ContainsComposite(g: seq<Type>, x: nat, y: nat)
    requires ValidGraph(g) && x < |g| && Contains(g, x, y)
    ensures IsComposite(g[x])
  {
  }
}
