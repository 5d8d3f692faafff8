/** Graphs on which ordering does not end, or writes out what C does not accept. */
module DumpInputs {
  import opened BtfTypes
  import opened Meaning
  import opened GraphMatch
  import opened IdenticalTypes
  import opened SmallTypes
  import opened DumpOrder
  import opened DumpSpec

  lemma StructBelow(name: nat, ms: seq<nat>)
    ensures var t := StructOf(name, ms); WellFormed(t) && IsComposite(t) && Refs(t) == ms == Below(t)
  {
    hide Refs;
    StructOfRefs(name, ms);
  }

  /** A typedef of itself. */
  function SelfTypedef(): seq<Type> {
    [VOID, Type(Typedef, false, 0, 1, 1, [], [])]
  }

  lemma SelfTypedefNeverEnds(refd: seq<bool>, budget: nat)
    requires |refd| == 2
    ensures ValidGraph(SelfTypedef()) && FirstCall(SelfTypedef(), refd, 1, budget) == Stop(Endless)
  {
    hide Visit, Refs;
    var g := SelfTypedef();
    VoidRefs();
    ChainRefs(g[1]);
    assert Follows(g[1])[0] in {1};
    LoopNeverOrdered(g, refd, 1, budget, {1});
  }

  /** A prototype that returns a struct which contains itself, and has itself as a parameter. */
  function ProtoLoop(): seq<Type> {
    [VOID, StructOf(1, [1]), Type(FuncProto, false, 1, 0, 1, [], [[0, 2]])]
  }

  /** It is in a cycle without a struct, but the call stops at the struct, before it comes to the parameter. */
  lemma ProtoLoopStops(refd: seq<bool>, budget: nat)
    requires |refd| == 3 && budget >= 3
    ensures ValidGraph(ProtoLoop()) && IsBareLoop(ProtoLoop(), {2}) &&
      FirstCall(ProtoLoop(), refd, 2, budget) == Stop(Loop)
  {
    hide Visit, VisitAll;
    var g, order := ProtoLoop(), AtFirst(3);
    ProtoLoopParts();
    SelfStructStops(g, refd, order, 1, budget - 1);
    VisitBelow(g, refd, order, 2, false, budget);
    AllNext(g, refd, order, [1, 2], false, budget - 1);
  }

  lemma ProtoLoopParts()
    ensures var g := ProtoLoop(); ValidGraph(g) && IsBareLoop(g, {2}) && Below(g[2]) == [1, 2] && Below(g[1]) == [1]
  {
    hide Refs, Members, WellFormed;
    var g := ProtoLoop();
    VoidRefs();
    StructBelow(1, [1]);
    ProtoRefs();
    assert Follows(g[2])[1] in {2};
  }

  lemma ProtoRefs()
    ensures var t := Type(FuncProto, false, 1, 0, 1, [], [[0, 2]]); WellFormed(t) && Refs(t) == [1, 2]
  {
    var es: seq<seq<nat>> := [[0, 2]];
    assert Cols(1, 2, es[1..]) == [] && es[0][1..2] == [2];
  }

  lemma VisitBelow(g: seq<Type>, refd: seq<bool>, order: seq<OrderState>, id: nat, ptr: bool, budget: nat)
    requires ValidGraph(g) && |refd| == |g| == |order| && id < |g| && !AtOnce(g[id], order[id], ptr, budget)
    ensures InRange(Below(g[id]), |g|)
    ensures Visit(g, refd, order, id, ptr, budget) ==
      Left(g[id], id, ptr, VisitAll(g, refd, Entered(g[id], order, id), Below(g[id]), BelowPtr(g[id], ptr), budget - 1))
  {
    hide VisitAll, Below;
    BelowInRange(g, id);
  }

  /** A struct whose first member is the struct itself. */
  lemma SelfStructStops(g: seq<Type>, refd: seq<bool>, order: seq<OrderState>, id: nat, budget: nat)
    requires ValidGraph(g) && |refd| == |g| == |order| && id < |g| && IsComposite(g[id]) && order[id] == NotOrdered
    requires Below(g[id]) == [id] && budget >= 2
    ensures Visit(g, refd, order, id, false, budget) == Run(Stop(Loop), order[id := Ordering], [])
  {
    hide VisitAll, Below;
    VisitBelow(g, refd, order, id, false, budget);
    VisitOne(g, refd, order[id := Ordering], id, false, budget - 1);
  }

  /** A struct that contains itself, an unnamed struct with it, a pointer to that, and a struct with the pointer. */
  function Pointed(): seq<Type> {
    [VOID, StructOf(1, [1]), StructOf(0, [1]), Type(Ptr, false, 0, 0, 2, [], []), StructOf(2, [3])]
  }

  /** A failed call for the pointer marks it. Then a call for the struct with the pointer writes it out without
      what it contains. */
  lemma MarkedPointerMisleads(refd: seq<bool>, budget: nat)
    requires |refd| == 5 && budget >= 4
    ensures ValidGraph(Pointed()) && Contains(Pointed(), 4, 1)
    ensures var v := Visit(Pointed(), refd, AtFirst(5), 3, false, budget);
      v.link == Stop(Loop) && v.queue == [] && var v' := Visit(Pointed(), refd, v.order, 4, false, budget);
      v'.link == Strong && v'.queue == [4]
  {
    hide Visit, VisitAll, Contains, Below, ValidGraph, Members;
    var g, order := Pointed(), AtFirst(5);
    PointedParts();
    var order1 := order[2 := Ordering];
    VisitBelow(g, refd, order, 3, false, budget);
    VisitOne(g, refd, order, 2, true, budget - 1);
    VisitBelow(g, refd, order, 2, true, budget - 1);
    VisitOne(g, refd, order1, 1, false, budget - 2);
    SelfStructStops(g, refd, order1, 1, budget - 2);
    WrittenAlone(g, refd, Visit(g, refd, order, 3, false, budget).order, 3, 4, budget);
  }

  lemma VisitOrdered(g: seq<Type>, refd: seq<bool>, order: seq<OrderState>, id: nat, ptr: bool, budget: nat)
    requires ValidGraph(g) && |refd| == |g| == |order| && id < |g| && order[id] == Ordered
    ensures Visit(g, refd, order, id, ptr, budget) == Run(Strong, order, [])
  {
  }

  lemma PointedParts()
    ensures ValidGraph(Pointed()) && Contains(Pointed(), 4, 1)
    ensures var g := Pointed(); Below(g[1]) == Below(g[2]) == [1] && Below(g[3]) == [2] && Below(g[4]) == [3]
  {
    hide Refs, Members, Contains;
    var g := Pointed();
    VoidRefs();
    StructBelow(1, [1]);
    StructBelow(0, [1]);
    StructBelow(2, [3]);
    ChainRefs(g[3]);
    PointedContains(g);
  }

  lemma PointedContains(g: seq<Type>)
    requires g == Pointed() && ValidGraph(g) && Refs(g[2]) == [1] && Refs(g[4]) == [3]
    ensures Contains(g, 4, 1)
  {
    hide Refs, Members, ValidGraph;
    var w := [Place(3, false), Place(2, true), Place(1, false)];
    assert Step(g, 3, false, 2, true) && Step(g, 2, true, 1, false);
    assert Walk(g, w) && w[0].id in Refs(g[4]);
  }

  /** An empty struct, one that contains itself, one with both, and one with the first. */
  function Queuing(): seq<Type> {
    [VOID, StructOf(1, []), StructOf(2, [2]), StructOf(3, [1, 2]), StructOf(4, [1])]
  }

  /** A failed call for the third has queued the first, which is then never written out. Then a call for the
      fourth writes it out without what it contains. */
  lemma LostQueueMisleads(refd: seq<bool>, budget: nat)
    requires |refd| == 5 && budget >= 3
    ensures ValidGraph(Queuing()) && Contains(Queuing(), 4, 1)
    ensures var v := Visit(Queuing(), refd, AtFirst(5), 3, false, budget);
      v.link == Stop(Loop) && v.queue == [1] && var v' := Visit(Queuing(), refd, v.order, 4, false, budget);
      v'.link == Strong && v'.queue == [4]
  {
    hide Visit, VisitAll, Contains, Below, ValidGraph, Members;
    var g, order := Queuing(), AtFirst(5);
    QueuingParts();
    var order1 := order[3 := Ordering];
    VisitBelow(g, refd, order, 3, false, budget);
    QueuedThenStopped(g, refd, order1, 1, 2, budget - 1);
    WrittenAlone(g, refd, Visit(g, refd, order, 3, false, budget).order, 1, 4, budget);
  }

  /** A struct without members, then one that contains itself. */
  lemma QueuedThenStopped(g: seq<Type>, refd: seq<bool>, order: seq<OrderState>, a: nat, b: nat, budget: nat)
    requires ValidGraph(g) && |refd| == |g| == |order| && a < |g| && b < |g| && a != b && budget >= 2
    requires Named(g[a]) && Below(g[a]) == [] && IsComposite(g[b]) && Below(g[b]) == [b]
    requires order[a] == order[b] == NotOrdered
    ensures VisitAll(g, refd, order, [a, b], false, budget) == Run(Stop(Loop), order[a := Ordered][b := Ordering], [a])
  {
    hide Visit, VisitAll, Below, ValidGraph;
    AllNext(g, refd, order, [a, b], false, budget);
    VisitBelow(g, refd, order, a, false, budget);
    VisitNone(g, refd, order[a := Ordering], false, budget - 1);
    assert order[a := Ordering][a := Ordered] == order[a := Ordered] && [a, b][1..] == [b];
    VisitOne(g, refd, order[a := Ordered], b, false, budget);
    SelfStructStops(g, refd, order[a := Ordered], b, budget);
  }

  /** A struct whose one member is marked. */
  lemma WrittenAlone(g: seq<Type>, refd: seq<bool>, order: seq<OrderState>, a: nat, b: nat, budget: nat)
    requires ValidGraph(g) && |refd| == |g| == |order| && a < |g| && b < |g| && a != b && budget >= 1
    requires order[a] == Ordered && order[b] == NotOrdered && Named(g[b]) && Below(g[b]) == [a]
    ensures var v := Visit(g, refd, order, b, false, budget); v.link == Strong && v.queue == [b]
  {
    hide Visit, VisitAll, Below, ValidGraph;
    VisitBelow(g, refd, order, b, false, budget);
    VisitOne(g, refd, order[b := Ordering], a, false, budget - 1);
    VisitOrdered(g, refd, order[b := Ordering], a, false, budget - 1);
  }

  lemma VisitNone(g: seq<Type>, refd: seq<bool>, order: seq<OrderState>, ptr: bool, budget: nat)
    requires ValidGraph(g) && |refd| == |g| == |order|
    ensures VisitAll(g, refd, order, [], ptr, budget) == Run(Weak, order, [])
  {
  }

  lemma QueuingParts()
    ensures ValidGraph(Queuing()) && Contains(Queuing(), 4, 1)
    ensures var g := Queuing(); Below(g[1]) == [] && Below(g[2]) == [2] && Below(g[3]) == [1, 2] && Below(g[4]) == [1]
  {
    hide Refs, Members, Contains;
    var g := Queuing();
    VoidRefs();
    StructBelow(1, []);
    StructBelow(2, [2]);
    StructBelow(3, [1, 2]);
    StructBelow(4, [1]);
    DirectMember(g, 4, 1);
  }

  lemma DirectMember(g: seq<Type>, x: nat, y: nat)
    requires ValidGraph(g) && x < |g| && y < |g| && IsComposite(g[x]) && Named(g[y]) && y in Refs(g[x])
    ensures Contains(g, x, y)
  {
    hide Refs;
    var w := [Place(y, false)];
    assert Walk(g, w) && w[0].id in Refs(g[x]);
  }
}
