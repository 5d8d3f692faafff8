/** Before the passes: all base types become canonical, and candidates. */
module PrepPass {
  import opened BtfTypes
  import opened Meaning
  import opened TypeEquality
  import opened CanonMap
  import opened GraphMatch
  import opened DedupState
  import Hashmap

  /** No own type that is to be deduplicated has been looked at. */
  ghost predicate OwnFresh(g: seq<Type>, m: seq<nat>, start: nat) {
    |m| == |g| && forall i :: start <= i < |g| ==> m[i] == InitialEntry(g, i)
  }

  predicate IsKept(k: Kind) {
    k.Var? || k.Datasec? || k.Locsec?
  }

  lemma FreshDistinct(g: seq<Type>, m: seq<nat>, start: nat)
    requires 0 < start && OwnFresh(g, m, start) && |g| <= MAX_NR_TYPES + 1
    ensures Distinct(g, m, start)
  {
  }

  lemma PrepEntry(g: seq<Type>, m: seq<nat>, entries: multiset<Hashmap.Entry>, id: nat)
    requires ValidGraph(g) && |m| == |g| <= MAX_NR_TYPES + 1 && id < |g|
    requires Listed(g, m, entries) && Complete(g, m, entries)
    requires forall e :: e in entries ==> e.value != id
    ensures var entries' := entries + multiset{Hashmap.Entry(Signature(g[id]), id)};
      Listed(g, m[id := id], entries') && Complete(g, m[id := id], entries')
    ensures IsKept(g[id].kind) ==> Listed(g, m[id := id], entries) && Complete(g, m[id := id], entries)
  {
    hide Signature, Refs;
    var own := Hashmap.Entry(Signature(g[id]), id);
    var m' := m[id := id];
    assert forall j :: 0 <= j < |g| && m'[j] == j && j != id ==> m[j] == j;
    forall e | e in entries + multiset{own}
      ensures 0 <= e.value < |g| && e.key == Signature(g[e.value]) && Mapped(m'[e.value])
    {
      assert e == own || e in entries;
    }
  }

  /** Make one base type canonical. */
  method PrepType(d: State, id: nat) returns (r: Status)
    requires d.Inv() && 0 < id < d.startId && OwnFresh(d.types, d.canon, d.startId)
    requires !IsLink(d.canon, id) && forall e :: e in d.table.Contents() ==> e.value != id
    modifies d`canon, d.table
    ensures d.Ok() && d.canon == old(d.canon)[id := id]
    ensures r == Done ==> d.Inv() && !d.types[id].kind.Other?
    ensures forall e :: e in d.table.Contents() ==> e in old(d.table.Contents()) || e.value == id
  {
    hide Signature, Refs, Recorded, Listed, Complete, Distinct, Hashmap.Table.Valid, Hashmap.All;
    MarkEnd(d.canon, id, id);
    PrepEntry(d.types, d.canon, d.table.Contents(), id);
    FreshDistinct(d.types, d.canon[id := id], d.startId);
    d.canon := d.canon[id := id];
    if IsKept(d.types[id].kind) {
      return Done;
    }
    if d.types[id].kind.Other? || d.types[id].kind.Void? {
      return Fail(Inval);
    }
    var outcome, _ := d.table.Insert(Signature(d.types[id]), id, Hashmap.Append, d.plenty);
    if outcome != Hashmap.Done {
      return Fail(NoMem);
    }
    assert d.table.Contents() == old(d.table.Contents()) + multiset{Hashmap.Entry(Signature(d.types[id]), id)};
    r := Done;
  }

  /** Make all base types canonical. */
  method Prep(d: State) returns (r: Status)
    requires d.Inv() && OwnFresh(d.types, d.canon, d.startId) && d.table.Contents() == multiset{}
    requires forall i :: 0 <= i < d.startId ==> d.canon[i] == InitialEntry(d.types, i)
    modifies d`canon, d.table
    ensures d.Ok()
    ensures r == Done ==> d.Inv() && OwnFresh(d.types, d.canon, d.startId)
    ensures r == Done ==> forall i :: 0 <= i < d.startId ==> d.canon[i] == i && (i > 0 ==> !d.types[i].kind.Other?)
    ensures r == Done ==> forall e :: e in d.table.Contents() ==> e.value < d.startId
  {
    hide Signature, Refs, Recorded, Listed, Complete, Distinct, Acyclic, AllKeep, Hashmap.Table.Valid, Hashmap.All;
    var id := 1;
    while id < d.startId
      invariant 1 <= id <= d.startId && d.Inv() && OwnFresh(d.types, d.canon, d.startId)
      invariant forall i :: 0 <= i < id ==> d.canon[i] == i && (i > 0 ==> !d.types[i].kind.Other?)
      invariant forall i :: id <= i < d.startId ==> d.canon[i] == InitialEntry(d.types, i)
      invariant forall e :: e in d.table.Contents() ==> 0 < e.value < id
    {
      r := PrepType(d, id);
      if r != Done {
        return;
      }
      id := id + 1;
    }
    r := Done;
  }
}
