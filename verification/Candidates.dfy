/** Looking up candidates for a type and settling on one. */
module Candidates {
  import opened BtfTypes
  import opened Meaning
  import opened TypeEquality
  import opened CanonMap
  import opened GraphMatch
  import opened DedupState
  import Hashmap

  lemma EqualTypesEquivalent(g: seq<Type>, a: nat, b: nat)
    requires ValidGraph(g) && a < |g| && b < |g| && g[a] == g[b]
    ensures Equivalent(g, a, b)
  {
  }

  /** The types that the table has under one signature, in the order of the chain. */
  method Sharing(d: State, h: int) returns (ids: seq<nat>)
    requires d.Inv()
    ensures forall i :: 0 <= i < |ids| ==> ids[i] < |d.types| && Hashmap.Entry(h, ids[i]) in d.table.Contents()
    ensures forall j: nat :: Hashmap.Entry(h, j) in d.table.Contents() ==> j in ids
  {
    hide Signature, Refs, Acyclic, AllKeep, Complete, Distinct, Recorded, ValidGraph;
    hide Hashmap.Table.Valid, Hashmap.All, Hashmap.Matching;
    var cands := d.table.EntriesOf(h);
    forall e: Hashmap.Entry
      ensures e in cands <==> e in d.table.Contents() && e.key == h
    {
      d.table.EntriesOfExact(h, e);
      assert e in cands <==> e in multiset(cands);
    }
    assert forall i :: 0 <= i < |cands| ==> cands[i] in cands;
    ids := seq(|cands|, i requires 0 <= i < |cands| => cands[i].value);
    forall j: nat | Hashmap.Entry(h, j) in d.table.Contents()
      ensures j in ids
    {
      var k :| 0 <= k < |cands| && cands[k] == Hashmap.Entry(h, j);
      assert ids[k] == j;
    }
  }

  /** The first candidate that equals the type, or the type itself. */
  method FindEqual(d: State, typeId: nat) returns (newId: nat)
    requires d.Inv() && typeId < |d.types| && IsDeduped(d.types[typeId].kind) && !Mapped(d.canon[typeId])
    ensures newId < |d.types| && d.types[newId] == d.types[typeId]
    ensures newId != typeId ==> Hashmap.Entry(Signature(d.types[typeId]), newId) in d.table.Contents()
    ensures newId == typeId ==>
      forall j :: 0 <= j < |d.types| && j != typeId && d.canon[j] == j ==> d.types[j] != d.types[typeId]
  {
    hide Signature, Refs, Acyclic, AllKeep, Distinct, Recorded, Equal;
    hide Hashmap.Table.Valid, Hashmap.All;
    var t := d.types[typeId];
    var ids := Sharing(d, Signature(t));
    var i := 0;
    while i < |ids|
      invariant i <= |ids|
      invariant forall k :: 0 <= k < i ==> d.types[ids[k]] != t
    {
      EqualIsEquality(t, d.types[ids[i]]);
      if Equal(t, d.types[ids[i]]) {
        return ids[i];
      }
      i := i + 1;
    }
    newId := typeId;
  }

  /** What settling the canonical id of a type takes: an unmapped type is its own canonical type only
      if it is unlike all others, and another id must keep name and kind and not lead back. */
  ghost predicate MaySettle(g: seq<Type>, m: seq<nat>, typeId: nat, newId: nat)
    requires Acyclic(m) && |m| == |g|
  {
    && typeId < |g| && newId < |g| && !Mapped(m[typeId])
    && (newId == typeId && IsDeduped(g[typeId].kind) ==>
          forall j :: 0 <= j < |g| && j != typeId && m[j] == j ==> g[j] != g[typeId])
    && (newId != typeId ==> Resolve(m, newId) != typeId && Keeps(g[typeId], g[newId]))
  }

  lemma SettleMap(g: seq<Type>, m: seq<nat>, typeId: nat, newId: nat)
    requires Acyclic(m) && AllKeep(g, m) && MaySettle(g, m, typeId, newId)
    ensures Acyclic(m[typeId := newId]) && AllKeep(g, m[typeId := newId])
  {
    if newId == typeId {
      MarkEnd(m, typeId, newId);
    } else {
      LinkEnd(m, typeId, newId);
    }
  }

  lemma SettleDistinct(g: seq<Type>, m: seq<nat>, start: nat, typeId: nat, newId: nat)
    requires Acyclic(m) && |m| == |g| && MaySettle(g, m, typeId, newId) && Distinct(g, m, start)
    ensures Distinct(g, m[typeId := newId], start)
  {
    hide IsDeduped, Keeps, Acyclic;
    var m' := m[typeId := newId];
    forall i, j | start <= i < |g| && 0 <= j < |g| && i != j && m'[i] == i && m'[j] == j && IsDeduped(g[i].kind)
      ensures g[i] != g[j]
    {
      assert i != typeId && j != typeId ==> m[i] == i && m[j] == j;
    }
  }

  lemma SettleTable(g: seq<Type>, m: seq<nat>, entries: multiset<Hashmap.Entry>, typeId: nat, newId: nat)
    requires ValidGraph(g) && |m| == |g| <= MAX_NR_TYPES + 1 && typeId < |g| && newId < |g| && !Mapped(m[typeId])
    requires Listed(g, m, entries) && Complete(g, m, entries)
    ensures newId != typeId ==> Listed(g, m[typeId := newId], entries) && Complete(g, m[typeId := newId], entries)
    ensures newId == typeId ==>
      var entries' := entries + multiset{Hashmap.Entry(Signature(g[typeId]), typeId)};
      Listed(g, m[typeId := newId], entries') && Complete(g, m[typeId := newId], entries')
  {
    hide Signature, Refs, IsDeduped;
    var own := Hashmap.Entry(Signature(g[typeId]), typeId);
    var entries' := if newId == typeId then entries + multiset{own} else entries;
    var m' := m[typeId := newId];
    forall e | e in entries'
      ensures 0 <= e.value < |g| && e.key == Signature(g[e.value]) && Mapped(m'[e.value])
      ensures m'[e.value] == e.value || g[e.value].kind.Fwd? || IsEnumFwd(g[e.value])
    {
      if e in entries {
        assert e.value != typeId;
      }
    }
    forall j | 0 <= j < |g| && m'[j] == j && IsDeduped(g[j].kind)
      ensures Hashmap.Entry(Signature(g[j]), j) in entries'
    {
      if j != typeId {
        assert m[j] == j;
      }
    }
  }

  /** Record the canonical id of a type, and make it a candidate if that is the type itself. */
  method Settle(d: State, typeId: nat, newId: nat) returns (r: Status)
    requires d.Inv() && MaySettle(d.types, d.canon, typeId, newId)
    modifies d`canon, d.table
    ensures d.Ok() && d.canon == old(d.canon)[typeId := newId]
    ensures r == Done ==> d.Inv()
    ensures r == Done || r == Fail(NoMem)
    ensures d.plenty && old(d.table.sz) < Hashmap.MANY ==> r == Done
    ensures r == Done && typeId == newId ==>
      d.table.Contents() == old(d.table.Contents()) + multiset{Hashmap.Entry(Signature(d.types[typeId]), typeId)}
    ensures d.table.sz <= old(d.table.sz) + 1
  {
    hide Signature, Refs, Recorded, Keeps, IsDeduped, Listed, Complete, Distinct;
    hide Hashmap.Table.Valid, Hashmap.All;
    SettleMap(d.types, d.canon, typeId, newId);
    SettleDistinct(d.types, d.canon, d.startId, typeId, newId);
    SettleTable(d.types, d.canon, d.table.Contents(), typeId, newId);
    d.canon := d.canon[typeId := newId];
    r := Done;
    if typeId == newId {
      var outcome, _ := d.table.Insert(Signature(d.types[typeId]), typeId, Hashmap.Append, d.plenty);
      if outcome != Hashmap.Done {
        r := Fail(NoMem);
      } else {
        assert d.table.Contents() == old(d.table.Contents()) + multiset{Hashmap.Entry(Signature(d.types[typeId]),
          typeId)};
      }
    }
  }
}
