/** The state that all passes of deduplication share. */
module DedupState {
  import opened Memory
  import opened BtfTypes
  import opened Meaning
  import opened TypeEquality
  import opened CanonMap
  import opened GraphMatch
  import Hashmap

  /** What a canonical type keeps of the type that it stands for: the name and the kind, except that
      a forward declaration may give way to a struct or union of the declared kind, and an empty enum
      to an enum of either width. */
  predicate Keeps(t: Type, canon: Type) {
    t.name == canon.name &&
    ( || (t.kind == canon.kind && (t.kind.Fwd? ==> t.kflag == canon.kflag)
          && (IsAnyEnum(t) && t.vlen > 0 ==> canon.vlen > 0))
      || (t.kind.Fwd? && canon.kind == FwdKind(t))
      || (IsEnumFwd(t) && IsAnyEnum(canon)))
  }

  ghost predicate AllKeep(g: seq<Type>, m: seq<nat>) {
    |m| == |g| && forall i :: 0 <= i < |m| && m[i] < |m| ==> Keeps(g[i], g[m[i]])
  }

  lemma {:induction false} ResolveKeeps(g: seq<Type>, m: seq<nat>, i: nat)
    requires Acyclic(m) && AllKeep(g, m) && i < |m|
    ensures Keeps(g[i], g[Resolve(m, i)])
    decreases RankOf(m)[i]
  {
    if IsLink(m, i) {
      ResolveKeeps(g, m, m[i]);
    }
  }

  datatype Status = Done | Fail(error: Errno)

  /** A candidate table that compares hashes as numbers; the hash function is left open. */
  ghost predicate ByNumber(t: Hashmap.Table) {
    forall a, b :: t.equalFn(a, b) <==> a == b
  }

  predicate IsDeduped(k: Kind) {
    IsPrimKind(k) || IsRefKind(k)
  }

  /** Table entries carry the signature of a mapped type. Only forward declarations and empty enums
      lose their place as canonical types once they are in the table. */
  ghost predicate Listed(g: seq<Type>, m: seq<nat>, entries: multiset<Hashmap.Entry>)
    requires ValidGraph(g) && |m| == |g|
  {
    forall e :: e in entries ==>
      && 0 <= e.value < |g|
      && e.key == Signature(g[e.value])
      && Mapped(m[e.value])
      && (m[e.value] == e.value || g[e.value].kind.Fwd? || IsEnumFwd(g[e.value]))
  }

  /** Every canonical type that has no members of its own is in the table. */
  ghost predicate Complete(g: seq<Type>, m: seq<nat>, entries: multiset<Hashmap.Entry>)
    requires ValidGraph(g) && |m| == |g|
  {
    forall j :: 0 <= j < |g| && m[j] == j && IsDeduped(g[j].kind) ==>
      Hashmap.Entry(Signature(g[j]), j) in entries
  }

  /** No canonical type from `start` on equals another canonical type. */
  ghost predicate Distinct(g: seq<Type>, m: seq<nat>, start: nat) {
    |m| == |g| &&
    forall i, j :: start <= i < |g| && 0 <= j < |g| && i != j && m[i] == i && m[j] == j && IsDeduped(g[i].kind) ==>
      g[i] != g[j]
  }

  class State {
    const startId: nat
    const table: Hashmap.Table
    const plenty: bool
    var types: seq<Type>
    var canon: seq<nat>
    var hypotMap: seq<nat>
    var hypotList: seq<nat>
    var hypotAdjustCanon: bool

    /** The part of the state that holds between any two steps, for all inputs. */
    ghost predicate Ok()
      reads this
    {
      && ValidGraph(types) && |types| <= MAX_NR_TYPES + 1
      && 0 < startId <= |types|
      && |canon| == |types| && Acyclic(canon) && AllKeep(types, canon)
      && Recorded(|types|, hypotMap, hypotList)
    }

    /** The state between two steps, with the candidate table. */
    ghost predicate Inv()
      reads this, table
    {
      && Ok()
      && table.Valid() && ByNumber(table)
      && Listed(types, canon, table.Contents())
      && Complete(types, canon, table.Contents())
      && Distinct(types, canon, startId)
    }

    constructor (g: seq<Type>, start: nat, t: Hashmap.Table, plenty: bool)
      requires ValidGraph(g) && |g| <= MAX_NR_TYPES + 1 && 0 < start <= |g|
      ensures Ok() && types == g && startId == start && table == t && this.plenty == plenty
      ensures hypotList == [] && !hypotAdjustCanon
      ensures |canon| == |g| && forall i :: 0 <= i < |g| ==> canon[i] == InitialEntry(g, i)
    {
      startId, table, types, this.plenty := start, t, g, plenty;
      hypotMap, hypotList, hypotAdjustCanon := seq(|g|, _ => UNPROCESSED), [], false;
      canon := seq(|g|, i requires 0 <= i < |g| => InitialEntry(g, i));
      new;
      assert Ranked(canon, seq(|g|, _ => 0));
    }
  }

  /** Void is canonical from the start, and so are the kinds that are never deduplicated. */
  function InitialEntry(g: seq<Type>, i: nat): nat
    requires i < |g|
  {
    if i == 0 || g[i].kind.Var? || g[i].kind.Datasec? || g[i].kind.Locsec? then i else UNPROCESSED
  }

  method ResolveFwdId(d: State, id: nat) returns (r: nat)
    requires d.Ok() && id < |d.types|
    ensures r == ResolveFwd(d.types, d.canon, id)
  {
    if !d.types[id].kind.Fwd? {
      return id;
    }
    r := ResolveTypeId(d.canon, id);
    if d.types[r].kind.Fwd? {
      r := id;
    }
  }

  lemma {:induction false} DistinctCount(list: seq<nat>, n: nat)
    requires InRange(list, n)
    requires forall i, j :: 0 <= i < j < |list| ==> list[i] != list[j]
    ensures |list| <= n
  {
    assert list != [] ==> list[0] < n;
    if n == 0 {
    } else if k :| 0 <= k < |list| && list[k] == n - 1 {
      DistinctCount(list[..k] + list[k + 1..], n - 1);
    } else {
      DistinctCount(list, n - 1);
    }
  }

  method HypotMapAdd(d: State, fromId: nat, toId: nat) returns (ok: bool)
    requires d.Ok() && fromId < |d.types| && toId < |d.types| && !Mapped(d.hypotMap[fromId])
    modifies d`hypotMap, d`hypotList
    ensures d.Ok() && (d.plenty ==> ok)
    ensures !ok ==> d.hypotMap == old(d.hypotMap) && d.hypotList == old(d.hypotList)
    ensures ok ==> d.hypotList == old(d.hypotList) + [fromId] && |old(d.hypotList)| < |d.types|
    ensures ok ==> d.hypotMap == old(d.hypotMap)[fromId := toId]
  {
    ok := Ask(d.plenty);
    if !ok {
      return;
    }
    d.hypotList := d.hypotList + [fromId];
    d.hypotMap := d.hypotMap[fromId := toId];
    DistinctCount(d.hypotList, |d.types|);
  }

  method ClearHypotMap(d: State)
    requires d.Ok()
    modifies d`hypotMap, d`hypotList, d`hypotAdjustCanon
    ensures d.Ok() && d.hypotList == [] && !d.hypotAdjustCanon
    ensures forall i :: 0 <= i < |d.types| ==> d.hypotMap[i] == UNPROCESSED
  {
    var i := 0;
    while i < |d.hypotList|
      invariant i <= |d.hypotList| && d.hypotList == old(d.hypotList)
      invariant |d.hypotMap| == |d.types|
      invariant forall x :: 0 <= x < |d.types| && x !in d.hypotList[..i] ==> d.hypotMap[x] == old(d.hypotMap)[x]
      invariant forall x :: 0 <= x < |d.types| && x in d.hypotList[..i] ==> d.hypotMap[x] == UNPROCESSED
    {
      d.hypotMap := d.hypotMap[d.hypotList[i] := UNPROCESSED];
      assert d.hypotList[..i + 1] == d.hypotList[..i] + [d.hypotList[i]];
      i := i + 1;
    }
    assert d.hypotList[..i] == d.hypotList;
    d.hypotList := [];
    d.hypotAdjustCanon := false;
  }
}
