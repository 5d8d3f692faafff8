/** The map from type ids to canonical type ids. Entries are ids, or one of two marks above
    every id; a chain of entries is followed until an entry maps to itself or to a mark. */
module CanonMap {

  const MAX_NR_TYPES: nat := 0x7fff_ffff
  const UNPROCESSED: nat := 0xffff_ffff
  const IN_PROGRESS: nat := 0xffff_fffe

  predicate Mapped(v: nat) {
    v <= MAX_NR_TYPES
  }

  ghost predicate ValidMap(m: seq<nat>) {
    && |m| <= MAX_NR_TYPES + 1
    && (forall i :: 0 <= i < |m| ==> m[i] < |m| || m[i] == UNPROCESSED || m[i] == IN_PROGRESS)
  }

  /** Entry `i` leads on to another entry. */
  predicate IsLink(m: seq<nat>, i: nat)
    requires i < |m|
  {
    Mapped(m[i]) && m[i] != i
  }

  ghost predicate Ranked(m: seq<nat>, rank: seq<nat>)
    requires ValidMap(m)
  {
    |rank| == |m| && forall i :: 0 <= i < |m| && IsLink(m, i) ==> rank[m[i]] < rank[i]
  }

  /** Following the map never comes back. */
  ghost predicate Acyclic(m: seq<nat>) {
    ValidMap(m) && exists rank :: Ranked(m, rank)
  }

  ghost function RankOf(m: seq<nat>): (rank: seq<nat>)
    requires Acyclic(m)
    ensures Ranked(m, rank)
  {
    var rank :| Ranked(m, rank);
    rank
  }

  /** Where the chain from `id` ends. */
  ghost function Resolve(m: seq<nat>, id: nat): (r: nat)
    requires Acyclic(m) && id < |m|
    ensures r < |m| && !IsLink(m, r)
    decreases RankOf(m)[id]
  {
    if IsLink(m, id) then Resolve(m, m[id]) else id
  }

  /** Redirect any entry to an end of a chain. */
  lemma LinkToEnd(m: seq<nat>, x: nat, y: nat)
    requires Acyclic(m) && x < |m| && y < |m| && x != y && !IsLink(m, y)
    ensures Acyclic(m[x := y])
  {
    var rank := RankOf(m);
    var rank' := seq(|m|, i requires 0 <= i < |m| => if i == y then 0 else rank[i] + 1);
    assert Ranked(m[x := y], rank');
  }

  /** Redirect an end of a chain to an entry of another chain. */
  lemma LinkEnd(m: seq<nat>, x: nat, y: nat)
    requires Acyclic(m) && x < |m| && y < |m| && !IsLink(m, x) && Resolve(m, y) != x
    ensures Acyclic(m[x := y])
  {
    var rank := RankOf(m);
    var rank' := seq(|m|, i requires 0 <= i < |m| => if Resolve(m, i) == x then rank[i] + rank[y] + 1 else rank[i]);
    assert Ranked(m[x := y], rank');
  }

  /** After an end has been redirected, the chains that ended there end where the new chain does. */
  lemma {:induction false} ResolveAfterLink(m: seq<nat>, x: nat, y: nat, z: nat)
    requires Acyclic(m) && x < |m| && y < |m| && z < |m| && !IsLink(m, x) && Resolve(m, y) != x
    requires Acyclic(m[x := y])
    ensures Resolve(m[x := y], z) == if Resolve(m, z) == x then Resolve(m, y) else Resolve(m, z)
    decreases RankOf(m[x := y])[z]
  {
    var m' := m[x := y];
    if IsLink(m', z) {
      ResolveAfterLink(m, x, y, m'[z]);
    }
  }

  /** Marking an end, or making it its own canonical id, changes no chain. */
  lemma MarkEnd(m: seq<nat>, x: nat, v: nat)
    requires Acyclic(m) && x < |m| && !IsLink(m, x)
    requires v == x || v == UNPROCESSED || v == IN_PROGRESS
    ensures Acyclic(m[x := v])
    ensures forall z :: 0 <= z < |m| ==> Resolve(m[x := v], z) == Resolve(m, z)
  {
    assert Ranked(m[x := v], RankOf(m));
    forall z | 0 <= z < |m|
      ensures Resolve(m[x := v], z) == Resolve(m, z)
    {
      ResolveAfterMark(m, x, v, z);
    }
  }

  lemma {:induction false} ResolveAfterMark(m: seq<nat>, x: nat, v: nat, z: nat)
    requires Acyclic(m) && x < |m| && z < |m| && !IsLink(m, x)
    requires v == x || v == UNPROCESSED || v == IN_PROGRESS
    requires Acyclic(m[x := v])
    ensures Resolve(m[x := v], z) == Resolve(m, z)
    decreases RankOf(m)[z]
  {
    if IsLink(m, z) {
      ResolveAfterMark(m, x, v, m[z]);
    }
  }

  /** Follow the map from `id` to the end of its chain. */
  method ResolveTypeId(m: seq<nat>, id: nat) returns (r: nat)
    requires Acyclic(m) && id < |m|
    ensures r == Resolve(m, id)
  {
    r := id;
    while Mapped(m[r]) && m[r] != r
      invariant r < |m| && Resolve(m, r) == Resolve(m, id)
      decreases RankOf(m)[r]
    {
      r := m[r];
    }
  }
}
