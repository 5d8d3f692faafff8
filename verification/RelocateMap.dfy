/** Finding, for every type of a distilled base, the type of the real base that it stands for. */
module RelocateMap {
  import opened BtfTypes
  import opened Meaning
  import opened CanonMap
  import opened GraphMatch
  import opened DedupState
  import opened NameIndex
  import opened Embedding
  import Strset

  /** Types with their string section, not split. */
  datatype Btf = Btf(types: seq<Type>, strs: string)

  /** Well-formed types with names; what they refer to does not matter to a search by name. */
  ghost predicate ValidBtf(b: Btf) {
    && 0 < |b.types| <= MAX_NR_TYPES + 1 && b.types[0] == VOID
    && (forall i :: 0 <= i < |b.types| ==> WellFormed(b.types[i]))
    && (forall i :: 0 <= i < |b.types| ==> b.types[i].name < |b.strs|)
  }

  function NameOf(b: Btf, id: nat): string
    requires id < |b.types|
  {
    Strset.StrAt(b.strs, b.types[id].name)
  }

  /** Sizes have 31 bits in the index. */
  function Size31(t: Type): nat {
    t.st % 0x8000_0000
  }

  function InfoOf(dist: Btf, id: nat): NameInfo
    requires id < |dist.types|
  {
    NameInfo(NameOf(dist, id), true, Size31(dist.types[id]), id)
  }

  // ----- names that structs and unions of the base share -----

  /** The structs and unions among the first `n` types that have one name offset. */
  ghost function Namesakes(g: seq<Type>, off: nat, n: nat): set<nat>
    requires n <= |g|
  {
    set j | 0 < j < n && IsComposite(g[j]) && g[j].name == off
  }

  lemma NamesakesStep(g: seq<Type>, off: nat, n: nat)
    requires n < |g|
    ensures n == 0 ==> Namesakes(g, off, 1) == {}
    ensures n > 0 ==>
      |Namesakes(g, off, n + 1)| == |Namesakes(g, off, n)| + if IsComposite(g[n]) && g[n].name == off then 1 else 0
  {
    if n > 0 {
      assert Namesakes(g, off, n + 1) ==
        Namesakes(g, off, n) + if IsComposite(g[n]) && g[n].name == off then {n} else {};
    }
  }

  function Capped(n: nat): nat {
    if n < 255 then n else 255
  }

  method CountNames(b: Btf) returns (cnt: seq<nat>)
    requires ValidBtf(b)
    ensures |cnt| == |b.strs|
    ensures forall off :: 0 < off < |cnt| ==> cnt[off] == Capped(|Namesakes(b.types, off, |b.types|)|)
  {
    hide Refs, Namesakes;
    cnt := seq(|b.strs|, _ => 0);
    var id := 1;
    forall off | 0 < off < |cnt|
      ensures Namesakes(b.types, off, 1) == {}
    {
      NamesakesStep(b.types, off, 0);
    }
    while id < |b.types|
      invariant 0 < id <= |b.types| && |cnt| == |b.strs|
      invariant forall off :: 0 < off < |cnt| ==> cnt[off] == Capped(|Namesakes(b.types, off, id)|)
    {
      var t := b.types[id];
      forall off | 0 < off < |cnt|
        ensures |Namesakes(b.types, off, id + 1)| ==
          |Namesakes(b.types, off, id)| + if IsComposite(t) && t.name == off then 1 else 0
      {
        NamesakesStep(b.types, off, id);
      }
      if IsComposite(t) && t.name != 0 && cnt[t.name] < 255 {
        cnt := cnt[t.name := cnt[t.name] + 1];
      }
      id := id + 1;
    }
  }

  // ----- which base type fits which distilled type -----

  /** The kinds of base types that are looked up. */
  predicate IsSearched(k: Kind) {
    k.Int? || k.Float? || k.Enum? || k.Enum64? || k.Fwd? || k.Struct? || k.Union?
  }

  ghost predicate NeedsSize(g: seq<Type>, id: nat)
    requires id < |g|
  {
    if IsComposite(g[id]) then |Namesakes(g, g[id].name, |g|)| > 1 else !g[id].kind.Fwd?
  }

  ghost function KeyOf(base: Btf, id: nat): NameInfo
    requires id < |base.types|
  {
    var t := base.types[id];
    NameInfo(NameOf(base, id), NeedsSize(base.types, id), if t.kind.Fwd? then 0 else Size31(t), id)
  }

  function IntEncoding(t: Type): nat
    requires WellFormed(t) && t.kind.Int?
  {
    t.extra[0] / 0x100_0000 % 16
  }

  predicate KindFits(dist: Type, base: Type)
    requires WellFormed(dist) && WellFormed(base)
  {
    match dist.kind
    case Fwd => (
      match base.kind
      case Fwd => dist.kflag == base.kflag
      case Struct => !base.kflag
      case Union => base.kflag
      case _ => false)
    case Int => base.kind.Int? && IntEncoding(base) == IntEncoding(dist)
    case Float => base.kind.Float?
    case Enum => base.kind.Enum? || base.kind.Enum64?
    case Struct => true
    case Union => true
    case _ => false
  }

  /** The lookup of base type `b` comes across distilled type `d`. */
  ghost predicate Found(dist: Btf, base: Btf, b: nat, d: nat)
    requires d < |dist.types| && b < |base.types|
  {
    base.types[b].name != 0 && IsSearched(base.types[b].kind) && Alike(KeyOf(base, b), InfoOf(dist, d))
  }

  /** Base type `b` fits distilled type `d`, sizes of embedded types aside. */
  ghost predicate Fits(dist: Btf, base: Btf, b: nat, d: nat)
    requires ValidBtf(dist) && ValidBtf(base) && d < |dist.types|
  {
    0 < b < |base.types| && Found(dist, base, b, d) && KindFits(dist.types[d], base.types[b])
  }

  /** Base type `b` fits distilled type `d`, and has its size if that is embedded in an own type. */
  ghost predicate FitsWell(dist: Btf, base: Btf, g: seq<Type>, b: nat, d: nat)
    requires ValidBtf(dist) && ValidBtf(base) && ValidGraph(g) && d < |dist.types|
  {
    Fits(dist, base, b, d) && (Embedded(g, |dist.types|, d) ==> base.types[b].st == dist.types[d].st)
  }

  /** The one base type for `d`: the only one that fits well, and none after it that merely fits. */
  ghost predicate StandsFor(dist: Btf, base: Btf, g: seq<Type>, b: nat, d: nat)
    requires ValidBtf(dist) && ValidBtf(base) && ValidGraph(g) && d < |dist.types|
  {
    && FitsWell(dist, base, g, b, d)
    && (forall c :: 0 < c < b ==> !FitsWell(dist, base, g, c, d))
    && (forall c :: b < c < |base.types| ==> !Fits(dist, base, c, d))
  }

  /** A base type whose name is empty although its offset is not 0 comes across void. */
  ghost predicate FindsVoid(dist: Btf, base: Btf, upTo: nat)
    requires ValidBtf(dist) && ValidBtf(base) && upTo <= |base.types|
  {
    exists b :: 0 < b < upTo && Found(dist, base, b, 0)
  }

  // ----- the state of the map -----

  /** What the entry for `d` says after the base types below `n`. */
  ghost predicate EntryAt(dist: Btf, base: Btf, g: seq<Type>, n: nat, d: nat, v: nat)
    requires ValidBtf(dist) && ValidBtf(base) && ValidGraph(g) && d < |dist.types|
  {
    if v == 0 || v == IS_EMBEDDED then
      && (v == IS_EMBEDDED <==> Embedded(g, |dist.types|, d))
      && (forall c :: 0 < c < n ==> !FitsWell(dist, base, g, c, d))
    else
      && v < n && FitsWell(dist, base, g, v, d)
      && (forall c :: 0 < c < v ==> !FitsWell(dist, base, g, c, d))
      && (forall c :: v < c < n ==> !Fits(dist, base, c, d))
  }

  predicate IsFound(v: nat) {
    v != 0 && v != IS_EMBEDDED
  }

  ghost predicate NameTaken(dist: Btf, ids: seq<nat>, off: nat)
    requires |dist.types| <= |ids|
  {
    exists d :: 0 < d < |dist.types| && dist.types[d].name == off && IsFound(ids[d])
  }

  /** The map of name offsets: an entry per name of a distilled type that has been found. */
  ghost predicate NamesSoFar(dist: Btf, base: Btf, ids: seq<nat>, strMap: seq<nat>)
    requires |dist.types| <= |ids|
  {
    && |strMap| == |dist.strs|
    && (forall off :: 0 <= off < |strMap| ==> (strMap[off] != 0 <==> NameTaken(dist, ids, off)))
    && (forall off :: 0 <= off < |strMap| && strMap[off] != 0 ==>
          strMap[off] < |base.strs| && Strset.StrAt(base.strs, strMap[off]) == Strset.StrAt(dist.strs, off))
  }

  /** The index of the distilled base: every type once. */
  ghost predicate IndexOf(dist: Btf, info: seq<NameInfo>) {
    && Sized(info) && Sorted(info)
    && (forall i :: 0 <= i < |info| ==> info[i].id < |dist.types| && info[i] == InfoOf(dist, info[i].id))
    && (forall i, j :: 0 <= i < j < |info| ==> info[i].id != info[j].id)
    && (forall d :: 0 <= d < |dist.types| ==> InfoOf(dist, d) in info)
  }

  method MakeIndex(dist: Btf) returns (info: seq<NameInfo>)
    ensures IndexOf(dist, info)
  {
    hide Cmp;
    var all := seq(|dist.types|, d requires 0 <= d < |dist.types| => InfoOf(dist, d));
    info := Sort(all);
    OnceEach(dist, all, info);
  }

  lemma OnceEach(dist: Btf, all: seq<NameInfo>, info: seq<NameInfo>)
    requires |all| == |dist.types| && forall d :: 0 <= d < |all| ==> all[d] == InfoOf(dist, d)
    requires multiset(info) == multiset(all)
    ensures forall i :: 0 <= i < |info| ==> info[i].id < |dist.types| && info[i] == InfoOf(dist, info[i].id)
    ensures forall i, j :: 0 <= i < j < |info| ==> info[i].id != info[j].id
    ensures forall d :: 0 <= d < |dist.types| ==> InfoOf(dist, d) in info
  {
    forall i | 0 <= i < |info|
      ensures info[i].id < |dist.types| && info[i] == InfoOf(dist, info[i].id)
    {
      assert info[i] in multiset(info);
      var d :| 0 <= d < |all| && all[d] == info[i];
    }
    forall d | 0 <= d < |dist.types|
      ensures InfoOf(dist, d) in info
    {
      assert all[d] in multiset(all);
    }
    DistinctKept(all, info);
  }

  lemma {:induction false} AtMostOnce<T>(a: seq<T>, x: T)
    requires forall i, j :: 0 <= i < j < |a| ==> a[i] != a[j]
    ensures multiset(a)[x] <= 1
  {
    if a != [] {
      AtMostOnce(a[1..], x);
      assert a == [a[0]] + a[1..];
      assert a[0] !in a[1..];
    }
  }

  /** Reordering keeps elements distinct. */
  lemma DistinctKept<T>(a: seq<T>, b: seq<T>)
    requires multiset(a) == multiset(b) && forall i, j :: 0 <= i < j < |a| ==> a[i] != a[j]
    ensures forall i, j :: 0 <= i < j < |b| ==> b[i] != b[j]
  {
    forall i, j | 0 <= i < j < |b|
      ensures b[i] != b[j]
    {
      AtMostOnce(a, b[j]);
      assert b == b[..j] + [b[j]] + b[j + 1..];
      assert b[..j][i] == b[i];
    }
  }

  // ----- the search -----

  lemma EntryKept(dist: Btf, base: Btf, g: seq<Type>, n: nat, d: nat, v: nat)
    requires ValidBtf(dist) && ValidBtf(base) && ValidGraph(g) && 0 < n < |base.types| && 0 < d < |dist.types|
    requires EntryAt(dist, base, g, n, d, v)
    requires !FitsWell(dist, base, g, n, d) && (IsFound(v) ==> !Fits(dist, base, n, d))
    ensures EntryAt(dist, base, g, n + 1, d, v)
  {
    hide Fits, FitsWell, Embedded, ValidBtf;
  }

  lemma EntrySet(dist: Btf, base: Btf, g: seq<Type>, n: nat, d: nat, v: nat)
    requires ValidBtf(dist) && ValidBtf(base) && ValidGraph(g) && 0 < n < |base.types| && 0 < d < |dist.types|
    requires EntryAt(dist, base, g, n, d, v) && !IsFound(v) && FitsWell(dist, base, g, n, d)
    ensures EntryAt(dist, base, g, n + 1, d, n)
  {
    hide Fits, FitsWell, Embedded, Refs;
  }

  /** Two base types that fit: neither is the one. */
  lemma Ambiguous(dist: Btf, base: Btf, g: seq<Type>, n: nat, d: nat, v: nat)
    requires ValidBtf(dist) && ValidBtf(base) && ValidGraph(g) && 0 < n < |base.types| && 0 < d < |dist.types|
    requires EntryAt(dist, base, g, n, d, v) && IsFound(v) && Fits(dist, base, n, d)
    ensures forall b: nat :: !StandsFor(dist, base, g, b, d)
  {
    hide Fits, Embedded, Refs, Found;
    forall b: nat
      ensures !StandsFor(dist, base, g, b, d)
    {
      if b == v {
        assert Fits(dist, base, n, d);
      } else if b < v {
        assert b > 0 ==> !FitsWell(dist, base, g, b, d);
      } else {
        assert FitsWell(dist, base, g, v, d);
      }
    }
  }

  lemma EntryFinal(dist: Btf, base: Btf, g: seq<Type>, d: nat, v: nat)
    requires ValidBtf(dist) && ValidBtf(base) && ValidGraph(g) && 0 < d < |dist.types|
    requires EntryAt(dist, base, g, |base.types|, d, v)
    ensures IsFound(v) ==> StandsFor(dist, base, g, v, d)
    ensures !IsFound(v) ==> forall b: nat :: !StandsFor(dist, base, g, b, d)
  {
    hide Found, Embedded, Refs;
  }

  class Relocation {
    const dist: Btf
    const base: Btf
    /** The distilled types followed by the own types. */
    const g: seq<Type>
    var ids: seq<nat>
    var strMap: seq<nat>

    ghost predicate Valid()
      reads this
    {
      && ValidBtf(dist) && ValidBtf(base) && ValidGraph(g)
      && dist.types <= g && |ids| == |g| && |strMap| == |dist.strs| && NamesSoFar(dist, base, ids, strMap)
    }

    constructor (dist: Btf, base: Btf, g: seq<Type>)
      requires ValidBtf(dist) && ValidBtf(base) && ValidGraph(g) && dist.types <= g
      ensures Valid() && this.dist == dist && this.base == base && this.g == g
      ensures (forall i :: 0 <= i < |g| ==> ids[i] == 0) && (forall i :: 0 <= i < |strMap| ==> strMap[i] == 0)
    {
      this.dist, this.base, this.g := dist, base, g;
      ids, strMap := seq(|g|, _ => 0), seq(|dist.strs|, _ => 0);
    }

    /** Own types keep their order behind the types of the base. */
    method ShiftOwn()
      requires Valid() && forall i :: 0 <= i < |g| ==> ids[i] == 0
      modifies this`ids
      ensures Valid() && forall d :: 0 <= d < |dist.types| ==> ids[d] == 0
      ensures forall i :: |dist.types| <= i < |g| ==> ids[i] == i - |dist.types| + |base.types|
    {
      var id := |dist.types|;
      while id < |g|
        invariant |dist.types| <= id <= |g| && Valid()
        invariant forall d :: 0 <= d < |dist.types| ==> ids[d] == 0
        invariant forall i :: |dist.types| <= i < id ==> ids[i] == i - |dist.types| + |base.types|
      {
        OtherIds(dist, base, ids, ids[id := id - |dist.types| + |base.types|], strMap);
        ids := ids[id := id - |dist.types| + |base.types|];
        id := id + 1;
      }
    }

    /** The map when the lookup of base type `n` has come to the distilled types in `seen`. */
    ghost predicate At(n: nat, seen: set<nat>)
      requires Valid()
      reads this
    {
      forall d :: 0 < d < |dist.types| ==> EntryAt(dist, base, g, if d in seen then n + 1 else n, d, ids[d])
    }

    /** The lookup of base type `n` comes to distilled type `d`. */
    method Visit(n: nat, d: nat, ghost seen: set<nat>) returns (r: Status)
      requires Valid() && 0 < n < |base.types| && 0 < d < |dist.types| && d !in seen
      requires At(n, seen) && Found(dist, base, n, d)
      modifies this
      ensures Valid() && ids[0] == old(ids[0]) && ids[|dist.types|..] == old(ids[|dist.types|..])
      ensures r == Done ==> At(n, seen + {d})
      ensures r != Done ==> forall b: nat :: !StandsFor(dist, base, g, b, d)
    {
      hide Found, Embedded, Refs, EntryAt, NamesSoFar;
      var distT, baseT := dist.types[d], base.types[n];
      assert g[d] == distT;
      ghost var v := ids[d];
      assert EntryAt(dist, base, g, n, d, v);
      EntryEmbedded(dist, base, g, n, d, v);
      if !KindFits(distT, baseT) || (IsComposite(distT) && ids[d] == IS_EMBEDDED && baseT.st != distT.st) {
        EntryKept(dist, base, g, n, d, v);
        return Done;
      }
      if IsFound(ids[d]) {
        Ambiguous(dist, base, g, n, d, v);
        return Fail(Inval);
      }
      EntrySet(dist, base, g, n, d, v);
      NameFound(dist, base, ids, strMap, n, d);
      ids := ids[d := n];
      strMap := strMap[distT.name := baseT.name];
      r := Done;
    }
  }

  lemma EntryEmbedded(dist: Btf, base: Btf, g: seq<Type>, n: nat, d: nat, v: nat)
    requires ValidBtf(dist) && ValidBtf(base) && ValidGraph(g) && 0 < d < |dist.types| && dist.types <= g
    requires EntryAt(dist, base, g, n, d, v)
    ensures v == IS_EMBEDDED ==> Embedded(g, |dist.types|, d)
    ensures v == 0 ==> !Embedded(g, |dist.types|, d)
    ensures Embedded(g, |dist.types|, d) ==> IsComposite(dist.types[d])
  {
  }

  lemma OtherIds(dist: Btf, base: Btf, ids: seq<nat>, ids': seq<nat>, strMap: seq<nat>)
    requires |dist.types| <= |ids| == |ids'| && NamesSoFar(dist, base, ids, strMap)
    requires forall d :: 0 <= d < |dist.types| ==> ids'[d] == ids[d]
    ensures NamesSoFar(dist, base, ids', strMap)
  {
    hide Strset.StrAt;
    forall off | 0 <= off < |strMap|
      ensures NameTaken(dist, ids', off) <==> NameTaken(dist, ids, off)
    {
    }
  }

  lemma NameFound(dist: Btf, base: Btf, ids: seq<nat>, strMap: seq<nat>, n: nat, d: nat)
    requires ValidBtf(dist) && ValidBtf(base) && 0 < n < |base.types| && 0 < d < |dist.types| <= |ids|
    requires NamesSoFar(dist, base, ids, strMap) && Found(dist, base, n, d) && !IsFound(ids[d])
    ensures NamesSoFar(dist, base, ids[d := n], strMap[dist.types[d].name := base.types[n].name])
  {
    hide Refs, Strset.StrAt;
    var off := dist.types[d].name;
    forall o | 0 <= o < |strMap|
      ensures NameTaken(dist, ids[d := n], o) <==> o == off || NameTaken(dist, ids, o)
    {
      assert ids[d := n][d] == n;
      if NameTaken(dist, ids, o) {
        var x :| 0 < x < |dist.types| && dist.types[x].name == o && IsFound(ids[x]);
        assert ids[d := n][x] == ids[x];
      }
    }
  }
}
