/** Third pass over types: forward declarations that only one struct or union can stand for. */
module FwdPass {
  import opened BtfTypes
  import opened Meaning
  import opened CanonMap
  import opened GraphMatch
  import opened DedupState
  import opened StructPass
  import Hashmap

  /** The canonical structs and unions, among the first `n` types, of a name. */
  function Bearers(g: seq<Type>, m: seq<nat>, n: nat, name: nat): set<nat>
    requires |m| == |g| && n <= |g|
  {
    set j | 0 < j < n && IsComposite(g[j]) && m[j] == j && g[j].name == name
  }

  /** An entry of the names map: 0 stands for a name with several bearers. */
  ghost predicate EntryOk(g: seq<Type>, m: seq<nat>, n: nat, e: Hashmap.Entry)
    requires |m| == |g| && n <= |g|
  {
    e.key >= 0 && e.value >= 0 &&
    if e.value == 0 then |Bearers(g, m, n, e.key)| >= 2 else Bearers(g, m, n, e.key) == {e.value}
  }

  ghost predicate HasKey(entries: multiset<Hashmap.Entry>, name: int) {
    exists e :: e in entries && e.key == name
  }

  ghost predicate NamesMap(g: seq<Type>, m: seq<nat>, n: nat, entries: multiset<Hashmap.Entry>)
    requires |m| == |g| && n <= |g|
  {
    && (forall e :: e in entries ==> EntryOk(g, m, n, e))
    && (forall name: nat :: Bearers(g, m, n, name) != {} ==> HasKey(entries, name))
  }

  lemma BearersStep(g: seq<Type>, m: seq<nat>, n: nat, name: nat)
    requires |m| == |g| && 0 < n < |g|
    ensures Bearers(g, m, n + 1, name) ==
      Bearers(g, m, n, name) + (if IsComposite(g[n]) && m[n] == n && g[n].name == name then {n} else {})
  {
  }

  /** One more type: other names keep their bearers, and the entry of its own name is as given. */
  lemma NamesMapStep(g: seq<Type>, m: seq<nat>, n: nat, entries: multiset<Hashmap.Entry>,
                     entries': multiset<Hashmap.Entry>)
    requires |m| == |g| && 0 < n < |g| && NamesMap(g, m, n, entries)
    requires forall e: Hashmap.Entry :: e.key != g[n].name ==> (e in entries <==> e in entries')
    requires forall e :: e in entries' && e.key == g[n].name ==> EntryOk(g, m, n + 1, e)
    requires HasKey(entries', g[n].name)
    ensures NamesMap(g, m, n + 1, entries')
  {
    forall e | e in entries'
      ensures EntryOk(g, m, n + 1, e)
    {
      if e.key != g[n].name {
        assert EntryOk(g, m, n, e);
        BearersStep(g, m, n, e.key);
      }
    }
    forall name: nat | Bearers(g, m, n + 1, name) != {}
      ensures HasKey(entries', name)
    {
      BearersStep(g, m, n, name);
      if name != g[n].name {
        assert HasKey(entries, name);
        var e :| e in entries && e.key == name;
        assert e in entries';
      }
    }
  }

  lemma NamesMapSkip(g: seq<Type>, m: seq<nat>, n: nat, entries: multiset<Hashmap.Entry>)
    requires |m| == |g| && 0 < n < |g| && NamesMap(g, m, n, entries) && !(IsComposite(g[n]) && m[n] == n)
    ensures NamesMap(g, m, n + 1, entries)
  {
    forall name: nat
      ensures Bearers(g, m, n + 1, name) == Bearers(g, m, n, name)
    {
      BearersStep(g, m, n, name);
    }
    assert forall e :: e in entries ==> EntryOk(g, m, n, e);
  }

  lemma FirstOfName(g: seq<Type>, m: seq<nat>, n: nat, entries: multiset<Hashmap.Entry>)
    requires |m| == |g| && 0 < n < |g| && NamesMap(g, m, n, entries) && IsComposite(g[n]) && m[n] == n
    requires !HasKey(entries, g[n].name)
    ensures NamesMap(g, m, n + 1, entries + multiset{Hashmap.Entry(g[n].name, n)})
  {
    BearersStep(g, m, n, g[n].name);
    var e := Hashmap.Entry(g[n].name, n);
    assert e in entries + multiset{e};
    NamesMapStep(g, m, n, entries, entries + multiset{e});
  }

  lemma AnotherOfName(g: seq<Type>, m: seq<nat>, n: nat, entries: multiset<Hashmap.Entry>, was: Hashmap.Entry)
    requires |m| == |g| && 0 < n < |g| && NamesMap(g, m, n, entries) && IsComposite(g[n]) && m[n] == n
    requires was in entries && was.key == g[n].name && entries[was] == 1
    requires forall e :: e in entries && e.key == g[n].name ==> e == was
    ensures NamesMap(g, m, n + 1, entries - multiset{was} + multiset{Hashmap.Entry(g[n].name, 0)})
  {
    BearersStep(g, m, n, g[n].name);
    assert EntryOk(g, m, n, was);
    var b, b' := Bearers(g, m, n, g[n].name), Bearers(g, m, n + 1, g[n].name);
    assert b' == b + {n} && n !in b && |b'| == |b| + 1;
    var e := Hashmap.Entry(g[n].name, 0);
    var entries' := entries - multiset{was} + multiset{e};
    assert e in entries';
    NamesMapStep(g, m, n, entries, entries');
  }

  /** Enter one canonical struct or union under its name. */
  method AddName(g: seq<Type>, m: seq<nat>, id: nat, names: Hashmap.Table, plenty: bool) returns (r: Status)
    requires |m| == |g| && 0 < id < |g| && IsComposite(g[id]) && m[id] == id
    requires names.Valid() && names.Unique() && ByNumber(names) && NamesMap(g, m, id, names.Contents())
    modifies names
    ensures names.Valid() && names.Unique()
    ensures r == Done ==> NamesMap(g, m, id + 1, names.Contents())
  {
    hide Hashmap.Table.Valid, Hashmap.All, NamesMap, EntryOk;
    ghost var before := names.Contents();
    var name := g[id].name;
    var outcome, was := names.Insert(name, id, Hashmap.Add, plenty);
    if outcome == Hashmap.Exists {
      outcome, was := names.Insert(name, 0, Hashmap.Set, plenty);
      AnotherOfName(g, m, id, before, was.value);
    } else if outcome == Hashmap.Done {
      assert before - multiset{} == before;
      FirstOfName(g, m, id, before);
    }
    r := if outcome == Hashmap.Done then Done else Fail(NoMem);
  }

  /** Collect the names of all canonical structs and unions, of the base as well. */
  method FillUniqueNamesMap(d: State, names: Hashmap.Table) returns (r: Status)
    requires d.Ok() && d.table != names
    requires names.Valid() && ByNumber(names) && names.Contents() == multiset{}
    modifies names
    ensures names.Valid()
    ensures r == Done ==> NamesMap(d.types, d.canon, |d.types|, names.Contents())
  {
    hide Hashmap.Table.Valid, Hashmap.All, NamesMap, Refs, Recorded;
    EmptyNames(d.types, d.canon);
    var id := 1;
    while id < |d.types|
      invariant 0 < id <= |d.types| && names.Valid() && names.Unique()
      invariant NamesMap(d.types, d.canon, id, names.Contents())
    {
      if IsComposite(d.types[id]) && d.canon[id] == id {
        r := AddName(d.types, d.canon, id, names, d.plenty);
        if r != Done {
          return;
        }
      } else {
        NamesMapSkip(d.types, d.canon, id, names.Contents());
      }
      id := id + 1;
    }
    r := Done;
  }

  lemma EmptyNames(g: seq<Type>, m: seq<nat>)
    requires |m| == |g| > 0
    ensures NamesMap(g, m, 1, multiset{})
  {
    assert forall name: nat :: Bearers(g, m, 1, name) == {};
  }

  /** A forward declaration goes to the one canonical struct or union of its name, if that is of the
      declared kind, and stays as it is otherwise. */
  ghost predicate FwdResolved(g: seq<Type>, m: seq<nat>, m': seq<nat>, i: nat)
    requires |m| == |m'| == |g| && i < |g|
  {
    g[i].kind.Fwd? && m[i] == i ==>
      var bearers := Bearers(g, m, |g|, g[i].name);
      if m'[i] == i then forall j :: j in bearers && bearers == {j} ==> g[j].kind != FwdKind(g[i])
      else bearers == {m'[i]} && g[m'[i]].kind == FwdKind(g[i])
  }

  /** Only own forward declarations change, and each to what it resolves to. */
  ghost predicate FwdsResolved(g: seq<Type>, m: seq<nat>, m': seq<nat>, start: nat, upTo: nat) {
    && |m| == |m'| == |g| && start <= upTo <= |g|
    && (forall j :: 0 <= j < |g| && m'[j] != m[j] ==> start <= j < upTo && g[j].kind.Fwd? && m[j] == j)
    && (forall j :: start <= j < upTo ==> FwdResolved(g, m, m', j))
  }

  lemma Unchanged(g: seq<Type>, m: seq<nat>, m': seq<nat>, start: nat, upTo: nat, j: nat)
    requires FwdsResolved(g, m, m', start, upTo) && j < |g| && (j >= upTo || !g[j].kind.Fwd?)
    ensures m'[j] == m[j]
  {
  }

  lemma FwdSkip(g: seq<Type>, m: seq<nat>, m': seq<nat>, start: nat, id: nat)
    requires FwdsResolved(g, m, m', start, id) && id < |g| <= MAX_NR_TYPES + 1
    requires g[id].kind.Fwd? && m[id] == id ==>
      var bearers := Bearers(g, m, |g|, g[id].name);
      forall j :: j in bearers && bearers == {j} ==> g[j].kind != FwdKind(g[id])
    ensures FwdsResolved(g, m, m', start, id + 1)
  {
  }

  lemma FwdJoined(g: seq<Type>, m: seq<nat>, m': seq<nat>, start: nat, id: nat, j: nat)
    requires FwdsResolved(g, m, m', start, id) && id < |g| <= MAX_NR_TYPES + 1 && j < |g|
    requires g[id].kind.Fwd? && m[id] == id && Bearers(g, m, |g|, g[id].name) == {j} && g[j].kind == FwdKind(g[id])
    ensures FwdsResolved(g, m, m'[id := j], start, id + 1)
  {
    assert j in Bearers(g, m, |g|, g[id].name);
    var m1 := m'[id := j];
    forall i | start <= i <= id
      ensures FwdResolved(g, m, m1, i)
    {
      assert i < id ==> FwdResolved(g, m, m', i);
    }
  }

  /** Resolve one forward declaration. */
  method ResolveFwdType(d: State, names: Hashmap.Table, id: nat, ghost m0: seq<nat>)
    requires d.Inv() && d.startId <= id < |d.types| && d.table != names
    requires names.Valid() && ByNumber(names) && |m0| == |d.types|
    requires NamesMap(d.types, m0, |d.types|, names.Contents())
    requires FwdsResolved(d.types, m0, d.canon, d.startId, id)
    modifies d`canon
    ensures d.Inv() && FwdsResolved(d.types, m0, d.canon, d.startId, id + 1)
  {
    hide Refs, Recorded, Listed, Complete, Distinct, AllKeep, Hashmap.Table.Valid, Hashmap.All, FwdsResolved;
    var g, t := d.types, d.types[id];
    Unchanged(g, m0, d.canon, d.startId, id, id);
    if !t.kind.Fwd? || d.canon[id] != id {
      FwdSkip(g, m0, d.canon, d.startId, id);
      return;
    }
    var found := names.Find(t.name);
    ghost var entries := names.Contents();
    if found.None? {
      NoBearer(g, m0, entries, t.name, names.equalFn);
      FwdSkip(g, m0, d.canon, d.startId, id);
      return;
    }
    ghost var e :| e in entries && names.equalFn(e.key, t.name) && e.value == found.value;
    assert EntryOk(g, m0, |g|, e);
    var cand := found.value;
    if cand == 0 {
      FwdSkip(g, m0, d.canon, d.startId, id);
      return;
    }
    assert cand in Bearers(g, m0, |g|, t.name);
    Unchanged(g, m0, d.canon, d.startId, id, cand);
    if g[cand].kind != FwdKind(t) {
      FwdSkip(g, m0, d.canon, d.startId, id);
      return;
    }
    FwdJoined(g, m0, d.canon, d.startId, id, cand);
    Join(d, id, cand);
  }

  lemma NoBearer(g: seq<Type>, m: seq<nat>, entries: multiset<Hashmap.Entry>, name: nat, eq: (int, int) -> bool)
    requires |m| == |g| && NamesMap(g, m, |g|, entries)
    requires forall a, b :: eq(a, b) <==> a == b
    requires Hashmap.Absent(eq, entries, name)
    ensures Bearers(g, m, |g|, name) == {}
  {
    assert !HasKey(entries, name);
  }

  lemma NothingResolved(g: seq<Type>, m: seq<nat>, m': seq<nat>, start: nat, upTo: nat)
    requires FwdsResolved(g, m, m', start, upTo) && NothingToResolve(g)
    ensures m' == m
  {
    forall j | 0 <= j < |g|
      ensures m'[j] == m[j]
    {
      assert m'[j] != m[j] ==> FwdResolved(g, m, m', j);
    }
  }

  // ----- what resolving costs -----

  /** A forward declaration with exactly one canonical struct or union of its name, of the declared kind. */
  ghost predicate OneDefinition(g: seq<Type>, m: seq<nat>, i: nat)
    requires |m| == |g| && i < |g|
  {
    g[i].kind.Fwd? && m[i] == i &&
      exists j :: Bearers(g, m, |g|, g[i].name) == {j} && j < |g| && g[j].kind == FwdKind(g[i])
  }

  /** The pass keeps meanings if and only if no own forward declaration has exactly one definition. */
  lemma ResolvingKeepsMeaning(g: seq<Type>, m: seq<nat>, m': seq<nat>, start: nat)
    requires ValidGraph(g) && |g| <= MAX_NR_TYPES + 1 && Sound(g, m) && FwdsResolved(g, m, m', start, |g|)
    ensures Sound(g, m') <==> forall i :: start <= i < |g| ==> !OneDefinition(g, m, i)
  {
    hide Refs, Unfold, Shape;
    forall i | 0 <= i < |g|
      ensures start <= i && OneDefinition(g, m, i) ==> m'[i] < |m'| && !Equivalent(g, i, m'[i])
      ensures m'[i] != m[i] ==> start <= i && OneDefinition(g, m, i)
    {
      assert start <= i ==> FwdResolved(g, m, m', i);
      if start <= i && OneDefinition(g, m, i) {
        var j :| Bearers(g, m, |g|, g[i].name) == {j} && j < |g| && g[j].kind == FwdKind(g[i]);
        assert j in Bearers(g, m, |g|, g[i].name);
        DifferentKinds(g, i, j);
      }
    }
    if forall i :: start <= i < |g| ==> !OneDefinition(g, m, i) {
      assert m' == m;
    }
  }

  lemma DifferentKinds(g: seq<Type>, a: nat, b: nat)
    requires ValidGraph(g) && a < |g| && b < |g| && g[a].kind != g[b].kind
    ensures !Equivalent(g, a, b)
  {
    hide Refs;
    assert Unfold(g, a, 1) != Unfold(g, b, 1);
  }

  /** A declared struct and its empty definition. */
  function DeclaredAndDefined(): seq<Type> {
    [VOID, Type(Fwd, false, 0, 1, 0, [], []), Type(Struct, false, 0, 1, 0, [], [])]
  }

  lemma DeclaredAndDefinedValid()
    ensures ValidGraph(DeclaredAndDefined())
  {
    hide Refs;
    var g := DeclaredAndDefined();
    forall i | 0 <= i < 3
      ensures WellFormed(g[i]) && Refs(g[i]) == if i == 1 then [0] else []
    {
      BareRefs(g[i]);
    }
  }

  lemma BareRefs(t: Type)
    requires WellFormed(t) && t.elems == [] && !t.kind.Array?
    ensures Refs(t) == if RefInHeader(t.kind) then [t.st] else []
  {
  }

  /** The declaration comes to mean the definition. */
  lemma ResolvingChangesMeaning()
    ensures var g := DeclaredAndDefined();
      ValidGraph(g) && Sound(g, [0, 1, 2]) && FwdsResolved(g, [0, 1, 2], [0, 2, 2], 1, 3) && !Sound(g, [0, 2, 2])
  {
    hide Equivalent, ValidGraph;
    var g := DeclaredAndDefined();
    DeclaredAndDefinedValid();
    forall i | 0 <= i < 3
      ensures Equivalent(g, i, i)
    {
      SelfEquivalent(g, i);
    }
    assert Bearers(g, [0, 1, 2], 3, 1) == {2};
    DifferentKinds(g, 1, 2);
    assert [0, 2, 2][1] == 2;
  }

  /** All own forward declarations. */
  method ResolveFwds(d: State) returns (r: Status)
    requires d.Inv()
    modifies d`canon
    ensures d.Inv()
    ensures r == Done ==> FwdsResolved(d.types, old(d.canon), d.canon, d.startId, |d.types|)
  {
    hide Refs, Recorded, Listed, Complete, Distinct, AllKeep, Hashmap.Table.Valid, Hashmap.All, FwdResolved;
    var names := new Hashmap.Table(k => k % 0x1_0000_0000_0000_0000, (a, b) => a == b);
    r := FillUniqueNamesMap(d, names);
    if r != Done {
      return;
    }
    var id := d.startId;
    while id < |d.types|
      invariant d.startId <= id <= |d.types| && d.Inv()
      invariant names.Valid() && NamesMap(d.types, old(d.canon), |d.types|, names.Contents())
      invariant FwdsResolved(d.types, old(d.canon), d.canon, d.startId, id)
    {
      ResolveFwdType(d, names, id, old(d.canon));
      id := id + 1;
    }
  }
}
