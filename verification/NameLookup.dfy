/** Finding a type by its name: binary search where the names are sorted, a scan otherwise. */
module NameLookup {
  import opened Options
  import opened StrOrder

  /** What a search looks at. */
  datatype Entry = Entry(name: string, kind: nat)

  /** An object, on top of its base if it has one. `namedStart` is the first named type of sorted own types. */
  datatype Object = Object(base: Option<Object>, own: seq<Entry>, namedStart: nat)

  function StartId(o: Object): (n: nat)
    ensures n >= 1
    decreases o, 0
  {
    if o.base.None? then 1 else Count(o.base.value)
  }

  function Count(o: Object): (n: nat)
    ensures n >= 1
    decreases o, 1
  {
    StartId(o) + |o.own|
  }

  /** The entry of a type other than void. */
  function At(o: Object, id: nat): Entry
    requires 1 <= id < Count(o)
  {
    if id >= StartId(o) then o.own[id - StartId(o)] else At(o.base.value, id)
  }

  // ----- sorted names -----

  ghost predicate SortedNames(own: seq<Entry>) {
    forall i, j :: 0 <= i < j < |own| ==> StrCmp(own[i].name, own[j].name) <= 0
  }

  /** Own types are sorted by name, with the first named one at `namedStart`. */
  ghost predicate SortedFrom(own: seq<Entry>, start: nat, namedStart: nat) {
    && start <= namedStart < start + |own| && SortedNames(own)
    && (forall i :: 0 <= i < namedStart - start ==> own[i].name == "")
    && (forall i :: namedStart - start <= i < |own| ==> own[i].name != "")
  }

  /** All objects of a chain as they are after parsing. */
  ghost predicate Parsed(o: Object) {
    && (o.namedStart > 0 ==> SortedFrom(o.own, StartId(o), o.namedStart))
    && (o.base.Some? ==> Parsed(o.base.value))
  }

  /** Names in order, up to a point. */
  ghost predicate SortedUpTo(own: seq<Entry>, n: nat)
    requires n <= |own|
  {
    forall i, j :: 0 <= i < j < n ==> StrCmp(own[i].name, own[j].name) <= 0
  }

  lemma SortedOn(own: seq<Entry>, n: nat)
    requires 0 < n < |own| && SortedUpTo(own, n) && StrCmp(own[n - 1].name, own[n].name) <= 0
    ensures SortedUpTo(own, n + 1)
  {
    forall i | 0 <= i < n
      ensures StrCmp(own[i].name, own[n].name) <= 0
    {
      if i < n - 1 {
        StrCmpTrans(own[i].name, own[n - 1].name, own[n].name);
      }
    }
  }

  lemma EmptyFirst(a: string, b: string)
    requires StrCmp(a, b) <= 0 && b == ""
    ensures a == ""
  {
  }

  /** Whether own types are sorted by name, and where the named ones start; 0 if they are not or there are none. */
  method CheckSorted(own: seq<Entry>, start: nat) returns (namedStart: nat)
    requires start >= 1
    ensures namedStart > 0 ==> SortedFrom(own, start, namedStart)
    ensures |own| > 1 && SortedNames(own) && own[|own| - 1].name != "" ==> namedStart > 0
  {
    var first := 0;
    if own == [] {
      return 0;
    }
    var i := 1;
    while i < |own|
      invariant 1 <= i <= |own| && SortedUpTo(own, i)
      invariant first == 0 ==> i == 1 || forall k :: 0 <= k < i ==> own[k].name == ""
      invariant first > 0 ==> start <= first < start + i
      invariant first > 0 ==>
        (forall k :: 0 <= k < first - start ==> own[k].name == "") &&
        (forall k :: first - start <= k < i ==> own[k].name != "")
    {
      var na, nb := own[i - 1].name, own[i].name;
      if StrCmp(na, nb) > 0 {
        return 0;
      }
      SortedOn(own, i);
      if nb == "" {
        EmptyFirst(na, nb);
      }
      if first == 0 && na != "" {
        first := start + i - 1;
      }
      if first == 0 && nb != "" {
        first := start + i;
      }
      i := i + 1;
    }
    namedStart := first;
  }

  // ----- the search -----

  ghost predicate Matches(e: Entry, name: string, kind: int) {
    e.name == name && (kind < 0 || e.kind == kind)
  }

  /** The least id from `start` on whose type matches, if any. */
  ghost predicate IsLeast(o: Object, start: nat, name: string, kind: int, r: Option<nat>)
    requires start >= 1
  {
    match r
    case Some(id) => start <= id < Count(o) && Matches(At(o, id), name, kind) &&
      forall k :: start <= k < id ==> !Matches(At(o, k), name, kind)
    case None => forall k :: start <= k < Count(o) ==> !Matches(At(o, k), name, kind)
  }

  /** The first of sorted names, from `lo` on, that is not below the given one. */
  method Bsearch(own: seq<Entry>, name: string, lo: nat) returns (m: nat)
    requires SortedNames(own) && lo <= |own|
    ensures lo <= m <= |own|
    ensures forall i :: lo <= i < m ==> StrCmp(own[i].name, name) < 0
    ensures forall i :: m <= i < |own| ==> StrCmp(own[i].name, name) >= 0
  {
    var l, r := lo, |own| - 1;
    while l <= r
      invariant lo <= l <= r + 1 <= |own|
      invariant forall i :: lo <= i < l ==> StrCmp(own[i].name, name) < 0
      invariant forall i :: r < i < |own| ==> StrCmp(own[i].name, name) >= 0
      invariant r < |own| - 1 ==> lo <= r && StrCmp(own[r].name, name) >= 0
    {
      var mid := l + (r - l) / 2;
      MidDecides(own, name, mid);
      if StrCmp(own[mid].name, name) >= 0 {
        if l == r {
          return r;
        }
        r := mid;
      } else {
        l := mid + 1;
      }
    }
    m := |own|;
  }

  lemma MidDecides(own: seq<Entry>, name: string, mid: nat)
    requires SortedNames(own) && mid < |own|
    ensures StrCmp(own[mid].name, name) >= 0 ==> forall i :: mid <= i < |own| ==> StrCmp(own[i].name, name) >= 0
    ensures StrCmp(own[mid].name, name) < 0 ==> forall i :: 0 <= i <= mid ==> StrCmp(own[i].name, name) < 0
  {
    forall i | mid < i < |own|
      ensures StrCmp(own[mid].name, name) >= 0 ==> StrCmp(own[i].name, name) >= 0
    {
      Above(name, own[mid].name, own[i].name);
    }
    forall i | 0 <= i < mid
      ensures StrCmp(own[mid].name, name) < 0 ==> StrCmp(own[i].name, name) < 0
    {
      if StrCmp(own[mid].name, name) < 0 {
        StrCmpTrans(own[i].name, own[mid].name, name);
      }
    }
  }

  lemma Above(name: string, a: string, b: string)
    requires StrCmp(a, b) <= 0
    ensures StrCmp(a, name) >= 0 ==> StrCmp(b, name) >= 0
  {
    if StrCmp(b, name) < 0 {
      StrCmpTrans(a, b, name);
    }
  }

  /** Own types from `from` on, where names are sorted: start at the first one not below the name. */
  method FindSorted(o: Object, from: nat, name: string, kind: int) returns (r: Option<nat>)
    requires o.namedStart > 0 && SortedFrom(o.own, StartId(o), o.namedStart) && name != "" && from >= StartId(o)
    ensures IsLeast(o, from, name, kind, r)
  {
    hide SortedNames;
    var start := StartId(o);
    var lo := (if from < o.namedStart then o.namedStart else from) - start;
    if lo > |o.own| {
      return None;
    }
    var id := Bsearch(o.own, name, lo);
    BelowDiffers(o.own, name, lo, id);
    ghost var first := id;
    while id < |o.own|
      invariant first <= id <= |o.own|
      invariant forall k :: first <= k < id ==> o.own[k].name == name && !Matches(o.own[k], name, kind)
    {
      if StrCmp(o.own[id].name, name) != 0 {
        NoneAfter(o.own, name, id);
        return None;
      }
      StrCmpEqual(o.own[id].name, name);
      if kind < 0 || o.own[id].kind == kind {
        return Some(start + id);
      }
      id := id + 1;
    }
    r := None;
  }

  lemma BelowDiffers(own: seq<Entry>, name: string, lo: nat, id: nat)
    requires lo <= id <= |own| && forall i :: lo <= i < id ==> StrCmp(own[i].name, name) < 0
    ensures forall i :: lo <= i < id ==> own[i].name != name
  {
    forall i | lo <= i < id
      ensures own[i].name != name
    {
      StrCmpEqual(own[i].name, name);
    }
  }

  lemma NoneAfter(own: seq<Entry>, name: string, id: nat)
    requires SortedNames(own) && id < |own| && StrCmp(own[id].name, name) > 0
    ensures forall i :: id <= i < |own| ==> own[i].name != name
  {
    forall i | id <= i < |own|
      ensures own[i].name != name
    {
      StrCmpEqual(own[id].name, name);
      assert i > id ==> StrCmp(own[id].name, own[i].name) <= 0;
    }
  }

  /** Own types from `from` on, one after the other. */
  method FindLinear(o: Object, from: nat, name: string, kind: int) returns (r: Option<nat>)
    requires from >= StartId(o) && kind != 0
    ensures IsLeast(o, from, name, kind, r)
  {
    var start := StartId(o);
    var id := from;
    while id < Count(o)
      invariant from <= id && forall k :: from <= k < id && k < Count(o) ==> !Matches(At(o, k), name, kind)
    {
      var e := o.own[id - start];
      StrCmpEqual(e.name, name);
      if !(kind > 0 && e.kind != kind) && StrCmp(e.name, name) == 0 {
        return Some(id);
      }
      id := id + 1;
    }
    r := None;
  }

  /** Find a type by name and kind, a negative kind standing for any, the base first. However the names are
      sorted, the outcome is the least id from `from` on that matches. */
  method FindByNameKind(o: Object, from: nat, name: string, kind: int) returns (r: Option<nat>)
    requires Parsed(o) && from >= 1
    ensures kind == 0 || name == "void" ==> r == Some(0)
    ensures kind != 0 && name != "void" ==> IsLeast(o, from, name, kind, r)
    decreases o
  {
    var start := from;
    if start < StartId(o) {
      r := FindByNameKind(o.base.value, start, name, kind);
      if r.Some? {
        return;
      }
      start := StartId(o);
    }
    if kind == 0 || name == "void" {
      return Some(0);
    }
    if o.namedStart > 0 && name != "" {
      r := FindSorted(o, start, name, kind);
    } else {
      r := FindLinear(o, start, name, kind);
    }
  }

  /** There is only one such outcome: searching sorted names finds what a scan finds. */
  lemma OneLeast(o: Object, from: nat, name: string, kind: int, r: Option<nat>, r': Option<nat>)
    requires from >= 1 && IsLeast(o, from, name, kind, r) && IsLeast(o, from, name, kind, r')
    ensures r == r'
  {
  }
}
