/** The pass over strings: names are looked up in the base, or interned in a new section. */
module StringPass {
  import opened Options
  import opened Memory
  import opened BtfTypes
  import opened Meaning
  import opened TypeEquality
  import opened CanonMap
  import opened GraphMatch
  import opened DedupState
  import opened PrepPass
  import Hashmap
  import FI = FieldIter
  import Strset

  /** How string offsets read: below the size of the base section they are the base's. */
  function Reading(base: string, own: string): Strings {
    (off: nat) => if off < |base| then Strset.StrAt(base, off) else Strset.StrAt(own, off - |base|)
  }

  /** A section with its index. */
  datatype Section = Section(data: string, index: map<string, nat>)

  function SectionOf(x: Strset.Set): Section
    reads x
  {
    Section(x.data, x.index)
  }

  /** A new offset that reads as the old one did; an own string has the one offset that the two indexes
      have for it. */
  ghost predicate Moved(base: Section, strs: string, now: Section, off: nat, off': nat) {
    && off' < |base.data| + |now.data|
    && Reading(base.data, now.data)(off') == Reading(base.data, strs)(off)
    && (off != 0 && off >= |base.data| ==>
          var s := Reading(base.data, strs)(off);
          if s in base.index then off' == base.index[s]
          else s in now.index && off' == |base.data| + now.index[s])
  }

  ghost predicate AllMoved(base: Section, strs: string, now: Section, ns: seq<nat>, ns': seq<nat>) {
    |ns'| == |ns| && forall j :: 0 <= j < |ns| ==> Moved(base, strs, now, ns[j], ns'[j])
  }

  /** One section continues another: what was there stays where it was. */
  ghost predicate Continues(now: Section, later: Section) {
    && now.data <= later.data
    && (forall o :: 0 <= o < |now.data| ==> Strset.StrAt(later.data, o) == Strset.StrAt(now.data, o))
    && (forall s :: s in now.index ==> s in later.index && later.index[s] == now.index[s])
    && (forall s :: s in later.index ==> s in now.index || later.index[s] >= |now.data|)
  }

  lemma ContinuesTrans(a: Section, b: Section, c: Section)
    requires Continues(a, b) && Continues(b, c)
    ensures Continues(a, c)
  {
  }

  lemma Longer(a: Section, b: Section)
    requires Continues(a, b)
    ensures a.data <= b.data
  {
  }

  lemma ContinuesRefl(a: Section)
    ensures Continues(a, a)
  {
  }

  lemma MovedKept(base: Section, strs: string, now: Section, later: Section, off: nat, off': nat)
    requires Continues(now, later) && Moved(base, strs, now, off, off')
    ensures Moved(base, strs, later, off, off')
  {
  }

  /** The sections as parsed: own strings alone start with the empty string. */
  ghost predicate Sections(base: Strset.Set, strs: string)
    reads base
  {
    base.Valid() && (base.data == "" ==> strs != "" && strs[0] == Strset.NUL && base.index == map[])
  }

  ghost predicate Filling(base: Strset.Set, now: Strset.Set)
    reads base, now
  {
    base != now && now.Valid() && (base.data == "" ==> now.data != "" && now.data[0] == Strset.NUL)
  }

  lemma EmptyFirst(data: string)
    requires data != "" && data[0] == Strset.NUL
    ensures Strset.StrAt(data, 0) == ""
  {
  }

  /** Find the new offset for one string. */
  method RemapStrOff(base: Strset.Set, strs: string, now: Strset.Set, off: nat, plenty: bool) returns (r: Option<nat>)
    requires Sections(base, strs) && Filling(base, now) && off < |base.data| + |strs|
    modifies now
    ensures Filling(base, now) && Continues(old(SectionOf(now)), SectionOf(now))
    ensures r.Some? ==> Moved(SectionOf(base), strs, SectionOf(now), off, r.value)
  {
    hide Strset.StrAt;
    if off == 0 || off < |base.data| {
      if off >= |base.data| {
        EmptyFirst(now.data);
        EmptyFirst(strs);
      }
      return Some(off);
    }
    var s := Strset.StrAt(strs, off - |base.data|);
    Strset.StrAtPlain(strs, off - |base.data|);
    if base.data != "" {
      var found := base.FindStr(s);
      if found.Some? {
        return found;
      }
    }
    var added := now.AddStr(s, plenty);
    if added.None? {
      return None;
    }
    r := Some(|base.data| + added.value);
  }

  /** A type with other string offsets that read the same. */
  ghost predicate RenamedType(t: Type, t': Type, base: Section, strs: string, now: Section) {
    && WellFormed(t) && WellFormed(t')
    && |Names(t')| == |Names(t)| && t' == WithNames(t, Names(t'))
    && AllMoved(base, strs, now, Names(t), Names(t'))
  }

  /** Rewrite the string offsets of one type. */
  method RemapNames(base: Strset.Set, strs: string, now: Strset.Set, t: Type, plenty: bool)
    returns (r: Status, t': Type)
    requires Sections(base, strs) && Filling(base, now)
    requires WellFormed(t) && InRange(Names(t), |base.data| + |strs|)
    modifies now
    ensures Filling(base, now) && Continues(old(SectionOf(now)), SectionOf(now))
    ensures r == Done ==> RenamedType(t, t', SectionOf(base), strs, SectionOf(now))
  {
    hide Names, WithNames, FI.Fields, Moved, Sections, Continues, FI.Describe, FI.Put, FI.Iter.Rest, FI.ValidLoc,
      Strset.Set.Valid;
    ContinuesRefl(SectionOf(now));
    t' := t;
    var iter := FI.InitIter(t, FI.Strs);
    if iter.None? {
      return Fail(Inval), t;
    }
    var it := iter.value;
    FI.FieldCounts(t);
    ghost var ns, fs, j := Names(t), FI.Fields(t, FI.Strs), 0;
    ghost var ns': seq<nat> := ns;
    OwnNames(t);
    var l := it.Next();
    while l.Some?
      invariant fresh(it) && it.Valid() && 0 <= j <= |ns| == |fs|
      invariant if l.Some? then j < |ns| && l.value == fs[j] && it.Rest() == fs[j + 1..] else j == |ns|
      invariant Filling(base, now) && Sections(base, strs) && Continues(old(SectionOf(now)), SectionOf(now))
      invariant |ns'| == |ns| && WellFormed(t') && t' == WithNames(t, ns')
      invariant forall i :: j <= i < |ns| ==> ns'[i] == ns[i]
      invariant forall i :: 0 <= i < j ==> Moved(SectionOf(base), strs, SectionOf(now), ns[i], ns'[i])
      decreases |ns| - j
    {
      FI.SameFields(t, t', FI.Strs);
      FI.StrField(t', j, 0);
      var off := FI.Get(t', l.value);
      ghost var before := SectionOf(now);
      var moved := RemapStrOff(base, strs, now, off, plenty);
      ContinuesTrans(old(SectionOf(now)), before, SectionOf(now));
      forall i | 0 <= i < j
        ensures Moved(SectionOf(base), strs, SectionOf(now), ns[i], ns'[i])
      {
        MovedKept(SectionOf(base), strs, before, SectionOf(now), ns[i], ns'[i]);
      }
      if moved.None? {
        return Fail(NoMem), t';
      }
      FI.StrField(t', j, moved.value);
      NamesTwice(t, ns', ns'[j := moved.value]);
      t' := FI.Put(t', l.value, moved.value);
      ns' := ns'[j := moved.value];
      j := j + 1;
      l := it.Next();
    }
    r := Done;
  }

  lemma OwnNames(t: Type)
    requires WellFormed(t)
    ensures WithNames(t, Names(t)) == t
  {
    hide Cols, WithCols;
    WithOwnCols(0, NameHi(t.kind), t.elems);
    assert Names(t)[|HeadNames(t)|..] == Cols(0, NameHi(t.kind), t.elems);
  }

  lemma NamesTwice(t: Type, ns: seq<nat>, ns': seq<nat>)
    requires WellFormed(t) && |ns| == |ns'| == |Names(t)|
    ensures WithNames(WithNames(t, ns), ns') == WithNames(t, ns')
  {
    hide Cols, WithCols;
    var h := |HeadNames(t)|;
    WithColsTwice(0, NameHi(t.kind), t.elems, ns[h..], ns'[h..]);
  }

  // ----- all own types -----

  /** Types renamed from `start` up to `upTo`, the others as they were. */
  ghost predicate Renamed(g: seq<Type>, g': seq<Type>, start: nat, upTo: nat, base: Section, strs: string,
                          now: Section) {
    && |g'| == |g| && start <= upTo <= |g|
    && (forall i :: 0 <= i < |g| && !(start <= i < upTo) ==> g'[i] == g[i])
    && (forall i :: start <= i < upTo ==> RenamedType(g[i], g'[i], base, strs, now))
  }

  lemma RenamedKept(t: Type, t': Type, base: Section, strs: string, now: Section, later: Section)
    requires Continues(now, later) && RenamedType(t, t', base, strs, now)
    ensures RenamedType(t, t', base, strs, later)
  {
    hide Names, WithNames, Moved;
    forall j | 0 <= j < |Names(t)|
      ensures Moved(base, strs, later, Names(t)[j], Names(t')[j])
    {
      MovedKept(base, strs, now, later, Names(t)[j], Names(t')[j]);
    }
  }

  lemma RenamedParts(t: Type, t': Type, base: Section, strs: string, now: Section)
    requires RenamedType(t, t', base, strs, now)
    ensures WellFormed(t') && t'.kind == t.kind && t'.kflag == t.kflag && t'.vlen == t.vlen && t'.st == t.st
    ensures Refs(t') == Refs(t) && Blank(t') == Blank(t)
    ensures Read(Names(t'), Reading(base.data, now.data)) == Read(Names(t), Reading(base.data, strs))
  {
    hide Names, Refs, Blank;
    RefsOfWithNames(t, Names(t'));
    BlankOfWithNames(t, Names(t'));
  }

  lemma RenamedGraph(g: seq<Type>, g': seq<Type>, start: nat, upTo: nat, base: Section, strs: string, now: Section)
    requires ValidGraph(g) && 0 < start && Renamed(g, g', start, upTo, base, strs, now)
    ensures ValidGraph(g')
    ensures forall i :: 0 <= i < |g| ==>
      Refs(g'[i]) == Refs(g[i]) && Blank(g'[i]) == Blank(g[i]) && g'[i].kind == g[i].kind
  {
    hide Names, Refs, Blank, RenamedType;
    forall i | 0 <= i < |g|
      ensures WellFormed(g'[i]) && Refs(g'[i]) == Refs(g[i]) && Blank(g'[i]) == Blank(g[i]) && g'[i].kind == g[i].kind
    {
      if start <= i < upTo {
        RenamedParts(g[i], g'[i], base, strs, now);
      }
    }
  }

  /** Every mapped type is its own canonical type. */
  ghost predicate SelfOnly(m: seq<nat>) {
    forall j :: 0 <= j < |m| && Mapped(m[j]) ==> m[j] == j
  }

  /** New names for own types that nothing depends on yet. */
  method Rename(d: State, id: nat, t': Type)
    requires d.Inv() && OwnFresh(d.types, d.canon, d.startId) && SelfOnly(d.canon)
    requires forall e :: e in d.table.Contents() ==> e.value < d.startId
    requires d.startId <= id < |d.types| && ValidGraph(d.types[id := t']) && t'.kind == d.types[id].kind
    modifies d`types
    ensures d.Inv() && OwnFresh(d.types, d.canon, d.startId) && d.types == old(d.types)[id := t']
  {
    hide Signature, Refs, Recorded, Acyclic, Hashmap.Table.Valid, Hashmap.All, Listed, Complete, Distinct;
    RenameTable(d.types, d.canon, d.startId, d.table.Contents(), id, t');
    FreshDistinct(d.types[id := t'], d.canon, d.startId);
    d.types := d.types[id := t'];
  }

  lemma RenameTable(g: seq<Type>, m: seq<nat>, start: nat, entries: multiset<Hashmap.Entry>, id: nat, t': Type)
    requires ValidGraph(g) && OwnFresh(g, m, start) && 0 < start <= id < |g| <= MAX_NR_TYPES + 1
    requires ValidGraph(g[id := t']) && t'.kind == g[id].kind
    requires forall e :: e in entries ==> e.value < start
    requires Listed(g, m, entries) && Complete(g, m, entries)
    ensures Listed(g[id := t'], m, entries) && Complete(g[id := t'], m, entries)
  {
    hide Signature, Refs;
    var g' := g[id := t'];
    forall j | 0 <= j < |g| && m[j] == j && IsDeduped(g'[j].kind)
      ensures Hashmap.Entry(Signature(g'[j]), j) in entries
    {
      assert j != id;
    }
  }

  /** The own strings have been without duplicates from the start: each name has the one offset of its string. */
  ghost predicate DedupedBefore(g: seq<Type>, start: nat, base: Section, strs: string, own: Section) {
    && own.data == strs && Strset.Terminated(strs) && |strs| <= Strset.MAX_STR_OFFSET
    && (forall s :: s in own.index ==> own.index[s] < |strs| && Strset.StrAt(strs, own.index[s]) == s)
    && forall i :: start <= i < |g| ==> WellFormed(g[i]) && AllMoved(base, strs, own, Names(g[i]), Names(g[i]))
  }

  method SetOf(own: Section) returns (now: Strset.Set)
    requires Strset.Terminated(own.data) && |own.data| <= Strset.MAX_STR_OFFSET
    requires forall s :: s in own.index ==> own.index[s] < |own.data| && Strset.StrAt(own.data, own.index[s]) == s
    ensures fresh(now) && now.Valid() && SectionOf(now) == own
  {
    hide Strset.StrAt;
    now := new Strset.Set();
    now.data, now.index := own.data, own.index;
  }

  lemma KeptNames(g: seq<Type>, start: nat, base: Section, strs: string, own: Section)
    requires start <= |g| && DedupedBefore(g, start, base, strs, own)
    ensures Renamed(g, g, start, |g|, base, strs, own)
  {
    hide Names, WithNames, AllMoved, Strset.StrAt;
    forall i | start <= i < |g|
      ensures RenamedType(g[i], g[i], base, strs, own)
    {
      OwnNames(g[i]);
    }
  }

  /** Rewrite all own names, into a new section without duplicates and without unused strings. */
  method DedupStrings(d: State, base: Strset.Set, strs: string, own: Option<Section>)
    returns (r: Status, now: Strset.Set)
    requires d.Inv() && OwnFresh(d.types, d.canon, d.startId) && SelfOnly(d.canon)
    requires forall e :: e in d.table.Contents() ==> e.value < d.startId
    requires Sections(base, strs)
    requires forall i :: d.startId <= i < |d.types| ==> InRange(Names(d.types[i]), |base.data| + |strs|)
    requires own.Some? ==> DedupedBefore(d.types, d.startId, SectionOf(base), strs, own.value)
    modifies d`types
    ensures d.Inv() && fresh(now) && now.Valid()
    ensures r == Done ==> OwnFresh(d.types, d.canon, d.startId)
    ensures r == Done ==> Renamed(old(d.types), d.types, d.startId, |d.types|, SectionOf(base), strs, SectionOf(now))
  {
    hide Signature, Refs, Names, Recorded, Acyclic, Listed, Complete, Distinct, AllKeep, RenamedType;
    hide Hashmap.Table.Valid, Hashmap.All, Continues, Strset.StrAt, OwnFresh, Strset.Set.Valid, ByNumber, Acyclic,
      Unfold, Renamed, Blank, Shape, InRange;
    ghost var g := d.types;
    if own.Some? {
      now := SetOf(own.value);
      KeptNames(g, d.startId, SectionOf(base), strs, own.value);
      return Done, now;
    }
    var ok;
    ok, now := NewSection(base, d.plenty);
    if !ok {
      return Fail(NoMem), now;
    }
    var id := d.startId;
    NoneRenamed(g, d.startId, SectionOf(base), strs, SectionOf(now));
    while id < |d.types|
      invariant d.startId <= id <= |d.types| && d.Inv() && OwnFresh(d.types, d.canon, d.startId)
      invariant fresh(now) && Filling(base, now) && Sections(base, strs)
      invariant Renamed(g, d.types, d.startId, id, SectionOf(base), strs, SectionOf(now))
    {
      ghost var before := SectionOf(now);
      NotYetRenamed(g, d.types, d.startId, id, SectionOf(base), strs, before);
      var t';
      r, t' := RemapNames(base, strs, now, d.types[id], d.plenty);
      if r != Done {
        return;
      }
      RenameStep(g, d.types, d.startId, id, SectionOf(base), strs, before, SectionOf(now), t');
      RenamedGraph(g, d.types[id := t'], d.startId, id + 1, SectionOf(base), strs, SectionOf(now));
      Rename(d, id, t');
      id := id + 1;
    }
    r := Done;
  }

  /** A section for what the base does not have; without a base it starts with the empty string. */
  method NewSection(base: Strset.Set, plenty: bool) returns (ok: bool, now: Strset.Set)
    requires base.Valid()
    ensures fresh(now) && now.Valid() && (ok ==> Filling(base, now))
  {
    hide Strset.StrAt;
    now := new Strset.Set();
    ok := Ask(plenty);
    if !ok {
      return;
    }
    if base.data == "" {
      var first := now.AddStr("", plenty);
      if first.None? {
        return false, now;
      }
      StartsEmpty(now.data);
    }
    ok := true;
  }

  lemma NoneRenamed(g: seq<Type>, start: nat, base: Section, strs: string, now: Section)
    requires start <= |g|
    ensures Renamed(g, g, start, start, base, strs, now)
  {
  }

  lemma NotYetRenamed(g: seq<Type>, g': seq<Type>, start: nat, id: nat, base: Section, strs: string, now: Section)
    requires Renamed(g, g', start, id, base, strs, now) && id < |g|
    ensures |g'| == |g| && g'[id] == g[id]
  {
  }

  lemma StartsEmpty(data: string)
    requires Strset.Terminated(data) && data != "" && Strset.StrAt(data, 0) == ""
    ensures data[0] == Strset.NUL
  {
  }

  lemma RenameStep(g: seq<Type>, g1: seq<Type>, start: nat, id: nat, base: Section, strs: string, now: Section,
                   later: Section, t': Type)
    requires Renamed(g, g1, start, id, base, strs, now) && id < |g| && Continues(now, later)
    requires RenamedType(g[id], t', base, strs, later)
    ensures Renamed(g, g1[id := t'], start, id + 1, base, strs, later)
  {
    hide RenamedType;
    forall i | start <= i <= id
      ensures RenamedType(g[i], g1[id := t'][i], base, strs, later)
    {
      if i < id {
        RenamedKept(g[i], g1[i], base, strs, now, later);
      }
    }
  }

  // ----- what renaming keeps -----

  /** Every type means what it meant, now read from the new section. */
  lemma RenamedMeaning(g: seq<Type>, g': seq<Type>, start: nat, base: Section, strs: string, now: Section, i: nat,
                       k: nat)
    requires ValidGraph(g) && ValidGraph(g') && 0 < start && Renamed(g, g', start, |g|, base, strs, now) && i < |g|
    requires forall b :: 0 <= b < start ==> InRange(Names(g[b]), |base.data|)
    ensures Means(g', Reading(base.data, now.data), i, k) == Means(g, Reading(base.data, strs), i, k)
  {
    hide Names, Refs, Blank, RenamedType;
    var s, s' := Reading(base.data, strs), Reading(base.data, now.data);
    RenamedGraph(g, g', start, |g|, base, strs, now);
    forall j | 0 <= j < |g|
      ensures Read(Names(g'[j]), s') == Read(Names(g[j]), s)
    {
      if j >= start {
        RenamedParts(g[j], g'[j], base, strs, now);
      }
    }
    MeaningAfterRenaming(g, s, g', s', i, k);
  }

  /** The condition under which nothing is resolved, in terms of the names themselves. */
  ghost predicate NothingToResolveByName(g: seq<Type>, s: Strings) {
    && (forall i, j :: 0 <= i < |g| && 0 <= j < |g| && g[i].kind.Fwd? && s(g[i].name) == s(g[j].name) ==>
          g[j].kind != FwdKind(g[i]))
    && (forall i, j ::
      0 <= i < |g| && 0 <= j < |g| && IsEnumFwd(g[i]) && IsAnyEnum(g[j]) && s(g[i].name) == s(g[j].name) ==>
          EqualInfo(g[i], g[j]) && g[i].st == g[j].st)
  }

  lemma NameReads(t: Type, t': Type, base: Section, strs: string, now: Section)
    requires RenamedType(t, t', base, strs, now) && HasName(t.kind)
    ensures Reading(base.data, now.data)(t'.name) == Reading(base.data, strs)(t.name)
  {
    hide Cols;
    assert Names(t)[0] == t.name && Names(t')[0] == t'.name;
    assert Moved(base, strs, now, Names(t)[0], Names(t')[0]);
  }

  lemma RenamedHead(t: Type, t': Type, base: Section, strs: string, now: Section)
    requires RenamedType(t, t', base, strs, now)
    ensures EqualInfo(t, t') && t'.st == t.st
    ensures HasName(t.kind) ==> Reading(base.data, now.data)(t'.name) == Reading(base.data, strs)(t.name)
  {
    hide RenamedType, Reading, Refs;
    RenamedParts(t, t', base, strs, now);
    if HasName(t.kind) {
      NameReads(t, t', base, strs, now);
    }
  }

  lemma KeptHead(t: Type, base: Section, strs: string, now: Section)
    requires WellFormed(t) && InRange(Names(t), |base.data|)
    ensures HasName(t.kind) ==> Reading(base.data, now.data)(t.name) == Reading(base.data, strs)(t.name)
  {
    if HasName(t.kind) {
      assert Names(t)[0] == t.name;
    }
  }

  lemma RenamedCondition(g: seq<Type>, g': seq<Type>, start: nat, base: Section, strs: string, now: Section)
    requires ValidGraph(g) && ValidGraph(g') && 0 < start && Renamed(g, g', start, |g|, base, strs, now)
    requires forall b :: 0 <= b < start ==> InRange(Names(g[b]), |base.data|)
    requires NothingToResolveByName(g, Reading(base.data, strs))
    ensures NothingToResolve(g')
  {
    hide Refs, Names, RenamedType, Reading;
    var s, s' := Reading(base.data, strs), Reading(base.data, now.data);
    forall i | 0 <= i < |g|
      ensures HasName(g[i].kind) ==> s'(g'[i].name) == s(g[i].name)
      ensures EqualInfo(g[i], g'[i]) && g'[i].st == g[i].st
    {
      if i >= start {
        RenamedHead(g[i], g'[i], base, strs, now);
      } else {
        KeptHead(g[i], base, strs, now);
      }
    }
  }
}
