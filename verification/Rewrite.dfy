/** Rewriting all type ids, or all string offsets, of a descriptor in place. */
module Rewrite {
  import opened Options
  import opened BtfTypes
  import opened Meaning
  import opened GraphMatch
  import opened FieldIter
  import opened DedupState
  import opened StringPass

  /** Every id replaced by what `f` gives for it. */
  ghost function Through(f: nat --> nat, rs: seq<nat>): (r: seq<nat>)
    requires forall j :: 0 <= j < |rs| ==> f.requires(rs[j])
    ensures |r| == |rs| && forall j :: 0 <= j < |rs| ==> r[j] == f(rs[j])
  {
    seq(|rs|, j requires 0 <= j < |rs| => f(rs[j]))
  }

  method RewriteIds(t: Type, f: nat --> nat) returns (r: Status, t': Type)
    requires WellFormed(t) && forall j :: 0 <= j < |Refs(t)| ==> f.requires(Refs(t)[j])
    ensures r == if t.kind.Other? then Fail(Inval) else Done
    ensures r == Done ==> t' == WithRefs(t, Through(f, Refs(t)))
  {
    hide Refs, WithRefs, Fields, Describe, Through, Put, Iter.Rest, ValidLoc;
    t' := t;
    var iter := InitIter(t, Ids);
    if iter.None? {
      return Fail(Inval), t;
    }
    var it := iter.value;
    FieldCounts(t);
    WithRefsTwice(t, Refs(t), Refs(t));
    ghost var rs, fs, j := Refs(t), Fields(t, Ids), 0;
    ghost var now: seq<nat> := rs;
    var l := it.Next();
    while l.Some?
      invariant fresh(it) && it.Valid() && 0 <= j <= |rs| == |fs| == |now|
      invariant if l.Some? then j < |rs| && l.value == fs[j] && it.Rest() == fs[j + 1..] else j == |rs|
      invariant WellFormed(t') && t' == WithRefs(t, now)
      invariant forall i :: j <= i < |rs| ==> now[i] == rs[i]
      invariant forall i :: 0 <= i < j ==> now[i] == f(rs[i])
      decreases |rs| - j
    {
      SameFields(t, t', Ids);
      IdField(t', j, 0);
      var newId := f(Get(t', l.value));
      IdField(t', j, newId);
      WithRefsTwice(t, now, now[j := newId]);
      t' := Put(t', l.value, newId);
      now := now[j := newId];
      j := j + 1;
      l := it.Next();
    }
    assert now == Through(f, rs);
    r := Done;
  }

  /** The ids of a type, in the order of iteration. */
  method ReadIds(t: Type) returns (ids: Option<seq<nat>>)
    requires WellFormed(t)
    ensures ids == if t.kind.Other? then None else Some(Refs(t))
  {
    hide Refs, WithRefs, Put, Get, Fields, Describe, Iter.Rest, ValidLoc;
    var iter := InitIter(t, Ids);
    if iter.None? {
      return None;
    }
    var it := iter.value;
    FieldCounts(t);
    ghost var fs := Fields(t, Ids);
    var read: seq<nat> := [];
    var l := it.Next();
    while l.Some?
      invariant fresh(it) && it.Valid() && |read| <= |fs| == |Refs(t)|
      invariant
        if l.Some? then |read| < |fs| && l.value == fs[|read|] && it.Rest() == fs[|read| + 1..]
        else |read| == |fs|
      invariant forall i :: 0 <= i < |read| ==> read[i] == Refs(t)[i]
      decreases |fs| - |read|
    {
      IdField(t, |read|, 0);
      read := read + [Get(t, l.value)];
      l := it.Next();
    }
    assert read == Refs(t);
    ids := Some(read);
  }

  function Table(m: seq<nat>): nat --> nat {
    (id: nat) requires id < |m| => m[id]
  }

  /** A type with all its ids looked up in a table. */
  ghost function LookedUp(m: seq<nat>, t: Type): (t': Type)
    requires WellFormed(t) && InRange(Refs(t), |m|)
    ensures WellFormed(t') && t'.kind == t.kind && t'.kflag == t.kflag && t'.vlen == t.vlen && t'.name == t.name
  {
    hide Refs, WithRefs;
    WithRefs(t, Through(Table(m), Refs(t)))
  }

  lemma LookedUpParts(m: seq<nat>, t: Type)
    requires WellFormed(t) && InRange(Refs(t), |m|)
    ensures var t' := LookedUp(m, t);
      && |Refs(t')| == |Refs(t)| && (forall j :: 0 <= j < |Refs(t)| ==> Refs(t')[j] == m[Refs(t)[j]])
      && Names(t') == Names(t) && Blank(t') == Blank(t)
  {
    hide Refs, WithRefs, Names, Blank, Shape;
    var rs := Through(Table(m), Refs(t));
    ShapeOfWithRefs(t, rs);
    LabelOfShape(t, LookedUp(m, t));
  }

  /** Look up the ids of one type. */
  method LookUpIds(t: Type, m: seq<nat>) returns (r: Status, t': Type)
    requires WellFormed(t) && InRange(Refs(t), |m|)
    ensures r == if t.kind.Other? then Fail(Inval) else Done
    ensures r == Done ==> t' == LookedUp(m, t)
  {
    hide Refs, WithRefs;
    r, t' := RewriteIds(t, Table(m));
  }

  /** String offsets as `f` gives them, where it gives one for each. */
  ghost predicate AllGiven(f: nat -> Option<nat>, ns: seq<nat>) {
    forall j :: 0 <= j < |ns| ==> f(ns[j]).Some?
  }

  ghost function Given(f: nat -> Option<nat>, ns: seq<nat>): (r: seq<nat>)
    requires AllGiven(f, ns)
    ensures |r| == |ns| && forall j :: 0 <= j < |ns| ==> r[j] == f(ns[j]).value
  {
    seq(|ns|, j requires 0 <= j < |ns| => f(ns[j]).value)
  }

  method RewriteStrs(t: Type, f: nat -> Option<nat>) returns (r: Status, t': Type)
    requires WellFormed(t)
    ensures r == Done <==> !t.kind.Other? && AllGiven(f, Names(t))
    ensures r == Done ==> t' == WithNames(t, Given(f, Names(t)))
  {
    hide Names, WithNames, Fields, Describe;
    t' := t;
    var iter := InitIter(t, Strs);
    if iter.None? {
      return Fail(Inval), t;
    }
    var it := iter.value;
    FieldCounts(t);
    OwnNames(t);
    ghost var ns, fs, j := Names(t), Fields(t, Strs), 0;
    ghost var now: seq<nat> := ns;
    var l := it.Next();
    while l.Some?
      invariant fresh(it) && it.Valid() && 0 <= j <= |ns| == |fs| == |now|
      invariant if l.Some? then j < |ns| && l.value == fs[j] && it.Rest() == fs[j + 1..] else j == |ns|
      invariant WellFormed(t') && t' == WithNames(t, now)
      invariant forall i :: j <= i < |ns| ==> now[i] == ns[i]
      invariant forall i :: 0 <= i < j ==> f(ns[i]) == Some(now[i])
      decreases |ns| - j
    {
      SameFields(t, t', Strs);
      StrField(t', j, 0);
      var moved := f(Get(t', l.value));
      if moved.None? {
        return Fail(Inval), t';
      }
      StrField(t', j, moved.value);
      NamesTwice(t, now, now[j := moved.value]);
      t' := Put(t', l.value, moved.value);
      now := now[j := moved.value];
      j := j + 1;
      l := it.Next();
    }
    assert now == Given(f, ns);
    r := Done;
  }

  // ----- types that move to another graph -----

  /** A type that moved to another graph: new ids through a map, and strings that read as before. */
  ghost predicate MovedOver(t: Type, s: Strings, t': Type, s': Strings, ids: seq<nat>) {
    && WellFormed(t) && WellFormed(t') && |Refs(t')| == |Refs(t)| && InRange(Refs(t), |ids|)
    && (forall j :: 0 <= j < |Refs(t)| ==> Refs(t')[j] == ids[Refs(t)[j]])
    && Blank(t') == Blank(t) && Read(Names(t'), s') == Read(Names(t), s)
  }

  lemma NamesOfWithNames(t: Type, ns: seq<nat>)
    requires WellFormed(t) && |ns| == |Names(t)|
    ensures Names(WithNames(t, ns)) == ns && WellFormed(WithNames(t, ns))
  {
  }

  /** Moving on. */
  lemma MovedTwice(t: Type, s: Strings, t1: Type, s1: Strings, t2: Type, s2: Strings, ids: seq<nat>, ids1: seq<nat>)
    requires MovedOver(t, s, t1, s1, ids) && MovedOver(t1, s1, t2, s2, ids1)
    ensures |Refs(t2)| == |Refs(t)| && Blank(t2) == Blank(t) && Read(Names(t2), s2) == Read(Names(t), s)
    ensures forall j :: 0 <= j < |Refs(t)| ==> ids[Refs(t)[j]] < |ids1| && Refs(t2)[j] == ids1[ids[Refs(t)[j]]]
  {
    hide Refs, Names, Blank;
    assert forall j :: 0 <= j < |Refs(t)| ==> Refs(t1)[j] == ids[Refs(t)[j]];
  }
}
