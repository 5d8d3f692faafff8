/** Iteration over the words of a descriptor that are type ids, or over those that are string offsets. */
module FieldIter {
  import opened Options
  import opened BtfTypes
  import opened TypeEquality

  datatype IterKind = Ids | Strs

  /** A word of the header and of what follows it once, or a word of a repeated element. */
  datatype Loc = Head(w: nat) | Member(m: nat, c: nat)

  /** Word offsets that occur once per type, the size of a repeated element or 0, and word offsets that
      occur once per element. */
  datatype FieldDesc = FieldDesc(tOffs: seq<nat>, mSz: nat, mOffs: seq<nat>)

  const NAME_OFF := 0
  const TYPE_OFF := 2
  const HEADER_WORDS := 3

  function Describe(k: Kind, ik: IterKind): Option<FieldDesc> {
    match ik
    case Ids => (
      match k
      case Void | Int | Float | Enum | Enum64 | LocParam => Some(FieldDesc([], 0, []))
      case Fwd | Const | Volatile | Restrict | Ptr | Typedef | Func | Var | DeclTag | TypeTag =>
        Some(FieldDesc([TYPE_OFF], 0, []))
      case Array => Some(FieldDesc([HEADER_WORDS + 0, HEADER_WORDS + 1], 0, []))
      case Struct | Union => Some(FieldDesc([], 3, [1]))
      case FuncProto => Some(FieldDesc([TYPE_OFF], 2, [1]))
      case Datasec => Some(FieldDesc([], 3, [0]))
      case LocProto => Some(FieldDesc([], 1, [0]))
      case Locsec => Some(FieldDesc([], 3, [0, 1]))
      case Other(_) => None)
    case Strs => (
      match k
      case Void => Some(FieldDesc([], 0, []))
      case Enum => Some(FieldDesc([NAME_OFF], 2, [0]))
      case Enum64 => Some(FieldDesc([NAME_OFF], 3, [0]))
      case Struct | Union => Some(FieldDesc([NAME_OFF], 3, [0]))
      case FuncProto => Some(FieldDesc([NAME_OFF], 2, [0]))
      case Other(_) => None
      case _ => Some(FieldDesc([NAME_OFF], 0, [])))
  }

  // ----- words by location -----

  ghost predicate ValidLoc(t: Type, l: Loc) {
    match l
    case Head(w) => w == NAME_OFF || w == TYPE_OFF || HEADER_WORDS <= w < HEADER_WORDS + |t.extra|
    case Member(m, c) => m < |t.elems| && c < |t.elems[m]|
  }

  function Get(t: Type, l: Loc): nat
    requires ValidLoc(t, l)
  {
    match l
    case Head(w) => if w == NAME_OFF then t.name else if w == TYPE_OFF then t.st else t.extra[w - HEADER_WORDS]
    case Member(m, c) => t.elems[m][c]
  }

  function Put(t: Type, l: Loc, v: nat): Type
    requires ValidLoc(t, l)
  {
    match l
    case Head(w) =>
      if w == NAME_OFF then t.(name := v)
      else if w == TYPE_OFF then t.(st := v)
      else t.(extra := t.extra[w - HEADER_WORDS := v])
    case Member(m, c) =>
      var e: seq<nat> := t.elems[m];
      t.(elems := t.elems[m := e[c := v]])
  }

  // ----- the order of iteration -----

  function HeadLocs(tOffs: seq<nat>): (ls: seq<Loc>)
    ensures |ls| == |tOffs|
  {
    seq(|tOffs|, i requires 0 <= i < |tOffs| => Head(tOffs[i]))
  }

  function MemberLocs(mOffs: seq<nat>, m: nat): seq<Loc> {
    seq(|mOffs|, i requires 0 <= i < |mOffs| => Member(m, mOffs[i]))
  }

  function MembersFrom(mOffs: seq<nat>, m: nat, vlen: nat): seq<Loc>
    decreases vlen - m
  {
    if m >= vlen then [] else MemberLocs(mOffs, m) + MembersFrom(mOffs, m + 1, vlen)
  }

  /** What is left after the first `off` words of element `m`. */
  ghost function MembersAt(mOffs: seq<nat>, m: nat, off: nat, vlen: nat): seq<Loc>
    requires off <= |mOffs|
  {
    if m >= vlen then [] else MemberLocs(mOffs, m)[off..] + MembersFrom(mOffs, m + 1, vlen)
  }

  lemma MembersOver(mOffs: seq<nat>, m: nat, vlen: nat)
    ensures MembersAt(mOffs, m, |mOffs|, vlen) == MembersAt(mOffs, m + 1, 0, vlen)
    ensures m >= vlen ==> MembersAt(mOffs, m, 0, vlen) == []
    ensures MembersFrom(mOffs, m, vlen) == MembersAt(mOffs, m, 0, vlen)
  {
  }

  lemma HeadsNext(tOffs: seq<nat>, off: nat, more: seq<Loc>)
    requires off < |tOffs|
    ensures var ls := HeadLocs(tOffs)[off..] + more;
      ls != [] && ls[0] == Head(tOffs[off]) && ls[1..] == HeadLocs(tOffs)[off + 1..] + more
  {
    var ls := HeadLocs(tOffs);
    FirstAndRest(ls, off, more);
  }

  lemma HeadsOver(tOffs: seq<nat>, more: seq<Loc>)
    ensures HeadLocs(tOffs)[|tOffs|..] + more == more
  {
  }

  lemma MembersNext(mOffs: seq<nat>, m: nat, off: nat, vlen: nat)
    requires off < |mOffs| && m < vlen
    ensures var ls := MembersAt(mOffs, m, off, vlen);
      ls != [] && ls[0] == Member(m, mOffs[off]) && ls[1..] == MembersAt(mOffs, m, off + 1, vlen)
  {
    hide MembersFrom;
    var ls := MemberLocs(mOffs, m);
    FirstAndRest(ls, off, MembersFrom(mOffs, m + 1, vlen));
  }

  lemma FirstAndRest(ls: seq<Loc>, off: nat, more: seq<Loc>)
    requires off < |ls|
    ensures ls[off..] + more == [ls[off]] + (ls[off + 1..] + more)
  {
  }

  function FieldsOf(d: FieldDesc, vlen: nat): seq<Loc> {
    HeadLocs(d.tOffs) + (if d.mSz == 0 then [] else MembersFrom(d.mOffs, 0, vlen))
  }

  /** The state of an iteration; `p` says whether it goes on. */
  class Iter {
    var desc: FieldDesc
    var p: bool
    var mIdx: int
    var offIdx: nat
    var vlen: nat

    ghost predicate Valid()
      reads this
    {
      && mIdx >= -1
      && (desc.mSz != 0 ==> |desc.mOffs| > 0)
      && (p && mIdx < 0 ==> offIdx <= |desc.tOffs|)
      && (p && mIdx >= 0 ==> desc.mSz != 0 && offIdx <= |desc.mOffs| && mIdx < vlen)
    }

    /** What the iteration still has to yield. */
    ghost function Rest(): seq<Loc>
      requires Valid()
      reads this
    {
      if !p then []
      else if mIdx < 0 then
        HeadLocs(desc.tOffs)[offIdx..] + (if desc.mSz == 0 then [] else MembersFrom(desc.mOffs, 0, vlen))
      else
        MembersAt(desc.mOffs, mIdx, offIdx, vlen)
    }

    constructor (d: FieldDesc, n: nat)
      requires d.mSz != 0 ==> |d.mOffs| > 0
      ensures Valid() && Rest() == FieldsOf(d, n)
    {
      desc, p, mIdx, offIdx := d, true, -1, 0;
      vlen := if d.mSz != 0 then n else 0;
    }

    /** Yield the next location, each exactly once. */
    method Next() returns (l: Option<Loc>)
      requires Valid()
      modifies this
      ensures Valid()
      ensures old(Rest()) == [] ==> l.None? && Rest() == []
      ensures old(Rest()) != [] ==> l == Some(old(Rest())[0]) && Rest() == old(Rest())[1..]
    {
      hide HeadLocs, MemberLocs, MembersFrom, MembersAt;
      if !p {
        return None;
      }
      if mIdx < 0 {
        MembersOver(desc.mOffs, 0, vlen);
        if offIdx < |desc.tOffs| {
          HeadsNext(desc.tOffs, offIdx, if desc.mSz == 0 then [] else MembersFrom(desc.mOffs, 0, vlen));
          l := Some(Head(desc.tOffs[offIdx]));
          offIdx := offIdx + 1;
          return;
        }
        HeadsOver(desc.tOffs, if desc.mSz == 0 then [] else MembersFrom(desc.mOffs, 0, vlen));
        mIdx := 0;
        offIdx := 0;
      }
      if desc.mSz == 0 {
        p := false;
        return None;
      }
      if offIdx >= |desc.mOffs| {
        MembersOver(desc.mOffs, mIdx, vlen);
        mIdx := mIdx + 1;
        offIdx := 0;
      }
      assert old(Rest()) == MembersAt(desc.mOffs, mIdx, offIdx, vlen);
      if mIdx < vlen {
        MembersNext(desc.mOffs, mIdx, offIdx, vlen);
        l := Some(Member(mIdx, desc.mOffs[offIdx]));
        offIdx := offIdx + 1;
        return;
      }
      MembersOver(desc.mOffs, mIdx, vlen);
      p := false;
      l := None;
    }
  }

  method InitIter(t: Type, ik: IterKind) returns (it: Option<Iter>)
    ensures it.None? <==> t.kind.Other?
    ensures it.Some? ==> fresh(it.value) && it.value.Valid() && it.value.Rest() == Fields(t, ik)
  {
    var d := Describe(t.kind, ik);
    if d.None? {
      return None;
    }
    var i := new Iter(d.value, t.vlen);
    it := Some(i);
  }

  ghost function Fields(t: Type, ik: IterKind): seq<Loc>
  {
    if t.kind.Other? then [] else FieldsOf(Describe(t.kind, ik).value, t.vlen)
  }

  lemma SameFields(t: Type, t': Type, ik: IterKind)
    requires t.kind == t'.kind && t.vlen == t'.vlen
    ensures Fields(t, ik) == Fields(t', ik)
  {
  }

  // ----- the iteration yields exactly the ids, or exactly the string offsets -----

  function Range(lo: nat, hi: nat): seq<nat>
    requires lo <= hi
  {
    seq(hi - lo, i requires 0 <= i => lo + i)
  }

  function PutElem(es: seq<seq<nat>>, m: nat, c: nat, v: nat): (r: seq<seq<nat>>)
    requires m < |es| && c < |es[m]|
    ensures |r| == |es| && forall i :: 0 <= i < |es| ==> |r[i]| == |es[i]|
  {
    var e: seq<nat> := es[m];
    es[m := e[c := v]]
  }

  lemma {:induction false} MembersCount(lo: nat, hi: nat, es: seq<seq<nat>>, b: nat)
    requires lo <= hi && Wide(hi, es)
    ensures |MembersFrom(Range(lo, hi), b, b + |es|)| == |Cols(lo, hi, es)|
    decreases |es|
  {
    if es != [] {
      MembersCount(lo, hi, es[1..], b + 1);
    }
  }

  /** The i-th location among the elements holds the i-th word of the columns. */
  lemma {:induction false} MemberAt(lo: nat, hi: nat, es: seq<seq<nat>>, b: nat, i: nat, v: nat)
    requires lo <= hi && Wide(hi, es) && i < |Cols(lo, hi, es)|
    ensures i < |MembersFrom(Range(lo, hi), b, b + |es|)|
    ensures var l := MembersFrom(Range(lo, hi), b, b + |es|)[i];
      && l.Member? && b <= l.m < b + |es| && lo <= l.c < hi
      && es[l.m - b][l.c] == Cols(lo, hi, es)[i]
      && Wide(hi, PutElem(es, l.m - b, l.c, v))
      && Cols(lo, hi, PutElem(es, l.m - b, l.c, v)) == Cols(lo, hi, es)[i := v]
    decreases |es|
  {
    MembersCount(lo, hi, es, b);
    var ls := MembersFrom(Range(lo, hi), b, b + |es|);
    var first, n := MemberLocs(Range(lo, hi), b), hi - lo;
    assert ls == first + MembersFrom(Range(lo, hi), b + 1, b + |es|);
    if i < n {
      assert ls[i] == first[i] == Member(b, lo + i);
      var es' := PutElem(es, 0, lo + i, v);
      assert es'[1..] == es[1..];
      assert es'[0][lo..hi] == es[0][lo..hi][i := v];
    } else {
      MemberAt(lo, hi, es[1..], b + 1, i - n, v);
      var l := ls[i];
      assert l == MembersFrom(Range(lo, hi), b + 1, b + |es|)[i - n];
      var es' := PutElem(es, l.m - b, l.c, v);
      assert es'[1..] == PutElem(es[1..], l.m - b - 1, l.c, v);
    }
  }

  lemma PutIsWithCols(lo: nat, hi: nat, es: seq<seq<nat>>, i: nat, v: nat)
    requires lo <= hi && Wide(hi, es) && i < |Cols(lo, hi, es)|
    ensures i < |MembersFrom(Range(lo, hi), 0, |es|)|
    ensures var l := MembersFrom(Range(lo, hi), 0, |es|)[i];
      l.Member? && l.m < |es| && l.c < |es[l.m]| && es[l.m][l.c] == Cols(lo, hi, es)[i]
      && PutElem(es, l.m, l.c, v) == WithCols(lo, hi, es, Cols(lo, hi, es)[i := v])
  {
    hide Cols, WithCols, MembersFrom;
    MemberAt(lo, hi, es, 0, i, v);
    var l := MembersFrom(Range(lo, hi), 0, |es|)[i];
    var es' := PutElem(es, l.m, l.c, v);
    WithOwnCols(lo, hi, es');
    SameElemsOutline(lo, hi, es, es', Cols(lo, hi, es'));
  }

  lemma ElemFields(t: Type)
    requires WellFormed(t) && !t.kind.Other?
    ensures var d := Describe(t.kind, Ids).value;
      if d.mSz == 0 then Cols(RefLo(t.kind), RefHi(t.kind), t.elems) == []
      else d.mOffs == Range(RefLo(t.kind), RefHi(t.kind)) && t.vlen == |t.elems|
    ensures var d := Describe(t.kind, Strs).value;
      if d.mSz == 0 then Cols(0, NameHi(t.kind), t.elems) == []
      else d.mOffs == Range(0, NameHi(t.kind)) && t.vlen == |t.elems|
  {
    if RefHi(t.kind) == 0 {
      NoCols(0, t.elems);
    }
    if NameHi(t.kind) == 0 {
      NoCols(0, t.elems);
    }
  }

  /** The i-th id field holds the i-th reference, and writing to it replaces that reference only. */
  lemma IdField(t: Type, i: nat, v: nat)
    requires WellFormed(t) && i < |Refs(t)|
    ensures i < |Fields(t, Ids)| && ValidLoc(t, Fields(t, Ids)[i])
    ensures Get(t, Fields(t, Ids)[i]) == Refs(t)[i]
    ensures Put(t, Fields(t, Ids)[i], v) == WithRefs(t, Refs(t)[i := v])
  {
    hide Describe, HeadLocs, Fields, Refs, WithRefs, Get, Put, ValidLoc, DeclaredHeads;
    OtherRefs(t);
    HeadList(t.kind, Ids);
    FieldParts(t, Ids);
    HeadCount(t);
    if i < |DeclaredHeads(t.kind, Ids)| {
      IdInHead(t, i, v);
    } else {
      IdInElem(t, i - |DeclaredHeads(t.kind, Ids)|, v);
    }
  }

  lemma OtherRefs(t: Type)
    requires WellFormed(t) && Refs(t) != []
    ensures !t.kind.Other?
  {
    if t.kind.Other? {
      NoCols(0, t.elems);
    }
  }

  lemma FieldParts(t: Type, ik: IterKind)
    requires !t.kind.Other?
    ensures var d := Describe(t.kind, ik).value;
      Fields(t, ik) == HeadLocs(d.tOffs) + if d.mSz == 0 then [] else MembersFrom(d.mOffs, 0, t.vlen)
  {
  }

  lemma HeadCount(t: Type)
    requires WellFormed(t)
    ensures |DeclaredHeads(t.kind, Ids)| == |HeadRefs(t)| &&
      Refs(t) == HeadRefs(t) + Cols(RefLo(t.kind), RefHi(t.kind), t.elems)
  {
    hide Cols;
  }

  lemma IdInHead(t: Type, i: nat, v: nat)
    requires WellFormed(t) && i < |DeclaredHeads(t.kind, Ids)|
    ensures var l := DeclaredHeads(t.kind, Ids)[i];
      ValidLoc(t, l) && i < |Refs(t)| && Get(t, l) == Refs(t)[i] && Put(t, l, v) == WithRefs(t, Refs(t)[i := v])
  {
    hide Cols, WithCols;
    var lo, hi, h := RefLo(t.kind), RefHi(t.kind), |HeadRefs(t)|;
    var rs := Refs(t)[i := v];
    assert rs[h..] == Cols(lo, hi, t.elems);
    WithOwnCols(lo, hi, t.elems);
  }

  lemma IdInElem(t: Type, i: nat, v: nat)
    requires WellFormed(t) && !t.kind.Other? && |HeadRefs(t)| + i < |Refs(t)|
    ensures var d := Describe(t.kind, Ids).value; var h := |HeadRefs(t)|;
      d.mSz != 0 && i < |MembersFrom(d.mOffs, 0, t.vlen)| && var l := MembersFrom(d.mOffs, 0, t.vlen)[i];
      ValidLoc(t, l) && Get(t, l) == Refs(t)[h + i] && Put(t, l, v) == WithRefs(t, Refs(t)[h + i := v])
  {
    hide Cols, WithCols, MembersFrom, Describe;
    ElemFields(t);
    var h, lo, hi := |HeadRefs(t)|, RefLo(t.kind), RefHi(t.kind);
    var rs := Refs(t)[h + i := v];
    PutIsWithCols(lo, hi, t.elems, i, v);
    assert rs[h..] == Cols(lo, hi, t.elems)[i := v];
    assert rs[..h] == HeadRefs(t);
  }

  lemma FieldCounts(t: Type)
    requires WellFormed(t) && !t.kind.Other?
    ensures |Fields(t, Ids)| == |Refs(t)| && |Fields(t, Strs)| == |Names(t)|
  {
    hide Cols, MembersFrom;
    ElemFields(t);
    MembersCount(RefLo(t.kind), RefHi(t.kind), t.elems, 0);
    MembersCount(0, NameHi(t.kind), t.elems, 0);
  }

  /** The i-th string field holds the i-th string offset, and writing to it replaces that offset only. */
  lemma StrField(t: Type, i: nat, v: nat)
    requires WellFormed(t) && i < |Names(t)|
    ensures i < |Fields(t, Strs)| && ValidLoc(t, Fields(t, Strs)[i])
    ensures Get(t, Fields(t, Strs)[i]) == Names(t)[i]
    ensures Put(t, Fields(t, Strs)[i], v) == WithNames(t, Names(t)[i := v])
  {
    hide Cols, WithCols, MembersFrom;
    if t.kind.Other? {
      NoCols(0, t.elems);
    }
    ElemFields(t);
    var h, hi := |HeadNames(t)|, NameHi(t.kind);
    var d := Describe(t.kind, Strs).value;
    assert |HeadLocs(d.tOffs)| == h;
    var ns := Names(t)[i := v];
    if i < h {
      assert ns[h..] == Cols(0, hi, t.elems);
      WithOwnCols(0, hi, t.elems);
    } else {
      PutIsWithCols(0, hi, t.elems, i - h, v);
      assert ns[h..] == Cols(0, hi, t.elems)[i - h := v];
    }
  }

  /** The words of a descriptor that the format declares to be type ids, or string offsets. */
  predicate Declared(t: Type, ik: IterKind, l: Loc) {
    match (ik, l)
    case (Ids, Head(w)) =>
      (w == TYPE_OFF && RefInHeader(t.kind)) || (t.kind.Array? && HEADER_WORDS <= w < HEADER_WORDS + 2)
    case (Ids, Member(m, c)) => m < |t.elems| && RefLo(t.kind) <= c < RefHi(t.kind)
    case (Strs, Head(w)) => w == NAME_OFF && HasName(t.kind)
    case (Strs, Member(m, c)) => m < |t.elems| && c == 0 && ElemNamed(t.kind)
  }

  lemma {:induction false} MembersExact(lo: nat, hi: nat, b: nat, vlen: nat, l: Loc)
    requires lo <= hi
    ensures multiset(MembersFrom(Range(lo, hi), b, vlen))[l] ==
      if l.Member? && b <= l.m < vlen && lo <= l.c < hi then 1 else 0
    decreases vlen - b
  {
    if b < vlen {
      MembersExact(lo, hi, b + 1, vlen, l);
      LocsOnce(lo, hi, b, l, hi - lo);
      var first := MemberLocs(Range(lo, hi), b);
      assert first[..hi - lo] == first;
    }
  }

  lemma {:induction false} LocsOnce(lo: nat, hi: nat, b: nat, l: Loc, n: nat)
    requires lo <= hi && n <= hi - lo
    ensures multiset(MemberLocs(Range(lo, hi), b)[..n])[l] ==
      if l.Member? && l.m == b && lo <= l.c < lo + n then 1 else 0
  {
    var first := MemberLocs(Range(lo, hi), b);
    if n > 0 {
      LocsOnce(lo, hi, b, l, n - 1);
      assert first[..n] == first[..n - 1] + [first[n - 1]];
    }
  }

  /** The declared words outside the repeated elements, in order. */
  function DeclaredHeads(k: Kind, ik: IterKind): seq<Loc> {
    match ik
    case Ids =>
      if RefInHeader(k) then [Head(TYPE_OFF)]
      else if k.Array? then [Head(HEADER_WORDS), Head(HEADER_WORDS + 1)]
      else []
    case Strs => if HasName(k) then [Head(NAME_OFF)] else []
  }

  lemma HeadList(k: Kind, ik: IterKind)
    requires !k.Other?
    ensures HeadLocs(Describe(k, ik).value.tOffs) == DeclaredHeads(k, ik)
  {
  }

  lemma HeadsExact(t: Type, ik: IterKind, l: Loc)
    requires !t.kind.Other?
    ensures multiset(HeadLocs(Describe(t.kind, ik).value.tOffs))[l] == if l.Head? && Declared(t, ik, l) then 1 else 0
  {
    hide Describe, HeadLocs;
    HeadList(t.kind, ik);
  }

  lemma ElemsExact(t: Type, ik: IterKind, l: Loc)
    requires WellFormed(t) && !t.kind.Other?
    ensures var d := Describe(t.kind, ik).value;
      multiset(if d.mSz == 0 then [] else MembersFrom(d.mOffs, 0, t.vlen))[l]
        == if l.Member? && Declared(t, ik, l) then 1 else 0
  {
    hide Cols, MembersFrom;
    ElemFields(t);
    match ik
    case Ids => MembersExact(RefLo(t.kind), RefHi(t.kind), 0, t.vlen, l);
    case Strs => MembersExact(0, NameHi(t.kind), 0, t.vlen, l);
  }

  /** The iteration yields every declared field exactly once, and nothing else. */
  lemma FieldsExact(t: Type, ik: IterKind, l: Loc)
    requires WellFormed(t) && !t.kind.Other?
    ensures multiset(Fields(t, ik))[l] == if Declared(t, ik, l) then 1 else 0
  {
    hide Declared, HeadLocs, MembersFrom, Describe;
    HeadsExact(t, ik, l);
    ElemsExact(t, ik, l);
  }
}
