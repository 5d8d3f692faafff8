/** Copying types from one object to another: strings are added to the target once each. */
module Pipe {
  import opened Options
  import opened BtfTypes
  import opened Meaning
  import opened GraphMatch
  import opened DedupState
  import opened StringPass
  import opened Rewrite
  import Hashmap
  import FI = FieldIter
  import Strset

  /** A remembered offset reads in the target as it does in the source. */
  ghost predicate Remembered(entries: multiset<Hashmap.Entry>, src: Strings, size: nat, dst: Strings) {
    forall e :: e in entries ==> e.key >= 0 && 0 <= e.value < size && dst(e.value) == src(e.key)
  }

  /** String sections to add to: the set of the base, if any, and the set of the own strings. The first of
      them starts with the empty string. */
  ghost predicate IsTarget(base: Strset.Set, own: Strset.Set)
    reads base, own
  {
    && base.Valid() && Filling(base, own)
    && (if base.data == "" then base.index == map[] else base.data[0] == Strset.NUL)
  }

  /** Strings up to `strLen` can be read; there is at least the empty one. */
  ghost predicate Readable(base: Strset.Set, own: Strset.Set, strLen: nat)
    reads base, own
  {
    strLen <= |own.data| && Strset.Terminated(own.data[..strLen]) && (base.data == "" ==> strLen > 0)
  }

  /** The set of the target, or that of its base, has every remembered string. */
  ghost predicate Indexed(entries: multiset<Hashmap.Entry>, src: Strings, keys: set<string>) {
    forall e :: e in entries ==> e.key >= 0 && src(e.key) in keys
  }

  // ----- strings that a copy needs -----

  /** Strings below `shared` belong to a base that source and target have in common. */
  predicate Stays(off: nat, shared: nat) {
    off == 0 || off < shared
  }

  ghost function Wants(off: nat, src: Strings, shared: nat): set<string> {
    if Stays(off, shared) then {} else {src(off)}
  }

  /** What the first `n` offsets need. */
  ghost function WantsUpTo(ns: seq<nat>, src: Strings, shared: nat, n: nat): set<string>
    requires n <= |ns|
  {
    if n == 0 then {} else WantsUpTo(ns, src, shared, n - 1) + Wants(ns[n - 1], src, shared)
  }

  /** Bytes that a string takes, if it is new. */
  ghost function Price(off: nat, src: Strings, shared: nat): nat {
    if Stays(off, shared) then 0 else |src(off)| + 1
  }

  ghost function PriceUpTo(ns: seq<nat>, src: Strings, shared: nat, n: nat): nat
    requires n <= |ns|
  {
    if n == 0 then 0 else PriceUpTo(ns, src, shared, n - 1) + Price(ns[n - 1], src, shared)
  }

  lemma {:induction false} PriceGrows(ns: seq<nat>, src: Strings, shared: nat, i: nat, n: nat)
    requires i <= n <= |ns|
    ensures PriceUpTo(ns, src, shared, i) <= PriceUpTo(ns, src, shared, n)
    decreases n - i
  {
    if i < n {
      PriceGrows(ns, src, shared, i, n - 1);
    }
  }

  /** The strings of a set after it has been asked to take more; what the base has stays there. */
  ghost function Adds(was: set<string>, names: set<string>, base: set<string>): set<string> {
    was + (names - base)
  }

  lemma AddsMore(was: set<string>, names: set<string>, more: set<string>, base: set<string>)
    ensures Adds(Adds(was, names, base), more, base) == Adds(was, names + more, base)
  {
  }

  /** Nothing is added exactly if all of it is there. */
  lemma AddsNothing(was: set<string>, names: set<string>, base: set<string>)
    ensures Adds(was, names, base) == was <==> names <= was + base
  {
    if Adds(was, names, base) == was {
      forall s | s in names
        ensures s in was + base
      {
        assert s in base || s in Adds(was, names, base);
      }
    }
  }

  /** Strings have been taken up, or, where that has failed, perhaps not. */
  ghost predicate Copies(was: set<string>, now: set<string>, names: set<string>, base: set<string>, ok: bool) {
    now == Adds(was, names, base) || (!ok && now == was)
  }

  /** The strings of the first `j` offsets have been taken up. */
  ghost predicate Taken(ns: seq<nat>, src: Strings, shared: nat, j: nat, was: set<string>, now: set<string>,
                        base: set<string>)
    requires j <= |ns|
  {
    now == Adds(was, WantsUpTo(ns, src, shared, j), base)
  }

  lemma TakenNone(ns: seq<nat>, src: Strings, shared: nat, was: set<string>, base: set<string>)
    ensures Taken(ns, src, shared, 0, was, was, base)
  {
  }

  lemma TakenNext(ns: seq<nat>, src: Strings, shared: nat, j: nat, was: set<string>, now: set<string>,
                  later: set<string>, base: set<string>, ok: bool)
    requires j < |ns| && Taken(ns, src, shared, j, was, now, base)
    requires Copies(now, later, Wants(ns[j], src, shared), base, ok)
    ensures ok || later != now ==> Taken(ns, src, shared, j + 1, was, later, base)
  {
    hide Adds, Wants;
    AddsMore(was, WantsUpTo(ns, src, shared, j), Wants(ns[j], src, shared), base);
  }

  /** The strings and the map of the target have grown by no more than a price. */
  ghost predicate Grew(len: nat, sz: nat, len': nat, sz': nat, price: nat) {
    len' <= len + price && sz' <= sz + price
  }

  lemma PriceNext(ns: seq<nat>, src: Strings, shared: nat, j: nat)
    requires j < |ns|
    ensures PriceUpTo(ns, src, shared, j + 1) == PriceUpTo(ns, src, shared, j) + Price(ns[j], src, shared)
    ensures PriceUpTo(ns, src, shared, j + 1) <= PriceUpTo(ns, src, shared, |ns|)
    ensures PriceUpTo(ns, src, shared, 0) == 0
  {
    hide Price;
    PriceGrows(ns, src, shared, j + 1, |ns|);
  }

  lemma IndexedOn(entries: multiset<Hashmap.Entry>, src: Strings, keys: set<string>, keys': set<string>)
    requires Indexed(entries, src, keys) && keys <= keys'
    ensures Indexed(entries, src, keys')
  {
  }

  lemma IndexedAt(m: Hashmap.Table, src: Strings, own: set<string>, base: set<string>, off: nat, v: int)
    requires ByNumber(m) && Indexed(m.Contents(), src, base + own)
    requires exists e :: e in m.Contents() && m.equalFn(e.key, off) && e.value == v
    ensures Adds(own, {src(off)}, base) == own
  {
  }

  lemma IndexedMore(entries: multiset<Hashmap.Entry>, entries': multiset<Hashmap.Entry>, src: Strings,
                    keys: set<string>, off: nat, v: nat)
    requires Indexed(entries, src, keys) && src(off) in keys
    requires entries' == entries - multiset{} + multiset{Hashmap.Entry(off, v)}
    ensures Indexed(entries', src, keys)
  {
    assert forall e :: e in entries' ==> e in entries || e == Hashmap.Entry(off, v);
  }

  /** The length of the string section that the header of an object states; strings behind it cannot be read. */
  class Header {
    var strLen: nat

    constructor (strLen: nat)
      ensures this.strLen == strLen
    {
      this.strLen := strLen;
    }
  }

  class StringPipe {
    const srcBase: string
    const srcOwn: string
    const offMap: Hashmap.Table
    const plenty: bool
    var dstBase: Strset.Set
    var dst: Strset.Set
    var hdr: Header

    ghost predicate Valid()
      reads this, offMap, dstBase, dst, hdr
    {
      && dstBase != dst && IsTarget(dstBase, dst) && Readable(dstBase, dst, hdr.strLen)
      && offMap.Valid() && ByNumber(offMap)
      && Remembered(offMap.Contents(), Src(), Size(), Dst())
      && Indexed(offMap.Contents(), Src(), BaseKeys() + Keys())
    }

    /** Strings that the set of the target has, and those that the base has. */
    ghost function Keys(): set<string>
      reads this, dst
    {
      dst.index.Keys
    }

    ghost function BaseKeys(): set<string>
      reads this, dstBase
    {
      dstBase.index.Keys
    }

    /** There is room for more strings. */
    ghost predicate Fits(price: nat)
      reads this, dst, offMap
    {
      Affords(plenty, |dst.data|, offMap.sz, price)
    }

    lemma ValidTarget()
      requires Valid()
      ensures IsTarget(dstBase, dst) && Readable(dstBase, dst, hdr.strLen)
    {
    }

    lemma SizeFits()
      requires Valid()
      ensures Size() <= |dstBase.data| + |dst.data|
    {
    }

    /** Bytes of strings of the target that can be read. */
    ghost function Size(): nat
      reads this, dstBase, hdr
    {
      |dstBase.data| + hdr.strLen
    }

    ghost function Src(): Strings {
      Reading(srcBase, srcOwn)
    }

    ghost function Dst(): Strings
      reads this, dstBase, dst
    {
      Reading(dstBase.data, dst.data)
    }

    constructor (srcBase: string, srcOwn: string, dstBase: Strset.Set, dst: Strset.Set, hdr: Header, plenty: bool)
      requires IsTarget(dstBase, dst) && Readable(dstBase, dst, hdr.strLen)
      ensures Valid() && this.srcBase == srcBase && this.srcOwn == srcOwn && this.dstBase == dstBase && this.dst == dst
      ensures this.hdr == hdr && fresh(offMap) && this.plenty == plenty && offMap.sz == 0
    {
      this.srcBase, this.srcOwn, this.dstBase, this.dst, this.hdr := srcBase, srcOwn, dstBase, dst, hdr;
      this.plenty := plenty;
      offMap := new Hashmap.Table(k => k % 0x1_0000_0000_0000_0000, (a, b) => a == b);
    }

    /** Go on with a new target on top of the present one. */
    method Rebase(next: Strset.Set, nextHdr: Header)
      requires Valid() && dstBase.data == "" && next != dst && next.Valid() && next.data == "" && nextHdr.strLen == 0
      modifies this
      ensures Valid() && dstBase == old(dst) && dst == next && hdr == nextHdr
    {
      hide Hashmap.Table.Valid, Hashmap.All, Strset.StrAt;
      dstBase, dst, hdr := dst, next, nextHdr;
    }

    /** The offset of a string in the target, where it is added unless it is there already. */
    method AddStr(s: string) returns (r: Option<nat>)
      requires Valid() && Strset.NUL !in s
      modifies dst, hdr
      ensures Valid() && Continues(old(SectionOf(dst)), SectionOf(dst)) && old(hdr.strLen) <= hdr.strLen
      ensures r.Some? ==> r.value < Size() && Dst()(r.value) == s
      ensures BaseKeys() == old(BaseKeys()) && |dst.data| <= |old(dst.data)| + |s| + 1
      ensures Keys() == (if r.Some? then Adds(old(Keys()), {s}, BaseKeys()) else old(Keys()))
      ensures r.Some? ==> s in BaseKeys() + Keys()
      ensures r.None? ==> !plenty || |old(dst.data)| + |s| + 1 > Strset.MAX_STR_OFFSET
    {
      hide Hashmap.Table.Valid, Hashmap.All, Strset.StrAt, Strset.Set.Valid, Remembered, Indexed, Reading, Continues,
        ByNumber, Strset.Terminated;
      ContinuesRefl(SectionOf(dst));
      if dstBase.data != "" {
        r := dstBase.FindStr(s);
        if r.Some? {
          ReadingBase(dstBase.data, dst.data, r.value);
          return;
        }
      }
      var added := dst.AddStr(s, plenty);
      if added.None? {
        return None;
      }
      AddedContinues(old(SectionOf(dst)), SectionOf(dst), s, added.value);
      RememberedOn(offMap.Contents(), Src(), Size(), |dstBase.data| + |dst.data|, dstBase.data, old(dst.data),
        dst.data);
      hdr.strLen := |dst.data|;
      IndexedOn(offMap.Contents(), Src(), BaseKeys() + old(Keys()), BaseKeys() + Keys());
      AllReadable(dst);
      ReadingOwn(dstBase.data, dst.data, added.value);
      r := Some(|dstBase.data| + added.value);
    }

    /** The string at an offset of the source. */
    function SrcStr(off: nat): (s: string)
      ensures s == Src()(off) && Strset.NUL !in s
    {
      Strset.StrAtPlain(srcBase, off);
      if off < |srcBase| then Strset.StrAt(srcBase, off)
      else
        Strset.StrAtPlain(srcOwn, off - |srcBase|);
        Strset.StrAt(srcOwn, off - |srcBase|)
    }

    /** The offset in the target of the string at an offset of the source. */
    method RewriteStr(off: nat) returns (r: Option<nat>)
      requires Valid() && off < |srcBase| + |srcOwn| && Src()(0) == ""
      modifies dst, offMap, hdr
      ensures Valid() && Continues(old(SectionOf(dst)), SectionOf(dst)) && old(hdr.strLen) <= hdr.strLen
      ensures r.Some? ==> r.value < Size() && Dst()(r.value) == Src()(off)
      ensures r.Some? && off == 0 ==> r.value == 0
      ensures Copies(old(Keys()), Keys(), Wants(off, Src(), 0), BaseKeys(), r.Some?) && BaseKeys() == old(BaseKeys())
      ensures Grew(|old(dst.data)|, old(offMap.sz), |dst.data|, offMap.sz, Price(off, Src(), 0))
      ensures old(Fits(Price(off, Src(), 0))) ==> r.Some?
    {
      hide Hashmap.Table.Valid, Hashmap.All, Strset.StrAt, Continues, Remembered, Indexed, ByNumber, Strset.Set.Valid,
        IsTarget, Filling, Reading, Hashmap.Absent;
      ContinuesRefl(SectionOf(dst));
      if off == 0 {
        ZeroReadsEmpty(dstBase, dst, hdr.strLen);
        return Some(0);
      }
      var found := offMap.Find(off);
      if found.Some? {
        RememberedAt(offMap, Src(), Size(), Dst(), off, found.value);
        IndexedAt(offMap, Src(), Keys(), BaseKeys(), off, found.value);
        return Some(found.value);
      }
      r := AddStr(SrcStr(off));
      if r.None? {
        return;
      }
      var ok := Remember(off, r.value);
      if !ok {
        r := None;
      }
    }

    /** Note down where a string of the source is in the target. */
    method Remember(off: nat, off': nat) returns (ok: bool)
      requires Valid() && off' < Size() && Dst()(off') == Src()(off) && Src()(off) in BaseKeys() + Keys()
      modifies offMap
      ensures Valid() && offMap.sz <= old(offMap.sz) + 1 && (plenty && old(offMap.sz) < Hashmap.MANY ==> ok)
    {
      hide Hashmap.Table.Valid, Hashmap.All, Remembered, Indexed, ByNumber, IsTarget, Reading, Hashmap.Absent;
      ghost var before := offMap.Contents();
      var outcome, _ := offMap.Insert(off, off', Hashmap.Append, plenty);
      ok := outcome == Hashmap.Done;
      if ok {
        RememberedMore(before, offMap.Contents(), Src(), Size(), Dst(), off, off');
        IndexedMore(before, offMap.Contents(), Src(), BaseKeys() + Keys(), off, off');
      }
    }

    /** The new offset of a string; offsets below `shared` stay. */
    method MoveString(off: nat, shared: nat) returns (r: Option<nat>)
      requires Valid() && off < |srcBase| + |srcOwn| && Src()(0) == ""
      requires shared > 0 ==> shared == |srcBase| && srcBase == dstBase.data
      modifies dst, offMap, hdr
      ensures Valid() && SectionOf(dstBase) == old(SectionOf(dstBase)) && Continues(old(SectionOf(dst)), SectionOf(dst))
      ensures old(hdr.strLen) <= hdr.strLen && (r.Some? ==> ReadsAs(off, Src(), r.value, Size(), Dst()))
      ensures Copies(old(Keys()), Keys(), Wants(off, Src(), shared), BaseKeys(), r.Some?)
      ensures Grew(|old(dst.data)|, old(offMap.sz), |dst.data|, offMap.sz, Price(off, Src(), shared))
      ensures old(Fits(Price(off, Src(), shared))) ==> r.Some?
    {
      hide Hashmap.Table.Valid, Hashmap.All, Strset.StrAt, Continues, Remembered, Indexed, ByNumber, Strset.Set.Valid,
        IsTarget, Adds;
      if off >= shared {
        r := RewriteStr(off);
      } else {
        ContinuesRefl(SectionOf(dst));
        AddsNothing(Keys(), {}, BaseKeys());
        r := Some(off);
      }
    }

    /** What the copying of a type has done by the time that `j` of its strings have been taken up. The last four
        parameters are what was there before. */
    ghost predicate CopiedSome(ns: seq<nat>, j: nat, shared: nat, was: Section, base: Section, sz: nat, strLen: nat)
      reads this, offMap, dstBase, dst, hdr
    {
      && Valid() && j <= |ns| && Continues(was, SectionOf(dst)) && SectionOf(dstBase) == base && strLen <= hdr.strLen
      && Taken(ns, Src(), shared, j, was.index.Keys, Keys(), BaseKeys())
      && Grew(|was.data|, sz, |dst.data|, offMap.sz, PriceUpTo(ns, Src(), shared, |ns|))
    }

    /** The same, with the strings of the type moved so far; the rest are to come. */
    ghost predicate Moving(t: Type, cur: Type, ns': seq<nat>, j: nat, shared: nat, was: Section, base: Section, sz: nat,
                           strLen: nat)
      reads this, offMap, dstBase, dst, hdr
    {
      && WellFormed(t) && WellFormed(cur) && !t.kind.Other?
      && CopiedSome(Names(t), j, shared, was, base, sz, strLen)
      && |ns'| == |Names(t)| && cur == WithNames(t, ns') && (forall i :: j <= i < |ns'| ==> ns'[i] == Names(t)[i])
      && AllRead(Names(t), ns', j, Src(), Size(), Dst())
      && Grew(|was.data|, sz, |dst.data|, offMap.sz, PriceUpTo(Names(t), Src(), shared, j))
    }

    lemma NoneMoved(t: Type, shared: nat)
      requires Valid() && WellFormed(t)
      ensures CopiedSome(Names(t), 0, shared, SectionOf(dst), SectionOf(dstBase), offMap.sz, hdr.strLen)
      ensures !t.kind.Other? ==>
        Moving(t, t, Names(t), 0, shared, SectionOf(dst), SectionOf(dstBase), offMap.sz, hdr.strLen)
    {
      hide Names, WithNames, Continues, Valid, AllRead, Taken, PriceUpTo, Price;
      ContinuesRefl(SectionOf(dst));
      TakenNone(Names(t), Src(), shared, Keys(), BaseKeys());
      OwnNames(t);
      NoneRead(Names(t), Src(), Size(), Dst());
    }

    lemma AllMoved(t: Type, cur: Type, ns': seq<nat>, shared: nat, was: Section, base: Section, sz: nat, strLen: nat)
      requires WellFormed(t) && Moving(t, cur, ns', |Names(t)|, shared, was, base, sz, strLen)
      ensures CopiedSome(Names(t), |Names(t)|, shared, was, base, sz, strLen) && CopyOf(t, Src(), cur, Size(), Dst())
    {
      hide Names, WithNames, Continues, Valid, AllRead, Taken, PriceUpTo, Price, CopyOf;
      MakeCopy(t, ns', Src(), Size(), Dst());
    }

    /** Move the next string of a type. */
    method MoveField(ghost t: Type, cur: Type, l: FI.Loc, ghost ns': seq<nat>, ghost j: nat, shared: nat,
                     ghost was: Section, ghost base: Section, ghost sz: nat, ghost strLen: nat)
      returns (ok: bool, next: Type, ghost ns'': seq<nat>, ghost j': nat)
      requires Moving(t, cur, ns', j, shared, was, base, sz, strLen)
      requires InRange(Names(t), |srcBase| + |srcOwn|) && Src()(0) == ""
      requires shared > 0 ==> shared == |srcBase| && srcBase == dstBase.data
      requires j < |Names(t)| == |FI.Fields(t, FI.Strs)| && l == FI.Fields(t, FI.Strs)[j]
      modifies dst, offMap, hdr
      ensures SectionOf(dstBase) == base
      ensures ok ==> Moving(t, next, ns'', j + 1, shared, was, base, sz, strLen)
      ensures !ok ==> CopiedSome(Names(t), j', shared, was, base, sz, strLen)
      ensures !ok ==> !Affords(plenty, |was.data|, sz, PriceUpTo(Names(t), Src(), shared, |Names(t)|))
    {
      hide Names, WithNames, FI.Fields, Continues, FI.Put, FI.Get, FI.ValidLoc, Valid, ReadsAs, AllRead, Reading,
        Copies,
        Taken, Wants, PriceUpTo, Price, WellFormed;
      ghost var ns, size, before, keys := Names(t), Size(), SectionOf(dst), Keys();
      next, ns'', j' := cur, ns', j;
      PriceNext(ns, Src(), shared, j);
      OwnNames(t);
      FI.SameFields(t, cur, FI.Strs);
      FI.StrField(cur, j, 0);
      SizeFits();
      var moved := MoveString(FI.Get(cur, l), shared);
      ok := moved.Some?;
      ContinuesTrans(was, before, SectionOf(dst));
      TakenNext(ns, Src(), shared, j, was.index.Keys, keys, Keys(), BaseKeys(), ok);
      if ok {
        AllReadOn(ns, ns', j, Src(), dstBase.data, before, SectionOf(dst), size, Size());
        FI.StrField(cur, j, moved.value);
        NamesTwice(t, ns', ns'[j := moved.value]);
        AllReadNext(ns, ns', j, moved.value, Src(), Size(), Dst());
        next, ns'' := FI.Put(cur, l, moved.value), ns'[j := moved.value];
      } else if Keys() != keys {
        j' := j + 1;
      }
    }

    /** Copy one type, with strings of the target; `j` strings have been taken up. */
    method AddType(t: Type, shared: nat) returns (r: Status, t': Type, ghost j: nat)
      requires Valid() && WellFormed(t) && InRange(Names(t), |srcBase| + |srcOwn|) && Src()(0) == ""
      requires shared > 0 ==> shared == |srcBase| && srcBase == dstBase.data
      modifies dst, offMap, hdr
      ensures CopiedSome(Names(t), j, shared, old(SectionOf(dst)), old(SectionOf(dstBase)), old(offMap.sz),
        old(hdr.strLen))
      ensures r == Done || r == Fail(NoMem) || r == Fail(Inval)
      ensures r == Done ==> j == |Names(t)| && CopyOf(t, Src(), t', Size(), Dst())
      ensures (r == Fail(Inval) <==> t.kind.Other?) && (r == Fail(Inval) ==> j == 0)
      ensures old(Fits(PriceUpTo(Names(t), Src(), shared, |Names(t)|))) ==> r != Fail(NoMem)
    {
      hide Names, FI.Fields, FI.Describe, FI.Iter.Rest, FI.Iter.Valid, Valid, CopyOf, CopiedSome, Moving, PriceUpTo,
        WellFormed, Reading;
      ghost var was, base, sz, strLen := SectionOf(dst), SectionOf(dstBase), offMap.sz, hdr.strLen;
      t', j := t, 0;
      NoneMoved(t, shared);
      var iter := FI.InitIter(t, FI.Strs);
      if iter.None? {
        return Fail(Inval), t, 0;
      }
      var it := iter.value;
      FI.FieldCounts(t);
      ghost var ns', fs := Names(t), FI.Fields(t, FI.Strs);
      var l := it.Next();
      while l.Some?
        invariant fresh(it) && it.Valid() && 0 <= j <= |Names(t)| == |fs| && SectionOf(dstBase) == base
        invariant if l.Some? then j < |fs| && l.value == fs[j] && it.Rest() == fs[j + 1..] else j == |fs|
        invariant Moving(t, t', ns', j, shared, was, base, sz, strLen)
        decreases |fs| - j
      {
        var ok;
        ghost var j';
        ok, t', ns', j' := MoveField(t, t', l.value, ns', j, shared, was, base, sz, strLen);
        if !ok {
          return Fail(NoMem), t', j';
        }
        j := j + 1;
        l := it.Next();
      }
      AllMoved(t, t', ns', shared, was, base, sz, strLen);
      r := Done;
    }
  }

  /** There is room for more strings. */
  ghost predicate Affords(plenty: bool, len: nat, sz: nat, price: nat) {
    plenty && len + price <= Strset.MAX_STR_OFFSET && sz + price <= Hashmap.MANY
  }

  /** The first `j` offsets have been moved. */
  ghost predicate AllRead(ns: seq<nat>, ns': seq<nat>, j: nat, src: Strings, size: nat, dst: Strings) {
    j <= |ns| == |ns'| && forall i :: 0 <= i < j ==> ReadsAs(ns[i], src, ns'[i], size, dst)
  }

  lemma NoneRead(ns: seq<nat>, src: Strings, size: nat, dst: Strings)
    ensures AllRead(ns, ns, 0, src, size, dst)
  {
  }

  lemma AllReadOn(ns: seq<nat>, ns': seq<nat>, j: nat, src: Strings, base: string, was: Section, now: Section,
                  size: nat, size': nat)
    requires AllRead(ns, ns', j, src, size, Reading(base, was.data)) && Continues(was, now)
    requires size <= |base| + |was.data| && size <= size'
    ensures AllRead(ns, ns', j, src, size', Reading(base, now.data))
  {
    hide Continues, ReadsAs;
    forall i | 0 <= i < j
      ensures ReadsAs(ns[i], src, ns'[i], size', Reading(base, now.data))
    {
      ReadsOn(ns[i], src, ns'[i], base, was, now, size, size');
    }
  }

  lemma AllReadNext(ns: seq<nat>, ns': seq<nat>, j: nat, v: nat, src: Strings, size: nat, dst: Strings)
    requires AllRead(ns, ns', j, src, size, dst) && j < |ns| && ReadsAs(ns[j], src, v, size, dst)
    ensures |ns'| == |ns| && AllRead(ns, ns'[j := v], j + 1, src, size, dst)
  {
    hide ReadsAs;
  }

  lemma MakeCopy(t: Type, ns': seq<nat>, src: Strings, size: nat, dst: Strings)
    requires WellFormed(t) && !t.kind.Other? && AllRead(Names(t), ns', |Names(t)|, src, size, dst)
    ensures |ns'| == |Names(t)| && CopyOf(t, src, WithNames(t, ns'), size, dst)
  {
    hide Names, WithNames, ReadsAs;
    NamesOfWithNames(t, ns');
  }

  lemma RememberedOn(entries: multiset<Hashmap.Entry>, src: Strings, size: nat, size': nat, base: string, was: string,
                     now: string)
    requires Remembered(entries, src, size, Reading(base, was)) && size <= size' && size <= |base| + |was|
    requires forall o :: 0 <= o < |was| ==> Strset.StrAt(now, o) == Strset.StrAt(was, o)
    ensures Remembered(entries, src, size', Reading(base, now))
  {
    hide Strset.StrAt;
  }

  lemma AddedContinues(was: Section, now: Section, s: string, off: nat)
    requires was.data <= now.data && now.index == was.index[s := off] &&
      (if s in was.index then was.index[s] == off else off == |was.data|)
    requires forall o :: 0 <= o < |was.data| ==> Strset.StrAt(now.data, o) == Strset.StrAt(was.data, o)
    ensures Continues(was, now)
  {
    hide Strset.StrAt;
  }

  lemma AllReadable(own: Strset.Set)
    requires own.Valid()
    ensures Strset.Terminated(own.data[..|own.data|])
  {
    assert own.data[..|own.data|] == own.data;
  }

  lemma ReadingBase(base: string, own: string, off: nat)
    requires off < |base|
    ensures Reading(base, own)(off) == Strset.StrAt(base, off)
  {
  }

  lemma ReadingOwn(base: string, own: string, off: nat)
    ensures Reading(base, own)(|base| + off) == Strset.StrAt(own, off)
  {
  }

  lemma RememberedAt(m: Hashmap.Table, src: Strings, size: nat, dst: Strings, off: nat, v: int)
    requires ByNumber(m) && Remembered(m.Contents(), src, size, dst)
    requires exists e :: e in m.Contents() && m.equalFn(e.key, off) && e.value == v
    ensures 0 <= v < size && dst(v) == src(off)
  {
  }

  lemma RememberedMore(entries: multiset<Hashmap.Entry>, entries': multiset<Hashmap.Entry>, src: Strings, size: nat,
                       dst: Strings, off: nat, v: nat)
    requires Remembered(entries, src, size, dst) && v < size && dst(v) == src(off)
    requires entries' == entries - multiset{} + multiset{Hashmap.Entry(off, v)}
    ensures Remembered(entries', src, size, dst)
  {
    assert forall e :: e in entries' ==> e in entries || e == Hashmap.Entry(off, v);
  }

  /** An offset that reads in the target as the given one in the source. */
  ghost predicate ReadsAs(off: nat, src: Strings, off': nat, size: nat, dst: Strings) {
    off' < size && dst(off') == src(off) && (off == 0 ==> off' == 0)
  }

  /** The same type, with other offsets for the same strings. */
  ghost predicate CopyOf(t: Type, src: Strings, t': Type, size: nat, dst: Strings) {
    && WellFormed(t) && WellFormed(t') && |Names(t')| == |Names(t)| && t' == WithNames(t, Names(t')) && !t.kind.Other?
    && (forall j :: 0 <= j < |Names(t)| ==> ReadsAs(Names(t)[j], src, Names(t')[j], size, dst))
  }

  lemma ReadsOn(off: nat, src: Strings, off': nat, base: string, was: Section, now: Section, size: nat, size': nat)
    requires ReadsAs(off, src, off', size, Reading(base, was.data)) && Continues(was, now)
    requires size <= |base| + |was.data| && size <= size'
    ensures ReadsAs(off, src, off', size', Reading(base, now.data))
  {
  }

  lemma CopyOn(t: Type, src: Strings, t': Type, base: string, was: Section, now: Section, size: nat, size': nat)
    requires CopyOf(t, src, t', size, Reading(base, was.data)) && Continues(was, now)
    requires size <= |base| + |was.data| && size <= size'
    ensures CopyOf(t, src, t', size', Reading(base, now.data))
  {
    hide Names, WithNames, Continues;
    forall j | 0 <= j < |Names(t)|
      ensures ReadsAs(Names(t)[j], src, Names(t')[j], size', Reading(base, now.data))
    {
      ReadsOn(Names(t)[j], src, Names(t')[j], base, was, now, size, size');
    }
  }

  /** A target without a base starts with the empty string, and so does a base. */
  lemma ZeroReadsEmpty(base: Strset.Set, now: Strset.Set, strLen: nat)
    requires IsTarget(base, now) && Readable(base, now, strLen)
    ensures Reading(base.data, now.data)(0) == "" && 0 < |base.data| + strLen
  {
  }
}
