/** Appending all types of one object to another: all of them, or nothing that can be seen. */
module AddBtf {
  import opened Options
  import opened BtfTypes
  import opened Meaning
  import opened GraphMatch
  import opened DedupState
  import opened DedupResult
  import opened StringPass
  import opened Rewrite
  import opened Pipe
  import opened Words
  import opened TypeSection
  import opened TypeCodec
  import opened TypeListing
  import Construct
  import Hashmap
  import Strset

  /** An object to append to: the types of its base, its own type bytes with the index of their starts, and
      its strings, of which the header says how many can be read. */
  class Object {
    const baseTypes: seq<Type>
    const b: Construct.Builder
    const base: Strset.Set
    const strs: Strset.Set
    const hdr: Header

    ghost predicate Valid()
      reads this, b, base, strs, hdr
    {
      && b.Valid() && AllInBounds(b.Types(), b.offs) && 0 < |baseTypes| == b.startId <= INT_LIMIT
      && ValidGraph(Types()) && BaseClosed(Types(), |baseTypes|)
      && IsTarget(base, strs) && Readable(base, strs, hdr.strLen)
    }

    constructor (baseTypes: seq<Type>, b: Construct.Builder, base: Strset.Set, strs: Strset.Set, hdr: Header)
      requires b.Valid() && AllInBounds(b.Types(), b.offs) && 0 < |baseTypes| == b.startId <= INT_LIMIT
      requires var ts := baseTypes + Listing(b.Types(), b.offs); ValidGraph(ts) && BaseClosed(ts, |baseTypes|)
      requires IsTarget(base, strs) && Readable(base, strs, hdr.strLen)
      ensures Valid() && this.baseTypes == baseTypes && this.b == b && this.base == base && this.strs == strs &&
        this.hdr == hdr
    {
      this.baseTypes, this.b, this.base, this.strs, this.hdr := baseTypes, b, base, strs, hdr;
    }

    /** All types by id. */
    ghost function Types(): seq<Type>
      reads this, b
      requires b.Valid() && AllInBounds(b.Types(), b.offs)
    {
      baseTypes + Listing(b.Types(), b.offs)
    }

    /** All strings by offset. */
    ghost function Strings(): Meaning.Strings
      reads this, base, strs, hdr
      requires hdr.strLen <= |strs.data|
    {
      Reading(base.data, strs.data[..hdr.strLen])
    }

    /** What the answers about types and strings depend on. */
    ghost function Answers(): (seq<Type>, seq<Byte>, seq<nat>, string, string)
      reads this, b, base, strs, hdr
      requires b.Valid() && hdr.strLen <= |strs.data|
    {
      (baseTypes, b.Types(), b.offs, base.data, strs.data[..hdr.strLen])
    }
  }

  /** Types to append: those of the base that they share with the target, if any, and the own ones, which are
      described by `bytes` from the offsets `offs` on. */
  datatype Source = Source(whole: seq<Type>, start: nat, bytes: seq<Byte>, lay: Option<seq<Layout>>, offs: seq<nat>,
                           baseStrs: string, ownStrs: string)

  /** The own types are in memory. */
  ghost predicate InMemory(src: Source) {
    && Starts(src.bytes, src.lay, 0, |src.bytes|, 0) == Some(src.offs)
    && AllInBounds(src.bytes, src.offs) && src.start <= |src.whole| &&
      src.whole[src.start..] == Listing(src.bytes, src.offs)
  }

  ghost predicate ValidSource(src: Source) {
    && ValidGraph(src.whole) && 0 < src.start <= |src.whole| && BaseClosed(src.whole, src.start) && InMemory(src)
    && (if src.baseStrs != "" then src.baseStrs[0] == Strset.NUL
        else src.ownStrs != "" && src.ownStrs[0] == Strset.NUL && src.start == 1)
    && (forall i :: 0 <= i < |src.whole| ==> InRange(Names(src.whole[i]), |src.baseStrs| + |src.ownStrs|))
    && (forall i :: 0 <= i < src.start ==> InRange(Names(src.whole[i]), |src.baseStrs|))
  }

  /** A source over a base of its own: `base` is null for none, and an equal base has equal types. */
  ghost predicate SourceOf(src: Source, base: Strset.Set?, dst: Object)
    reads dst, dst.base, base
  {
    && ValidSource(src)
    && (if base == null then src.start == 1 && src.baseStrs == "" else src.baseStrs != "" && src.baseStrs == base.data)
    && (base == dst.base ==> src.start == |dst.baseTypes| && src.whole[..src.start] == dst.baseTypes)
  }

  /** Ids of the source, shifted by one constant; those of the base stay. */
  function Shifted(n: nat, start: nat, at: nat): (m: seq<nat>)
    requires start <= n
    ensures |m| == n && forall x :: 0 <= x < n ==> m[x] == if x < start then x else x - start + at
  {
    seq(n, x => if x < start then x else x - start + at)
  }

  /** Types appended behind `old`, with the strings and the references of the source. */
  ghost predicate Appended(src: Source, old_: seq<Type>, now: seq<Type>, s: Strings) {
    && ValidGraph(src.whole) && src.start <= |src.whole| && |now| == |old_| + |src.whole| - src.start && old_ <= now
    && (forall x :: src.start <= x < |src.whole| ==>
          MovedOver(src.whole[x], Reading(src.baseStrs, src.ownStrs), now[x - src.start + |old_|], s,
            Shifted(|src.whole|, src.start, |old_|)))
  }

  /** A type of the source that is of a kind unknown here. */
  ghost predicate HasUnknown(src: Source) {
    exists x :: src.start <= x < |src.whole| && src.whole[x].kind.Other?
  }

  /** The first `n` own types are of kinds known here. */
  ghost predicate KnownUpTo(src: Source, n: nat) {
    src.start + n <= |src.whole| && forall x :: src.start <= x < src.start + n ==> !src.whole[x].kind.Other?
  }

  /** Strings that the first `n` own types need of the target. */
  ghost function Wanted(src: Source, n: nat): set<string>
    requires ValidGraph(src.whole) && src.start + n <= |src.whole|
  {
    if n == 0 then {} else Wanted(src, n - 1) + WantedAt(src, n - 1, |Names(src.whole[src.start + n - 1])|)
  }

  /** Strings that the first `j` offsets of one of them need. */
  ghost function WantedAt(src: Source, k: nat, j: nat): set<string>
    requires ValidGraph(src.whole) && src.start + k < |src.whole| && j <= |Names(src.whole[src.start + k])|
  {
    WantsUpTo(Names(src.whole[src.start + k]), Reading(src.baseStrs, src.ownStrs), |src.baseStrs|, j)
  }

  /** Where the rewriting has got to: `n` types are done, and `j` strings of the next. */
  ghost predicate IsPlace(src: Source, n: nat, j: nat) {
    && ValidGraph(src.whole) && KnownUpTo(src, n)
    && if src.start + n < |src.whole| then j <= |Names(src.whole[src.start + n])| else j == 0
  }

  /** Strings that are needed up to there. */
  ghost function WantedBy(src: Source, n: nat, j: nat): set<string>
    requires IsPlace(src, n, j)
  {
    Wanted(src, n) + if src.start + n < |src.whole| then WantedAt(src, n, j) else {}
  }

  /** The strings needed up to a place have been taken up. */
  ghost predicate TakenUp(src: Source, n: nat, j: nat, was: set<string>, now: set<string>, base: set<string>) {
    IsPlace(src, n, j) && now == Adds(was, WantedBy(src, n, j), base)
  }

  lemma NoneTakenUp(src: Source, was: set<string>, base: set<string>)
    requires ValidGraph(src.whole) && src.start <= |src.whole|
    ensures TakenUp(src, 0, 0, was, was, base)
  {
    hide ValidGraph, Names;
    WantedStart(src, 0);
  }

  lemma TakeUp(src: Source, n: nat, j: nat, was: set<string>, now: set<string>, later: set<string>, base: set<string>)
    requires TakenUp(src, n, 0, was, now, base) && src.start + n < |src.whole| && j <= |Names(src.whole[src.start + n])|
    requires later == Adds(now, WantedAt(src, n, j), base)
    ensures TakenUp(src, n, j, was, later, base)
    ensures j == |Names(src.whole[src.start + n])| && !src.whole[src.start + n].kind.Other? ==>
      TakenUp(src, n + 1, 0, was, later, base)
  {
    hide ValidGraph, Names, WantedAt, Adds;
    WantedStart(src, n);
    AddsMore(was, Wanted(src, n), WantedAt(src, n, j), base);
    if !src.whole[src.start + n].kind.Other? {
      WantedStart(src, n + 1);
    }
  }

  lemma WantedStart(src: Source, n: nat)
    requires ValidGraph(src.whole) && KnownUpTo(src, n)
    ensures IsPlace(src, n, 0) && WantedBy(src, n, 0) == Wanted(src, n)
  {
    hide ValidGraph, Names;
  }

  /** Bytes that these strings take, if all are new. */
  ghost function Prices(src: Source, n: nat): nat
    requires ValidGraph(src.whole) && src.start + n <= |src.whole|
  {
    if n == 0 then 0 else Prices(src, n - 1) + PriceAt(src, n - 1)
  }

  ghost function PriceAt(src: Source, k: nat): nat
    requires ValidGraph(src.whole) && src.start + k < |src.whole|
  {
    var ns := Names(src.whole[src.start + k]);
    PriceUpTo(ns, Reading(src.baseStrs, src.ownStrs), |src.baseStrs|, |ns|)
  }

  lemma {:induction false} PricesGrow(src: Source, i: nat, n: nat)
    requires ValidGraph(src.whole) && i <= n && src.start + n <= |src.whole|
    ensures Prices(src, i) <= Prices(src, n)
    decreases n - i
  {
    hide ValidGraph, Names, PriceAt;
    if i < n {
      PricesGrow(src, i, n - 1);
    }
  }

  lemma PricesNext(src: Source, n: nat)
    requires ValidGraph(src.whole) && src.start + n < |src.whole|
    ensures Prices(src, n + 1) == Prices(src, n) + PriceAt(src, n)
    ensures Prices(src, n + 1) <= Prices(src, |src.whole| - src.start) && Prices(src, 0) == 0
  {
    hide ValidGraph, Names, PriceAt;
    PricesGrow(src, n + 1, |src.whole| - src.start);
  }

  lemma SourceStartsEmpty(src: Source)
    requires ValidSource(src)
    ensures Reading(src.baseStrs, src.ownStrs)(0) == ""
  {
    hide Refs, Names;
  }

  lemma CopyRefs(t: Type, s: Strings, t': Type, size: nat, s': Strings)
    requires CopyOf(t, s, t', size, s')
    ensures WellFormed(t') && Refs(t') == Refs(t) && t'.kind == t.kind
  {
    hide Refs, Names;
    RefsOfWithNames(t, Names(t'));
  }

  /** The first `n` types have been copied. */
  ghost predicate Copied(src: Source, at: nat, out: seq<Type>, n: nat, size: nat, s: Strings) {
    && src.start + n <= |src.whole| && |out| == n
    && (forall k :: 0 <= k < n ==> CopiedAt(src, at, out[k], k, size, s))
  }

  ghost predicate CopiedAt(src: Source, at: nat, t': Type, k: nat, size: nat, s: Strings)
    requires src.start + k < |src.whole|
  {
    exists t :: WellFormed(t) && CopyOf(src.whole[src.start + k], Reading(src.baseStrs, src.ownStrs), t, size, s)
      && InRange(Refs(t), |src.whole|) && t' == LookedUp(Shifted(|src.whole|, src.start, at), t)
  }

  lemma NoneCopied(src: Source, at: nat, size: nat, s: Strings)
    requires src.start <= |src.whole|
    ensures Copied(src, at, [], 0, size, s)
  {
  }

  lemma CopiedNext(src: Source, at: nat, out: seq<Type>, n: nat, t': Type, size: nat, s: Strings)
    requires Copied(src, at, out, n, size, s) && src.start + n < |src.whole| && CopiedAt(src, at, t', n, size, s)
    ensures Copied(src, at, out + [t'], n + 1, size, s)
  {
    hide CopiedAt;
  }

  lemma CopiedOn(src: Source, at: nat, out: seq<Type>, n: nat, base: string, was: Section, now: Section, size: nat,
                 size': nat)
    requires Continues(was, now) && Copied(src, at, out, n, size, Reading(base, was.data))
    requires size <= |base| + |was.data| && size <= size'
    ensures Copied(src, at, out, n, size', Reading(base, now.data))
  {
    hide CopyOf, LookedUp, Refs, Continues;
    forall k | 0 <= k < n
      ensures CopiedAt(src, at, out[k], k, size', Reading(base, now.data))
    {
      var t1 := Halfway(src, at, out[k], k, size, Reading(base, was.data));
      CopyOn(src.whole[src.start + k], Reading(src.baseStrs, src.ownStrs), t1, base, was, now, size, size');
    }
  }

  /** The type with the new strings and the old references. */
  lemma Halfway(src: Source, at: nat, t': Type, k: nat, size: nat, s: Strings) returns (t: Type)
    requires src.start + k < |src.whole| && CopiedAt(src, at, t', k, size, s)
    ensures WellFormed(t) && CopyOf(src.whole[src.start + k], Reading(src.baseStrs, src.ownStrs), t, size, s)
    ensures InRange(Refs(t), |src.whole|) && t' == LookedUp(Shifted(|src.whole|, src.start, at), t)
  {
    hide CopyOf, LookedUp, Refs;
    t :| WellFormed(t) && CopyOf(src.whole[src.start + k], Reading(src.baseStrs, src.ownStrs), t, size, s)
      && InRange(Refs(t), |src.whole|) && t' == LookedUp(Shifted(|src.whole|, src.start, at), t);
  }

  // ----- the types of the source as they are in memory -----

  lemma SourceParts(src: Source)
    requires ValidSource(src)
    ensures 0 < src.start <= |src.whole| == src.start + |src.offs| && NextStart(src.offs, 0, |src.bytes|) == 0
    ensures ValidGraph(src.whole)
  {
    hide ValidGraph, BaseClosed, Starts, Names, SizeOf, Load;
    assert |src.whole[src.start..]| == |src.offs|;
    FirstStart(src.bytes, src.lay, 0, src.offs);
  }

  lemma SourceAt(src: Source, i: nat)
    requires ValidSource(src) && i < |src.offs|
    ensures InBounds(src.bytes, src.offs[i]) && src.start + i < |src.whole|
    ensures src.whole[src.start + i] == Described(src.bytes, src.offs[i]) && !src.whole[src.start + i].kind.Void?
    ensures var n := NextStart(src.offs, i + 1, |src.bytes|);
      src.offs[i] + HEADER_SIZE <= n <= |src.bytes|
      && (Known(Load(src.bytes, src.offs[i] + INFO_OFF)) ==>
        n - src.offs[i] == HEADER_SIZE + 4 * RestWords(Load(src.bytes, src.offs[i] + INFO_OFF)))
  {
    hide BaseClosed, Starts, Names, Refs, SizeOf, Load, Known, RestWords, Described, InBounds;
    SourceParts(src);
    StartsFollow(src.bytes, src.lay, src.offs, i);
    KnownSize(Load(src.bytes, src.offs[i] + INFO_OFF), src.lay);
    assert src.whole[src.start + i] == src.whole[src.start..][i];
  }

  /** What has been written fits where the copied type was. */
  lemma CopyFits(src: Source, at: nat, i: nat, t': Type, size: nat, s: Strings)
    requires ValidSource(src) && i < |src.offs| && src.start + i < |src.whole| && CopiedAt(src, at, t', i, size, s)
    requires size <= WORD_LIMIT && src.start <= at && at + |src.offs| <= WORD_LIMIT
    ensures Writable(t') && src.offs[i] + |Encode(t')| == NextStart(src.offs, i + 1, |src.bytes|)
  {
    hide ValidSource, CopyOf, LookedUp, Refs, Writable, Encode, Described, Load, RestWords, Known, TypeAt, Starts;
    SourceParts(src);
    SourceAt(src, i);
    var t1 := Halfway(src, at, t', i, size, s);
    var t, p := src.whole[src.start + i], src.offs[i];
    DescribedKnown(src.bytes, p, t, s, t1, size, Reading(src.baseStrs, src.ownStrs));
    EncodeDecode(src.bytes, p);
    CopyWritable(t, Reading(src.baseStrs, src.ownStrs), t1, size, s);
    LookedUpWritable(Shifted(|src.whole|, src.start, at), t1);
    SameSize(t, t');
  }

  lemma DescribedKnown(d: seq<Byte>, p: nat, t: Type, s': Strings, t1: Type, size: nat, s: Strings)
    requires InBounds(d, p) && t == Described(d, p) && CopyOf(t, s, t1, size, s') && !t.kind.Void?
    ensures Known(Load(d, p + INFO_OFF)) && Decodable(d, p) && t == TypeAt(d, p)
  {
    hide Load, TypeAt, RestWords, Names, KindOf, KindCode;
  }

  lemma CopyWritable(t: Type, s: Strings, t1: Type, size: nat, s': Strings)
    requires Writable(t) && CopyOf(t, s, t1, size, s') && size <= WORD_LIMIT
    ensures Writable(t1) && t1.kind == t.kind && t1.kflag == t.kflag && t1.vlen == t.vlen
  {
    hide Writable, Names, WithNames;
    WritableParts(t);
    assert forall j :: 0 <= j < |Names(t)| ==> ReadsAs(Names(t)[j], s, Names(t1)[j], size, s');
    NamesFit(t, Names(t1));
    KindsOfWithNames(t, Names(t1));
  }

  lemma WritableParts(t: Type)
    requires Writable(t)
    ensures WellFormed(t)
  {
  }

  lemma KindsOfWithNames(t: Type, ns: seq<nat>)
    requires WellFormed(t) && |ns| == |Names(t)|
    ensures var t' := WithNames(t, ns); t'.kind == t.kind && t'.kflag == t.kflag && t'.vlen == t.vlen
  {
  }

  lemma LookedUpWritable(m: seq<nat>, t: Type)
    requires Writable(t) && WellFormed(t) && InRange(Refs(t), |m|) && FitWords(m)
    ensures Writable(LookedUp(m, t))
  {
    hide Writable, Refs, WithRefs;
    var rs := Through(Table(m), Refs(t));
    assert forall j :: 0 <= j < |rs| ==> rs[j] == m[Refs(t)[j]];
    RefsFit(t, rs);
  }

  /** Rewrite the strings and the references of one type. */
  method CopyOne(p: StringPipe, src: Source, at: nat, m: seq<nat>, k: nat, t: Type)
    returns (r: Status, t': Type, ghost j: nat)
    requires p.Valid() && ValidSource(src) && p.srcBase == src.baseStrs && p.srcOwn == src.ownStrs
    requires src.baseStrs != "" ==> src.baseStrs == p.dstBase.data
    requires src.start + k < |src.whole| && t == src.whole[src.start + k] && m == Shifted(|src.whole|, src.start, at)
    modifies p.dst, p.offMap, p.hdr
    ensures p.Valid() && Continues(old(SectionOf(p.dst)), SectionOf(p.dst)) && p.dstBase.data == old(p.dstBase.data)
    ensures old(p.hdr.strLen) <= p.hdr.strLen && (r == Done ==> CopiedAt(src, at, t', k, p.Size(), p.Dst()))
    ensures r == Done || r == Fail(NoMem) || r == Fail(Inval)
    ensures (r == Fail(Inval) <==> t.kind.Other?) && (r == Fail(Inval) ==> j == 0)
    ensures j <= |Names(t)| && (r == Done ==> j == |Names(t)|) && p.BaseKeys() == old(p.BaseKeys())
    ensures p.Keys() == Adds(old(p.Keys()), WantedAt(src, k, j), p.BaseKeys())
    ensures Grew(|old(p.dst.data)|, old(p.offMap.sz), |p.dst.data|, p.offMap.sz, PriceAt(src, k))
    ensures old(p.Fits(PriceAt(src, k))) ==> r != Fail(NoMem)
  {
    hide Names, Refs, Continues, StringPipe.Valid, CopyOf, LookedUp, BaseClosed, InMemory, WantsUpTo, PriceUpTo, Adds,
      Grew;
    SourceStartsEmpty(src);
    r, t', j := p.AddType(t, |src.baseStrs|);
    if r != Done {
      return;
    }
    CopyRefs(t, p.Src(), t', p.Size(), p.Dst());
    r, t' := LookUpIds(t', m);
  }

  /** The rest of what has been brought in is still as it came. */
  ghost predicate StillThere(mem: seq<Byte>, lo: nat, bytes: seq<Byte>, at: nat) {
    at <= |bytes| && lo + |bytes| <= |mem| && mem[lo + at..lo + |bytes|] == bytes[at..]
  }

  lemma RestStillThere(mem: seq<Byte>, mem': seq<Byte>, lo: nat, bytes: seq<Byte>, at: nat, at': nat)
    requires StillThere(mem, lo, bytes, at) && at <= at' <= |bytes| && |mem'| == |mem| &&
      mem'[lo + at'..] == mem[lo + at'..]
    ensures StillThere(mem', lo, bytes, at')
  {
    var end := lo + |bytes|;
    assert mem'[lo + at'..end] == mem'[lo + at'..][..end - lo - at'] == mem[lo + at'..end];
    assert mem[lo + at'..end] == mem[lo + at..end][at' - at..] == bytes[at'..];
  }

  lemma TypeStillThere(mem: seq<Byte>, lo: nat, src: Source, i: nat)
    requires ValidSource(src) && i < |src.offs| && src.start + i < |src.whole| &&
      StillThere(mem, lo, src.bytes, src.offs[i])
    ensures InBounds(mem, lo + src.offs[i]) && Described(mem, lo + src.offs[i]) == src.whole[src.start + i]
  {
    hide ValidSource, Described, InBounds, Load, Known, RestWords;
    SourceAt(src, i);
    var q, n := src.offs[i], NextStart(src.offs, i + 1, |src.bytes|);
    assert mem[lo + q..lo + n] == mem[lo + q..lo + |src.bytes|][..n - q] == src.bytes[q..][..n - q] == src.bytes[q..n];
    DescribedElsewhere(src.bytes, q, n - q, mem, lo + q);
  }

  lemma WithinMemory(mem: seq<Byte>, lo: nat, bytes: seq<Byte>, at: nat)
    requires StillThere(mem, lo, bytes, at)
    ensures at <= |bytes| && lo + |bytes| <= |mem|
  {
  }

  lemma SizeInWords(p: StringPipe)
    requires p.Valid()
    ensures p.Size() <= WORD_LIMIT
  {
    hide Remembered, Hashmap.Table.Valid, Strset.StrAt;
  }

  /** How the outcome and the place go together: all types are done, or the next one cannot be. */
  ghost predicate Reached(src: Source, r: Status, n: nat, j: nat) {
    && IsPlace(src, n, j) && (r == Done ==> src.start + n == |src.whole|)
    && (r == Fail(Inval) ==> j == 0 && src.start + n < |src.whole| && src.whole[src.start + n].kind.Other?)
  }

  lemma MakeReached(src: Source, r: Status, n: nat, j: nat, was: set<string>, now: set<string>, base: set<string>)
    requires TakenUp(src, n, j, was, now, base) && (r == Done ==> src.start + n == |src.whole|)
    requires r == Fail(Inval) ==> j == 0 && src.start + n < |src.whole| && src.whole[src.start + n].kind.Other?
    ensures Reached(src, r, n, j)
  {
    hide ValidGraph, Names;
  }

  lemma StoppedAt(src: Source, r: Status, n: nat, j: nat)
    requires Reached(src, r, n, j)
    ensures r == Fail(Inval) ==> HasUnknown(src)
  {
  }

  /** Rewrite the copied types one by one where they are, behind the visible ones. */
  method CopyTypes(p: StringPipe, b: Construct.Builder, src: Source, at: nat)
    returns (r: Status, ghost out: seq<Type>, ghost n: nat, ghost j: nat)
    requires p.Valid() && ValidSource(src) && p.srcBase == src.baseStrs && p.srcOwn == src.ownStrs
    requires src.baseStrs != "" ==> src.baseStrs == p.dstBase.data
    requires b.Valid() && StillThere(b.mem, b.typeLen, src.bytes, 0) && |src.offs| <= |b.spare|
    requires src.start <= at && at + |src.offs| <= WORD_LIMIT
    modifies b, p.dst, p.offMap, p.hdr
    ensures p.Valid() && Continues(old(SectionOf(p.dst)), SectionOf(p.dst)) && p.dstBase.data == old(p.dstBase.data)
    ensures b.Valid() && b.Types() == old(b.Types()) && b.offs == old(b.offs) && b.typeLen + |src.bytes| <= |b.mem|
    ensures old(p.hdr.strLen) <= p.hdr.strLen
    ensures r == Done ==>
      Copied(src, at, out, |src.whole| - src.start, p.Size(), p.Dst()) && b.Written(out, |src.bytes|) &&
      |out| == |src.offs|
    ensures r == Done || r == Fail(NoMem) || r == Fail(Inval)
    ensures Reached(src, r, n, j) && TakenUp(src, n, j, old(p.Keys()), p.Keys(), p.BaseKeys())
    ensures p.BaseKeys() == old(p.BaseKeys()) && ValidGraph(src.whole)
    ensures old(p.Fits(Prices(src, |src.whole| - src.start))) ==> r != Fail(NoMem)
  {
    hide TakenUp, ValidGraph, Prices, PriceAt, IsPlace, WantedAt, Adds;
    hide Names, Refs, Continues, StringPipe.Valid, CopiedAt, Copied, ValidSource, Starts, Listing, AllInBounds, Encode,
      Writable,
      Construct.Builder.Written, Described, InBounds, Load, Known, RestWords, StillThere;
    ContinuesRefl(SectionOf(p.dst));
    SourceParts(src);
    NoneTakenUp(src, p.Keys(), p.BaseKeys());
    var m := Shifted(|src.whole|, src.start, at);
    out := [];
    NoneCopied(src, at, p.Size(), p.Dst());
    b.NoneWritten();
    var i, q := 0, 0;
    while i < |src.offs|
      invariant 0 <= i <= |src.offs| && p.Valid() && p.dstBase.data == old(p.dstBase.data) &&
        old(p.hdr.strLen) <= p.hdr.strLen
      invariant Continues(old(SectionOf(p.dst)), SectionOf(p.dst))
      invariant Copied(src, at, out, i, p.Size(), p.Dst())
      invariant b.Valid() && b.Types() == old(b.Types()) && b.offs == old(b.offs) && |src.offs| <= |b.spare|
      invariant |out| == i && q == NextStart(src.offs, i, |src.bytes|) && StillThere(b.mem, b.typeLen, src.bytes, q) &&
        b.Written(out, q)
      invariant p.BaseKeys() == old(p.BaseKeys()) && TakenUp(src, i, 0, old(p.Keys()), p.Keys(), p.BaseKeys())
      invariant Grew(|old(p.dst.data)|, old(p.offMap.sz), |p.dst.data|, p.offMap.sz, Prices(src, i))
    {
      ghost var before, size := SectionOf(p.dst), p.Size();
      p.SizeFits();
      WithinMemory(b.mem, b.typeLen, src.bytes, q);
      SourceAt(src, i);
      TypeStillThere(b.mem, b.typeLen, src, i);
      var t := Described(b.mem, b.typeLen + q);
      var t';
      PricesNext(src, i);
      ghost var keys := p.Keys();
      r, t', j := CopyOne(p, src, at, m, i, t);
      TakeUp(src, i, j, old(p.Keys()), keys, p.Keys(), p.BaseKeys());
      ContinuesTrans(old(SectionOf(p.dst)), before, SectionOf(p.dst));
      if r != Done {
        WithinMemory(b.mem, b.typeLen, src.bytes, q);
        n := i;
        MakeReached(src, r, n, j, old(p.Keys()), p.Keys(), p.BaseKeys());
        return;
      }
      CopiedOn(src, at, out, i, p.dstBase.data, before, SectionOf(p.dst), size, p.Size());
      CopiedNext(src, at, out, i, t', p.Size(), p.Dst());
      SizeInWords(p);
      CopyFits(src, at, i, t', p.Size(), p.Dst());
      ghost var was, q0 := b.mem, q;
      q := b.Write(out, q, i, t');
      RestStillThere(was, b.mem, b.typeLen, src.bytes, q0, q);
      out := out + [t'];
      i := i + 1;
    }
    WithinMemory(b.mem, b.typeLen, src.bytes, q);
    n, j := i, 0;
    r := Done;
    MakeReached(src, r, n, j, old(p.Keys()), p.Keys(), p.BaseKeys());
  }

  // ----- from copied types to appended ones -----

  /** What has been copied can be read with the strings that can be read. */
  lemma CopiedVisible(src: Source, at: nat, out: seq<Type>, n: nat, base: string, own: string, len: nat)
    requires Copied(src, at, out, n, |base| + len, Reading(base, own)) && len <= |own| && Strset.Terminated(own[..len])
    ensures Copied(src, at, out, n, |base| + len, Reading(base, own[..len]))
  {
    hide CopyOf, LookedUp, Refs, Reading;
    forall k | 0 <= k < n
      ensures CopiedAt(src, at, out[k], k, |base| + len, Reading(base, own[..len]))
    {
      var t1 := Halfway(src, at, out[k], k, |base| + len, Reading(base, own));
      CopyVisible(src.whole[src.start + k], Reading(src.baseStrs, src.ownStrs), t1, base, own, len);
    }
  }

  lemma CopyVisible(t: Type, s: Strings, t': Type, base: string, own: string, len: nat)
    requires CopyOf(t, s, t', |base| + len, Reading(base, own)) && len <= |own| && Strset.Terminated(own[..len])
    ensures CopyOf(t, s, t', |base| + len, Reading(base, own[..len]))
  {
    hide Names, WithNames, Strset.StrAt;
    forall j | 0 <= j < |Names(t)|
      ensures ReadsAs(Names(t)[j], s, Names(t')[j], |base| + len, Reading(base, own[..len]))
    {
      var off := Names(t')[j];
      assert ReadsAs(Names(t)[j], s, off, |base| + len, Reading(base, own));
      if off >= |base| {
        Strset.StrAtAppend(own[..len], own[len..], off - |base|);
        assert own[..len] + own[len..] == own;
      }
    }
  }

  lemma CopiedAppended(src: Source, old_: seq<Type>, out: seq<Type>, size: nat, s: Strings)
    requires ValidSource(src) && Copied(src, |old_|, out, |src.whole| - src.start, size, s)
    ensures Appended(src, old_, old_ + out, s)
  {
    hide CopiedAt, Refs, Names, MovedOver, InMemory, BaseClosed, Reading;
    forall x | src.start <= x < |src.whole|
      ensures MovedOver(src.whole[x], Reading(src.baseStrs, src.ownStrs), (old_ + out)[x - src.start + |old_|], s,
        Shifted(|src.whole|, src.start, |old_|))
    {
      OneMoved(src, |old_|, out[x - src.start], x - src.start, size, s);
    }
  }

  lemma CopiedInRange(src: Source, at: nat, out: seq<Type>, size: nat, s: Strings)
    requires ValidSource(src) && Copied(src, at, out, |src.whole| - src.start, size, s)
    ensures forall k :: 0 <= k < |out| ==> WellFormed(out[k]) && InRange(Names(out[k]), size)
  {
    hide CopiedAt, Refs, Names, MovedOver, InMemory, BaseClosed, Reading;
    forall k | 0 <= k < |out|
      ensures WellFormed(out[k]) && InRange(Names(out[k]), size)
    {
      OneMoved(src, at, out[k], k, size, s);
    }
  }

  lemma CopiedKnown(src: Source, at: nat, out: seq<Type>, size: nat, s: Strings)
    requires src.start <= |src.whole| && Copied(src, at, out, |src.whole| - src.start, size, s)
    ensures !HasUnknown(src)
  {
    hide CopiedAt, CopyOf, LookedUp, Refs, Reading;
    forall x | src.start <= x < |src.whole|
      ensures !src.whole[x].kind.Other?
    {
      assert CopiedAt(src, at, out[x - src.start], x - src.start, size, s);
      var t := Halfway(src, at, out[x - src.start], x - src.start, size, s);
      CopyKnown(src.whole[x], Reading(src.baseStrs, src.ownStrs), t, size, s);
    }
  }

  lemma CopyKnown(t: Type, s: Strings, t': Type, size: nat, s': Strings)
    requires CopyOf(t, s, t', size, s')
    ensures !t.kind.Other?
  {
  }

  lemma OneMoved(src: Source, at: nat, t': Type, k: nat, size: nat, s: Strings)
    requires ValidGraph(src.whole) && src.start + k < |src.whole| && CopiedAt(src, at, t', k, size, s)
    ensures MovedOver(src.whole[src.start + k], Reading(src.baseStrs, src.ownStrs), t', s,
      Shifted(|src.whole|, src.start, at))
    ensures WellFormed(t') && InRange(Names(t'), size)
  {
    hide CopiedAt, CopyOf, LookedUp, Refs, Names, MovedOver, Reading;
    var t := Halfway(src, at, t', k, size, s);
    CopyMoved(src.whole[src.start + k], Reading(src.baseStrs, src.ownStrs), t, size, s,
      Shifted(|src.whole|, src.start, at));
  }

  lemma CopyMoved(t: Type, s: Strings, t': Type, size: nat, s': Strings, m: seq<nat>)
    requires CopyOf(t, s, t', size, s') && InRange(Refs(t), |m|) && InRange(Refs(t'), |m|)
    ensures MovedOver(t, s, LookedUp(m, t'), s', m) && InRange(Names(LookedUp(m, t')), size)
  {
    hide Refs, LookedUp, Names, Blank, WithNames;
    RefsOfWithNames(t, Names(t'));
    BlankOfWithNames(t, Names(t'));
    LookedUpParts(m, t');
    assert Read(Names(t'), s') == Read(Names(t), s);
    assert forall j :: 0 <= j < |Names(t)| ==> ReadsAs(Names(t)[j], s, Names(t')[j], size, s');
  }

  /** The object with the types taken up. */
  lemma AppendedObject(baseTypes: seq<Type>, d: seq<Byte>, offs: seq<nat>, lay: Option<seq<Layout>>, out: seq<Type>,
                       src: Source,
                       base: string, own: string, len: nat, d': seq<Byte>, offs': seq<nat>)
    requires Starts(d, lay, 0, |d|, 0) == Some(offs) && AllInBounds(d, offs) && AllWritable(out) && ValidSource(src)
    requires d' == d + EncodeAll(out) && Starts(d', lay, 0, |d'|, 0) == Some(offs')
    requires var was := baseTypes + Listing(d, offs);
      ValidGraph(was) && BaseClosed(was, |baseTypes|) &&
        Copied(src, |was|, out, |src.whole| - src.start, |base| + len, Reading(base, own))
    requires len <= |own| && Strset.Terminated(own[..len]) && 0 < src.start <= |baseTypes|
    ensures AllInBounds(d', offs') && !HasUnknown(src)
    ensures var was, now := baseTypes + Listing(d, offs), baseTypes + Listing(d', offs');
      && Appended(src, was, now, Reading(base, own[..len])) && ValidGraph(now) && BaseClosed(now, |baseTypes|)
      && forall x :: |was| <= x < |now| ==> InRange(Names(now[x]), |base| + len)
  {
    hide Starts, Listing, AllInBounds, EncodeAll, AllWritable, ValidSource, Copied, BaseClosed, Appended, Names,
      ValidGraph, Reading;
    var was := baseTypes + Listing(d, offs);
    SourceParts(src);
    ListingMore(d, offs, out, lay);
    CopiedVisible(src, |was|, out, |src.whole| - src.start, base, own, len);
    CopiedAppended(src, was, out, |base| + len, Reading(base, own[..len]));
    CopiedInRange(src, |was|, out, |base| + len, Reading(base, own[..len]));
    CopiedKnown(src, |was|, out, |base| + len, Reading(base, own));
    AppendedValid(src, was, was + out, Reading(base, own[..len]), |baseTypes|);
    assert baseTypes + (Listing(d, offs) + out) == was + out;
  }

  lemma TargetParts(base: Strset.Set, strs: Strset.Set)
    requires IsTarget(base, strs)
    ensures base != strs
  {
  }

  lemma ReadableOn(was: Section, now: Section, n: nat)
    requires Continues(was, now) && n <= |was.data|
    ensures n <= |now.data| && now.data[..n] == was.data[..n]
    ensures forall s :: s in now.index && s !in was.index ==> now.index[s] >= n
  {
  }

  /** Bring in the types, for which there is room by now, and let them be seen if all could be rewritten. */
  method AppendAll(dst: Object, src: Source, p: StringPipe) returns (r: Status, ghost n: nat, ghost j: nat)
    requires dst.Valid() && ValidSource(src) && 0 < src.start <= |dst.baseTypes|
    requires p.Valid() && p.srcBase == src.baseStrs && p.srcOwn == src.ownStrs
    requires p.dstBase == dst.base && p.dst == dst.strs && p.hdr == dst.hdr &&
      (src.baseStrs != "" ==> src.baseStrs == dst.base.data)
    requires dst.b.typeLen + |src.bytes| <= |dst.b.mem| && |src.offs| <= |dst.b.spare|
    modifies dst.b, dst.strs, dst.hdr, p.offMap
    ensures dst.Valid() && Continues(old(SectionOf(dst.strs)), SectionOf(dst.strs))
    ensures r == Done || r == Fail(NoMem) || r == Fail(Inval)
    ensures Reached(src, r, n, j)
    ensures TakenUp(src, n, j, old(dst.strs.index.Keys), dst.strs.index.Keys, dst.base.index.Keys)
    ensures ValidGraph(src.whole)
    ensures old(p.Fits(Prices(src, |src.whole| - src.start))) ==> r != Fail(NoMem)
    ensures r != Done ==> dst.Answers() == old(dst.Answers())
    ensures r == Done ==> !HasUnknown(src) && Appended(src, old(dst.Types()), dst.Types(), dst.Strings())
    ensures r == Done ==> forall x :: |old(dst.Types())| <= x < |dst.Types()| ==>
      InRange(Names(dst.Types()[x]), |dst.base.data| + dst.hdr.strLen)
  {
    hide Names, Refs, Continues, Copied, BaseClosed, Appended, StringPipe.Valid, IsTarget, ValidGraph, ValidSource,
      Starts, Listing,
      AllInBounds, Construct.Builder.Written, Strset.Terminated, EncodeAll, AllWritable, HasUnknown, Reading;
    var oldLen := dst.hdr.strLen;
    TargetParts(dst.base, dst.strs);
    SourceParts(src);
    dst.b.Fill(src.bytes);
    ghost var out;
    r, out, n, j := CopyTypes(p, dst.b, src, dst.b.startId + |dst.b.offs|);
    p.ValidTarget();
    if r != Done {
      ReadableOn(old(SectionOf(dst.strs)), SectionOf(dst.strs), oldLen);
      dst.b.ClearBehind(|src.bytes|);
      dst.hdr.strLen := oldLen;
      return;
    }
    ghost var d, offs := dst.b.Types(), dst.b.offs;
    dst.b.CommitAll(|src.bytes|, |src.offs|, out);
    AppendedObject(dst.baseTypes, d, offs, dst.b.lay, out, src, dst.base.data, dst.strs.data, dst.hdr.strLen,
      dst.b.Types(), dst.b.offs);
  }

  /** Memory is there, and no limit is reached. */
  ghost predicate Ample(dst: Object, src: Source, env: Construct.Env, mapMem: bool, plenty: bool)
    requires ValidGraph(src.whole) && src.start <= |src.whole|
    reads dst, dst.b, dst.strs
  {
    && env.typeMem && env.idxMem && mapMem && plenty
    && dst.b.typeLen + |src.bytes| <= Construct.MAX_TYPE_BYTES && |dst.b.offs| + |src.offs| <= Construct.MAX_TYPES
    && |dst.strs.data| + Prices(src, |src.whole| - src.start) <= Strset.MAX_STR_OFFSET
  }

  /** A set that only grows is unchanged if it has no new strings. */
  lemma SameStrings(was: Section, now: Section, names: set<string>, base: set<string>)
    requires Continues(was, now) && now.index.Keys == Adds(was.index.Keys, names, base)
    ensures now.index == was.index <==> names <= was.index.Keys + base
  {
    hide Adds, Strset.StrAt;
    AddsNothing(was.index.Keys, names, base);
  }

  /** Append all own types of the source, and return the id of the first. A source over another base is
      refused, and memory may run out at any point. On failure every answer about types and strings is as
      before, but strings that have been taken up by then stay in the set, where the offsets found for them
      cannot be read: the set is as before exactly if the strings needed up to there were known. */
  method AddBtf(dst: Object, src: Source, srcBase: Strset.Set?, env: Construct.Env, mapMem: bool, plenty: bool)
    returns (r: Status, id: nat, ghost n: nat, ghost j: nat)
    requires dst.Valid() && SourceOf(src, srcBase, dst)
    modifies dst.b, dst.strs, dst.hdr
    ensures dst.Valid() && Continues(old(SectionOf(dst.strs)), SectionOf(dst.strs))
    ensures r != Done ==> dst.Answers() == old(dst.Answers())
    ensures r != Done ==>
      forall s :: s in dst.strs.index && s !in old(dst.strs.index) ==> dst.strs.index[s] >= dst.hdr.strLen
    ensures Reached(src, r, n, j)
    ensures dst.strs.index.Keys == Adds(old(dst.strs.index.Keys), WantedBy(src, n, j), dst.base.index.Keys)
    ensures dst.strs.index == old(dst.strs.index) <==>
      WantedBy(src, n, j) <= old(dst.strs.index.Keys) + dst.base.index.Keys
    ensures r == Fail(NotSupported) <==> srcBase != null && srcBase != dst.base
    ensures (r == Fail(Inval) ==> HasUnknown(src)) && (HasUnknown(src) ==> r != Done)
    ensures old(Ample(dst, src, env, mapMem, plenty)) && r != Fail(NotSupported) ==>
      r == if HasUnknown(src) then Fail(Inval) else Done
    ensures r == Done ==> id == |old(dst.Types())| && Appended(src, old(dst.Types()), dst.Types(), dst.Strings())
    ensures r == Done ==> forall x :: |old(dst.Types())| <= x < |dst.Types()| ==>
      InRange(Names(dst.Types()[x]), |dst.base.data| + dst.hdr.strLen)
  {
    hide Names, Refs, Continues, Copied, BaseClosed, Appended, StringPipe.Valid, IsTarget, ValidGraph, ValidSource,
      Starts, Listing, Adds, WantedBy,
      AllInBounds, Construct.Builder.Written, Strset.Terminated, EncodeAll, AllWritable, HasUnknown, Reading;
    ContinuesRefl(SectionOf(dst.strs));
    ReadableOn(SectionOf(dst.strs), SectionOf(dst.strs), dst.hdr.strLen);
    SourceParts(src);
    id, n, j := 0, 0, 0;
    NoneTakenUp(src, dst.strs.index.Keys, dst.base.index.Keys);
    SameStrings(SectionOf(dst.strs), SectionOf(dst.strs), WantedBy(src, 0, 0), dst.base.index.Keys);
    if srcBase != null && srcBase != dst.base {
      r := Fail(NotSupported);
      return;
    }
    var first := dst.b.startId + |dst.b.offs|;
    var got := dst.b.Reserve(|src.bytes|, |src.offs|, env.typeMem, env.idxMem);
    if !got || !mapMem {
      r := Fail(NoMem);
      return;
    }
    var p := new StringPipe(src.baseStrs, src.ownStrs, dst.base, dst.strs, dst.hdr, plenty);
    r, n, j := AppendAll(dst, src, p);
    ReadableOn(old(SectionOf(dst.strs)), SectionOf(dst.strs), old(dst.hdr.strLen));
    SameStrings(old(SectionOf(dst.strs)), SectionOf(dst.strs), WantedBy(src, n, j), dst.base.index.Keys);
    StoppedAt(src, r, n, j);
    if r == Done {
      id := first;
    }
  }

  // ----- what the appended types mean -----

  lemma AppendedValid(src: Source, old_: seq<Type>, now: seq<Type>, s: Strings, start: nat)
    requires Appended(src, old_, now, s) && ValidGraph(old_) && start <= |old_| && BaseClosed(old_, start) &&
      0 < src.start
    requires src.start <= |old_|
    ensures ValidGraph(now) && BaseClosed(now, start)
  {
    hide Refs, Names, Blank;
    forall y | 0 <= y < |now|
      ensures WellFormed(now[y]) && InRange(Refs(now[y]), |now|) && (y > 0 ==> !now[y].kind.Void?) &&
        (y < start ==> InRange(Refs(now[y]), start))
    {
      if y < |old_| {
        assert now[y] == old_[y];
      } else {
        var x := y - |old_| + src.start;
        var m := Shifted(|src.whole|, src.start, |old_|);
        assert MovedOver(src.whole[x], Reading(src.baseStrs, src.ownStrs), now[y], s, m);
        BlankKind(src.whole[x]);
        BlankKind(now[y]);
      }
    }
  }

  lemma AppendedAt(src: Source, old_: seq<Type>, now: seq<Type>, s: Strings, x: nat)
    requires Appended(src, old_, now, s) && ValidGraph(now) && src.start <= x < |src.whole|
    ensures var m, t := Shifted(|src.whole|, src.start, |old_|), src.whole[x]; var t' := now[m[x]];
      && |Refs(t')| == |Refs(t)| && (forall j :: 0 <= j < |Refs(t)| ==> Refs(t')[j] == m[Refs(t)[j]])
      && Blank(t') == Blank(t) && Read(Names(t'), s) == Read(Names(t), Reading(src.baseStrs, src.ownStrs))
  {
    hide Refs, Names, Blank, Reading;
    var m := Shifted(|src.whole|, src.start, |old_|);
    assert MovedOver(src.whole[x], Reading(src.baseStrs, src.ownStrs), now[m[x]], s, m);
  }

  /** Each source type means, under its shifted id, what it meant in the source. */
  lemma {:induction false} AppendedMeans(src: Source, base: string, own: string, old_: seq<Type>, now: seq<Type>,
                                         x: nat, k: nat)
    requires ValidSource(src) && src.start <= |old_| && src.whole[..src.start] == old_[..src.start] && x < |src.whole|
    requires src.baseStrs == "" || src.baseStrs == base
    requires Appended(src, old_, now, Reading(base, own)) && ValidGraph(now)
    ensures Means(now, Reading(base, own), Shifted(|src.whole|, src.start, |old_|)[x], k) ==
      Means(src.whole, Reading(src.baseStrs, src.ownStrs), x, k)
    decreases k
  {
    hide Refs, Names, Blank, BaseClosed, InMemory, MovedOver, Reading;
    var m, s, s0 := Shifted(|src.whole|, src.start, |old_|), Reading(base, own), Reading(src.baseStrs, src.ownStrs);
    if k > 0 {
      var rs := Refs(src.whole[x]);
      if x < src.start {
        assert now[x] == old_[x] == old_[..src.start][x] == src.whole[..src.start][x];
        BaseParts(src, base, own, x);
      } else {
        AppendedAt(src, old_, now, s, x);
      }
      assert |Refs(now[m[x]])| == |rs| && forall j :: 0 <= j < |rs| ==> Refs(now[m[x]])[j] == m[rs[j]];
      forall j | 0 <= j < |rs|
        ensures Means(now, s, Refs(now[m[x]])[j], k - 1) == Means(src.whole, s0, rs[j], k - 1)
      {
        AppendedMeans(src, base, own, old_, now, rs[j], k - 1);
      }
    }
  }

  /** A base type refers to base types and base strings. */
  lemma BaseParts(src: Source, base: string, own: string, x: nat)
    requires ValidSource(src) && (src.baseStrs == "" || src.baseStrs == base) && x < src.start
    ensures forall j :: 0 <= j < |Refs(src.whole[x])| ==> Refs(src.whole[x])[j] < src.start
    ensures Read(Names(src.whole[x]), Reading(base, own)) ==
      Read(Names(src.whole[x]), Reading(src.baseStrs, src.ownStrs))
  {
    hide Refs, Names, Strset.StrAt, InMemory;
    VoidRefs();
    assert InRange(Names(src.whole[x]), |src.baseStrs|);
    assert src.baseStrs == "" ==> x == 0;
  }
}
