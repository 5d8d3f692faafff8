/** A failed append that can be seen. */
module AddBtfInputs {
  import opened Options
  import opened BtfTypes
  import opened Meaning
  import opened GraphMatch
  import opened DedupState
  import opened DedupResult
  import opened StringPass
  import opened Pipe
  import opened Words
  import opened TypeSection
  import opened TypeCodec
  import opened TypeListing
  import opened AddBtf
  import Construct
  import Strset

  const NEW_KIND: nat := 23

  function Named(): Type {
    Type(Float, false, 0, 1, 4, [], [])
  }

  function OfNewKind(): Type {
    Type(Other(NEW_KIND), false, 0, 0, 0, [], [])
  }

  function NewKindBytes(): seq<Byte> {
    [0, 0, 0, 0, 0, 0, 0, 23, 0, 0, 0, 0]
  }

  /** The layout table says that descriptors of the new kind are bare headers. */
  function NewLayout(): Option<seq<Layout>> {
    Some(seq(NEW_KIND + 1, _ => Layout(0, 0, 0)))
  }

  lemma NamedParts()
    ensures Writable(Named()) && Refs(Named()) == [] && Names(Named()) == [1]
    ensures WellFormed(OfNewKind()) && Refs(OfNewKind()) == [] && |Names(OfNewKind())| <= 1
    ensures InRange(Names(OfNewKind()), 1)
  {
    assert Flat([]) == [];
  }

  function SmallSource(): Source
    requires Writable(Named())
  {
    Source([VOID, Named(), OfNewKind()], 1, Encode(Named()) + NewKindBytes(), NewLayout(), [0, HEADER_SIZE], "",
           "\0a\0")
  }

  lemma NewKindRead()
    ensures var info := Load(NewKindBytes(), INFO_OFF);
      !Known(info) && SizeOf(info, NewLayout()) == Some(HEADER_SIZE) && Described(NewKindBytes(), 0) == OfNewKind()
    ensures |NewKindBytes()| == HEADER_SIZE
  {
    assert Load(NewKindBytes(), INFO_OFF) == NEW_KIND * VLENS;
  }

  lemma TwoStarts(a: seq<Byte>, b: seq<Byte>, lay: Option<seq<Layout>>)
    requires |a| == |b| == HEADER_SIZE
    requires SizeOf(Load(a, INFO_OFF), lay) == SizeOf(Load(b, INFO_OFF), lay) == Some(HEADER_SIZE)
    ensures Starts(a + b, lay, 0, |a + b|, 0) == Some([0, HEADER_SIZE])
  {
    hide Load, SizeOf, Starts;
    NoStarts(lay);
    var none: seq<nat> := [];
    StartsAppended([], a, lay, 0, none);
    assert none + [0] == [0];
    assert [] + a == a;
    StartsAppended(a, b, lay, 0, [0]);
    assert [0] + [|a|] == [0, HEADER_SIZE];
  }

  lemma NoStarts(lay: Option<seq<Layout>>)
    ensures Starts([], lay, 0, 0, 0) == Some([])
  {
  }

  lemma TwoDescribed(a: seq<Byte>, t: Type, b: seq<Byte>, t': Type)
    requires |a| == |b| == HEADER_SIZE
    requires Decodable(a + b, 0) && TypeAt(a + b, 0) == t
    requires InBounds(a + b, HEADER_SIZE) && Described(a + b, HEADER_SIZE) == t'
    ensures AllInBounds(a + b, [0, HEADER_SIZE]) && Listing(a + b, [0, HEADER_SIZE]) == [t, t']
  {
    hide Load, TypeAt, RestWords, Known;
  }

  lemma SmallSourceStarts()
    ensures Writable(Named()) && InMemory(SmallSource())
  {
    hide Load, Encode, Known, Described, Starts, InBounds, SizeOf, RestWords, Decodable, NewKindBytes, AllInBounds;
    hide Writable, TypeAt, NewLayout;
    NamedBytes();
    NewKindRead();
    var a, b := Encode(Named()), NewKindBytes();
    TwoStarts(a, b, NewLayout());
    DecodeEncode([], Named(), b);
    assert [] + a + b == a + b;
    NewKindAfter(a);
    TwoDescribed(a, Named(), b, OfNewKind());
    var src := SmallSource();
    assert src.whole[1..] == [Named(), OfNewKind()];
  }

  lemma NamedBytes()
    ensures Writable(Named()) && |Encode(Named())| == HEADER_SIZE
    ensures SizeOf(Load(Encode(Named()), INFO_OFF), NewLayout()) == Some(HEADER_SIZE)
  {
    hide Load, Encode, SizeOf, NewLayout;
    NamedParts();
    DecodeEncode([], Named(), []);
    EncodeSize(Named(), NewLayout());
  }

  lemma NewKindAfter(a: seq<Byte>)
    ensures InBounds(a + NewKindBytes(), |a|) && Described(a + NewKindBytes(), |a|) == OfNewKind()
  {
    hide Load, Known, Described, InBounds, RestWords;
    NewKindRead();
    var b := NewKindBytes();
    assert InBounds(b, 0) by {
      NewKindInBounds();
    }
    assert (a + b)[|a|..|a| + HEADER_SIZE] == b[0..HEADER_SIZE];
    DescribedElsewhere(b, 0, HEADER_SIZE, a + b, |a|);
  }

  lemma NewKindInBounds()
    ensures InBounds(NewKindBytes(), 0)
  {
    NewKindRead();
  }

  lemma SmallSourceValid()
    ensures Writable(Named()) && ValidSource(SmallSource())
  {
    hide Encode, Names, Refs, InMemory;
    NamedParts();
    VoidRefs();
    SmallSourceStarts();
  }

  /** The set of the target takes up the name of the first type. */
  lemma NameWanted()
    ensures Writable(Named()) && ValidSource(SmallSource())
    ensures "a" in Wanted(SmallSource(), 1) && Prices(SmallSource(), 2) <= 2 && HasUnknown(SmallSource())
  {
    hide Encode, Names, Refs, InMemory, ValidGraph, Reading, Wanted, Prices;
    SmallSourceValid();
    NamedParts();
    var src := SmallSource();
    var ns, s := Names(OfNewKind()), Reading("", "\0a\0");
    SecondString();
    assert Wanted(src, 1) == Wanted(src, 0) + WantedAt(src, 0, 1) by {
      WantedOne(src);
    }
    assert WantsUpTo([1], s, 0, 1) == WantsUpTo([1], s, 0, 0) + Wants(1, s, 0);
    TwoPrices(src);
    assert PriceUpTo([1], s, 0, 1) == PriceUpTo([1], s, 0, 0) + Price(1, s, 0) == 2;
    assert PriceUpTo(ns, s, 0, |ns|) == 0;
    assert src.whole[2].kind.Other?;
  }

  lemma WantedOne(src: Source)
    requires ValidGraph(src.whole) && src.start + 1 <= |src.whole|
    ensures Wanted(src, 1) == Wanted(src, 0) + WantedAt(src, 0, |Names(src.whole[src.start])|)
  {
  }

  lemma TwoPrices(src: Source)
    requires ValidGraph(src.whole) && src.start + 2 <= |src.whole|
    ensures Prices(src, 2) == PriceAt(src, 0) + PriceAt(src, 1)
  {
    hide PriceAt;
    PricesNext(src, 0);
    PricesNext(src, 1);
  }

  lemma SecondString()
    ensures Reading("", "\0a\0")(1) == "a" && Reading("", "\0a\0")(0) == ""
  {
    EmptyFirst("\0a\0");
    assert Strset.StrAt("\0a\0", 2) == "";
    assert Strset.StrAt("\0a\0", 1) == "a";
  }

  /** An object without types, and with the empty string only. */
  method NewObject() returns (dst: Object)
    ensures fresh(dst) && fresh(dst.b) && fresh(dst.base) && fresh(dst.strs) && fresh(dst.hdr) && dst.Valid()
    ensures dst.baseTypes == [VOID] && dst.b.typeLen == 0 && dst.b.offs == []
    ensures dst.base.index == map[] && |dst.strs.data| == 1 && dst.strs.index == map["" := 0]
  {
    hide Starts, Refs, Reading;
    VoidRefs();
    var b := new Construct.Builder(None, 1);
    var base := new Strset.Set();
    var strs := new Strset.Set();
    strs.StartWithEmpty();
    var hdr := new Header(1);
    dst := new Object([VOID], b, base, strs, hdr);
  }

  /** What matters of the source. */
  ghost predicate StopsAfterName(src: Source) {
    && ValidSource(src) && src.start == 1 && src.baseStrs == "" && |src.whole| == 3
    && !src.whole[1].kind.Other? && src.whole[2].kind.Other?
    && |src.bytes| <= 0x100 && |src.offs| == 2 && Prices(src, 2) <= 2 && "a" in Wanted(src, 1)
  }

  lemma SmallSourceStops()
    ensures Writable(Named()) && StopsAfterName(SmallSource())
  {
    hide Encode, Names, Refs, InMemory, ValidSource, Prices, Wanted;
    NameWanted();
    NamedBytes();
  }

  /** Such a source stops an append at its second type, with the name of the first taken up. */
  lemma NameTaken(src: Source, r: Status, n: nat, j: nat, was: set<string>, now: set<string>)
    requires StopsAfterName(src) && Reached(src, r, n, j) && r == Fail(Inval)
    requires now == Adds(was, WantedBy(src, n, j), {})
    ensures "a" in now
  {
    hide ValidGraph, ValidSource, Names, Wanted;
    assert n == 1;
    WantedStart(src, 1);
  }

  lemma HasOneUnknown(src: Source)
    requires StopsAfterName(src)
    ensures HasUnknown(src)
  {
    hide ValidSource, Wanted, Prices;
  }

  /** A type with a new name, and then one of an unknown kind: the append fails, and a lookup by content finds the
      name, which it did not find before, at an offset that cannot be read. */
  method FailedAppendShows() returns (before: Option<nat>, r: Status, after: Option<nat>, strLen: nat)
    ensures before.None? && r == Fail(Inval) && after.Some? && after.value >= strLen
  {
    hide SmallSource, Encode, ValidSource, ValidGraph, Prices, Wanted, Starts, Reading, HasUnknown, Strset.Set.Valid;
    hide Readable, BaseClosed, AllInBounds, Listing, Construct.Builder.Valid, Appended, Adds, WantedBy, Reached;
    SmallSourceStops();
    var src := SmallSource();
    HasOneUnknown(src);
    var dst := NewObject();
    ghost var was := dst.strs.index.Keys;
    before := dst.strs.FindStr("a");
    var id;
    ghost var n, j;
    r, id, n, j := AddBtf.AddBtf(dst, src, null, Construct.Env(true, None, true), true, true);
    assert dst.base.index.Keys == {};
    NameTaken(src, r, n, j, was, dst.strs.index.Keys);
    after, strLen := dst.strs.FindStr("a"), dst.hdr.strLen;
  }
}
