/** A BTF object as one block of bytes: a header, then types, an optional layout table, and strings.
    Reading a block, writing one in either byte order, and why reading undoes writing. */
module RawBtf {
  import opened Options
  import opened Words
  import opened TypeSection

  const MAGIC: nat := 0xEB9F
  const SWAPPED_MAGIC: nat := 0x9FEB
  const SHORT_HEADER: nat := 24
  const FULL_HEADER: nat := 32
  const MAX_STR_OFFSET: nat := 0x7fff_ffff

  datatype Header = Header(magic: nat, version: Byte, flags: Byte, hdrLen: nat, typeOff: nat, typeLen: nat,
                           strOff: nat, strLen: nat, layoutOff: nat, layoutLen: nat)

  /** An object in the machine's own byte order. `offs` are the starts of its types. */
  datatype Btf = Btf(hdr: Header, swapped: bool, extra: bool, types: seq<Byte>, offs: seq<nat>, layout: seq<Byte>,
                     strs: seq<Byte>)

  // ----- the header -----

  predicate FitsWords(h: Header) {
    && h.magic < 0x1_0000 && h.hdrLen < WORD_LIMIT && h.typeOff < WORD_LIMIT && h.typeLen < WORD_LIMIT &&
      h.strOff < WORD_LIMIT
    && h.strLen < WORD_LIMIT && h.layoutOff < WORD_LIMIT && h.layoutLen < WORD_LIMIT
  }

  function HeaderAt(d: seq<Byte>): (h: Header)
    requires |d| >= FULL_HEADER
    ensures FitsWords(h)
  {
    Header(Load16(d, 0), d[2], d[3], Load(d, 4), Load(d, 8), Load(d, 12), Load(d, 16), Load(d, 20), Load(d, 24),
      Load(d, 28))
  }

  function HeaderBytes(h: Header): (r: seq<Byte>)
    requires FitsWords(h)
    ensures |r| == FULL_HEADER
  {
    Half(h.magic) + [h.version, h.flags] + Word(h.hdrLen) + Word(h.typeOff) + Word(h.typeLen) + Word(h.strOff)
    + Word(h.strLen) + Word(h.layoutOff) + Word(h.layoutLen)
  }

  lemma WordAt(pre: seq<Byte>, w: nat, post: seq<Byte>)
    requires w < WORD_LIMIT
    ensures Load(pre + Word(w) + post, |pre|) == w
  {
    hide Word;
    var d := pre + Word(w) + post;
    LoadWithin(d, |pre|, |pre| + 4, |pre|);
    assert d[|pre|..|pre| + 4] == Word(w);
  }

  lemma HeaderOfBytes(h: Header)
    requires FitsWords(h)
    ensures HeaderAt(HeaderBytes(h)) == h
  {
    hide Word, Load, Half, Load16;
    var d := HeaderBytes(h);
    var d1 := Half(h.magic) + [h.version, h.flags];
    assert Load16(d, 0) == Load16(Half(h.magic), 0) by { FirstHalf(Half(h.magic), d); }
    var ws := [h.hdrLen, h.typeOff, h.typeLen, h.strOff, h.strLen, h.layoutOff, h.layoutLen];
    var x1 := d1 + Word(ws[0]);
    var x2 := x1 + Word(ws[1]);
    var x3 := x2 + Word(ws[2]);
    var x4 := x3 + Word(ws[3]);
    var x5 := x4 + Word(ws[4]);
    var x6 := x5 + Word(ws[5]);
    LoadLast(d1, ws[0], d);
    LoadLast(x1, ws[1], d);
    LoadLast(x2, ws[2], d);
    LoadLast(x3, ws[3], d);
    LoadLast(x4, ws[4], d);
    LoadLast(x5, ws[5], d);
    LoadLast(x6, ws[6], d);
  }

  lemma FirstHalf(x: seq<Byte>, d: seq<Byte>)
    requires |x| == 2 && x <= d
    ensures Load16(d, 0) == Load16(x, 0)
  {
  }

  lemma LoadLast(pre: seq<Byte>, w: nat, d: seq<Byte>)
    requires w < WORD_LIMIT && pre + Word(w) <= d
    ensures |pre| + 4 <= |d| && Load(d, |pre|) == w
  {
    hide Word;
    assert d == pre + Word(w) + d[|pre| + 4..];
    WordAt(pre, w, d[|pre| + 4..]);
  }

  function Blanks(n: nat): (r: seq<Byte>)
    ensures |r| == n && forall i :: 0 <= i < n ==> r[i] == 0
  {
    seq(n, _ => 0)
  }

  /** The first `n` bytes as copied into a structure of zeros. */
  function Copied(d: seq<Byte>, n: nat): (r: seq<Byte>)
    requires n <= |d|
    ensures |r| == FULL_HEADER
  {
    if n >= FULL_HEADER then d[..FULL_HEADER] else d[..n] + Blanks(FULL_HEADER - n)
  }

  /** Headers may be too short to have the last two fields. */
  function HeaderEnd(hdrLen: nat): nat {
    if hdrLen >= FULL_HEADER then FULL_HEADER else SHORT_HEADER
  }

  /** The header with each of its fields turned round. */
  function SwapHeader(d: seq<Byte>, hdrLen: nat): (r: seq<Byte>)
    requires HeaderEnd(hdrLen) <= |d|
    ensures |r| == |d|
  {
    [d[1], d[0]] + Swapped(d, 4, HeaderEnd(hdrLen))[2..]
  }

  lemma SwapHeaderTwice(d: seq<Byte>, hdrLen: nat)
    requires HeaderEnd(hdrLen) <= |d|
    ensures SwapHeader(SwapHeader(d, hdrLen), hdrLen) == d
  {
    var e := HeaderEnd(hdrLen);
    var once := SwapHeader(d, hdrLen);
    var twice := Swapped(once, 4, e);
    forall i | 2 <= i < |d|
      ensures twice[i] == d[i]
    {
      if 4 <= i < e {
        MirrorInside(4, e, i);
      }
    }
  }

  lemma SwapHeaderPrefix(d: seq<Byte>, k: nat, hdrLen: nat)
    requires HeaderEnd(hdrLen) <= k <= |d|
    ensures SwapHeader(d, hdrLen)[..k] == SwapHeader(d[..k], hdrLen)
    ensures SwapHeader(d, hdrLen)[k..] == d[k..]
  {
    var e := HeaderEnd(hdrLen);
    forall i | 4 <= i < e
      ensures Swapped(d, 4, e)[i] == Swapped(d[..k], 4, e)[i]
    {
      MirrorInside(4, e, i);
    }
  }

  // ----- reading -----

  /** Sections in order: types, then the layout table, then strings, all of them inside. */
  predicate Laid(h: Header, left: nat) {
    && h.strOff + h.strLen <= left && h.typeOff + h.typeLen <= h.strOff && h.typeOff % 4 == 0
    && (h.layoutLen != 0 ==>
      h.layoutOff % 4 == 0 && h.typeOff + h.typeLen <= h.layoutOff && h.layoutOff + h.layoutLen <= h.strOff)
  }

  datatype Front = Front(hdr: Header, hdrLen: nat, swapped: bool, extra: bool)

  /** What the header says, if it can be made sense of. */
  function ParseFront(d: seq<Byte>): Option<Front> {
    if |d| < SHORT_HEADER || (Load16(d, 0) != MAGIC && Load16(d, 0) != SWAPPED_MAGIC) then None
    else
      var swapped := Load16(d, 0) == SWAPPED_MAGIC;
      var hdrLen := Load(if swapped then Swapped(d, 4, 8) else d, 4);
      if (swapped && hdrLen < SHORT_HEADER) || |d| < hdrLen then None
      else
        var h := HeaderAt(Copied(if swapped then SwapHeader(d, hdrLen) else d, hdrLen));
        if Laid(h, |d| - hdrLen) then
          Some(Front(h, hdrLen, swapped, exists i :: FULL_HEADER <= i < hdrLen && d[i] != 0))
        else None
  }

  predicate GoodStrs(s: seq<Byte>, hasBase: bool) {
    (hasBase && s == []) || (s != [] && |s| - 1 <= MAX_STR_OFFSET && s[|s| - 1] == 0 && (hasBase || s[0] == 0))
  }

  /** A layout table with the last field of each entry turned round. */
  function SwapFlags(l: seq<Byte>): (r: seq<Byte>)
    requires |l| % 4 == 0
    ensures |r| == |l|
  {
    seq(|l|, i requires 0 <= i < |l| => if i % 4 == 2 then l[i + 1] else if i % 4 == 3 then l[i - 1] else l[i])
  }

  lemma SwapFlagsTwice(l: seq<Byte>)
    requires |l| % 4 == 0
    ensures SwapFlags(SwapFlags(l)) == l
  {
  }

  /** The layout table to go by: the own one, or else the base's. */
  function Table(l: seq<Byte>, baseLay: Option<seq<Layout>>): Option<seq<Layout>>
    requires |l| % 4 == 0
  {
    if l == [] then baseLay
    else Some(seq(|l| / 4, i requires 0 <= i < |l| / 4 => Layout(l[4 * i], l[4 * i + 1], Load16(l, 4 * i + 2))))
  }

  function SwapAll(d: seq<Byte>): seq<Byte>
    requires |d| % 4 == 0
  {
    Swapped(d, 0, |d|)
  }

  /** The length that the structure holds is not larger than the one that was read. */
  lemma HdrLenKept(d: seq<Byte>, f: Front)
    requires ParseFront(d) == Some(f)
    ensures f.hdr.hdrLen <= f.hdrLen <= |d| && Laid(f.hdr, |d| - f.hdr.hdrLen)
    ensures f.swapped ==> f.hdr.hdrLen == f.hdrLen
  {
    hide Load, Load16, Swapped, SwapHeader, Copied;
    if f.swapped {
      HdrLenSwapped(d, f.hdrLen);
      HdrLenCopied(SwapHeader(d, f.hdrLen), f.hdrLen);
    } else {
      HdrLenCopied(d, f.hdrLen);
    }
  }

  lemma HdrLenCopied(d: seq<Byte>, hdrLen: nat)
    requires 8 <= |d| && hdrLen <= |d| && Load(d, 4) == hdrLen
    ensures Load(Copied(d, hdrLen), 4) <= hdrLen && (hdrLen >= 8 ==> Load(Copied(d, hdrLen), 4) == hdrLen)
  {
    var c := Copied(d, hdrLen);
    if hdrLen >= 8 {
      assert c[4] == d[4] && c[5] == d[5] && c[6] == d[6] && c[7] == d[7];
    } else {
      assert forall i :: 4 <= i < 8 ==> c[i] <= d[i];
    }
  }

  lemma HdrLenSwapped(d: seq<Byte>, hdrLen: nat)
    requires HeaderEnd(hdrLen) <= |d|
    ensures Load(SwapHeader(d, hdrLen), 4) == Load(Swapped(d, 4, 8), 4)
  {
    hide Swapped;
    SwapFirst(d, 4, HeaderEnd(hdrLen));
    SwapFirst(d, 4, 8);
  }

  /** The sections that a header describes, in the machine's own order. */
  function ParseSections(d: seq<Byte>, h: Header, swapped: bool, extra: bool, hasBase: bool,
                         baseLay: Option<seq<Layout>>): Option<Btf>
    requires h.hdrLen <= |d| && Laid(h, |d| - h.hdrLen)
  {
    var n := h.hdrLen;
    var rawTypes, strs := d[n + h.typeOff..n + h.typeOff + h.typeLen], d[n + h.strOff..n + h.strOff + h.strLen];
    var rawLayout := if h.layoutLen == 0 then [] else d[n + h.layoutOff..n + h.layoutOff + h.layoutLen];
    if !GoodStrs(strs, hasBase) || h.layoutLen % 4 != 0 || (swapped && h.typeLen % 4 != 0) then None
    else
      var layout := if swapped then SwapFlags(rawLayout) else rawLayout;
      var types := if swapped then SwapAll(rawTypes) else rawTypes;
      var offs := Starts(types, if swapped then None else Table(layout, baseLay), 0, |types|, 0);
      if offs.None? then None else Some(Btf(h, swapped, extra, types, offs.value, layout, strs))
  }

  function Parse(d: seq<Byte>, hasBase: bool, baseLay: Option<seq<Layout>>): Option<Btf> {
    var f := ParseFront(d);
    if f.None? then None
    else HdrLenKept(d, f.value); ParseSections(d, f.value.hdr, f.value.swapped, f.value.extra, hasBase, baseLay)
  }

  // ----- writing -----

  /** An object with its sections behind each other, as objects have that were built or changed here. */
  ghost predicate Contiguous(b: Btf, hasBase: bool, baseLay: Option<seq<Layout>>) {
    var h := b.hdr;
    && FitsWords(h) && h.magic == MAGIC && SHORT_HEADER <= h.hdrLen &&
      Copied(HeaderBytes(h), Least(h.hdrLen)) == HeaderBytes(h)
    && h.typeOff == 0 && h.typeLen == |b.types| && h.layoutLen == |b.layout| && h.strLen == |b.strs|
    && h.strOff == |b.types| + |b.layout| && (b.layout != [] ==> h.layoutOff == |b.types|)
    && |b.layout| % 4 == 0 && GoodStrs(b.strs, hasBase)
    && Starts(b.types, Table(b.layout, baseLay), 0, |b.types|, 0) == Some(b.offs)
  }

  function Least(hdrLen: nat): nat {
    if hdrLen < FULL_HEADER then hdrLen else FULL_HEADER
  }

  /** All types are of kinds known here. */
  ghost predicate AllKnown(b: Btf) {
    Starts(b.types, None, 0, |b.types|, 0).Some?
  }

  function HeaderPart(h: Header, swap: bool): (r: seq<Byte>)
    requires FitsWords(h) && (swap ==> SHORT_HEADER <= h.hdrLen)
    ensures |r| == h.hdrLen
  {
    var b := if swap then SwapHeader(HeaderBytes(h), h.hdrLen) else HeaderBytes(h);
    b[..Least(h.hdrLen)] + Blanks(h.hdrLen - Least(h.hdrLen))
  }

  function RawData(b: Btf, swap: bool): seq<Byte>
    requires FitsWords(b.hdr) && (swap ==> SHORT_HEADER <= b.hdr.hdrLen && |b.types| % 4 == 0 && |b.layout| % 4 == 0)
  {
    HeaderPart(b.hdr, swap) + (if swap then SwapAll(b.types) else b.types)
    + (if swap then SwapFlags(b.layout) else b.layout) + b.strs
  }

  // ----- reading undoes writing -----

  lemma {:induction false} StartsAligned(d: seq<Byte>, lay: Option<seq<Layout>>, lo: nat, hi: nat, p: nat)
    requires lo <= p <= hi <= |d| && Starts(d, lay, lo, hi, p).Some?
    ensures (hi - p) % 4 == 0
    decreases hi - p
  {
    hide SizeOf, Load;
    if p + HEADER_SIZE <= hi {
      var n := SizeOf(Load(d, p + INFO_OFF), lay);
      StartsAligned(d, lay, lo, hi, p + n.value);
      assert hi - p == (hi - (p + n.value)) + n.value;
    }
  }

  lemma FrontOfRaw(b: Btf, swap: bool, hasBase: bool, baseLay: Option<seq<Layout>>, rest: seq<Byte>)
    requires Contiguous(b, hasBase, baseLay) && |rest| == |b.types| + |b.layout| + |b.strs|
    ensures ParseFront(HeaderPart(b.hdr, swap) + rest) == Some(Front(b.hdr, b.hdr.hdrLen, swap, false))
  {
    hide Load, Load16, HeaderBytes, Swapped, Starts, GoodStrs, Table, Copied, SwapHeader;
    var h := b.hdr;
    var d := HeaderPart(h, swap) + rest;
    HeaderOfBytes(h);
    StartsAligned(b.types, Table(b.layout, baseLay), 0, |b.types|, 0);
    MagicOfRaw(h, swap, rest);
    LengthOfRaw(h, swap, rest);
    CopyOfRaw(h, swap, rest);
    assert forall i :: FULL_HEADER <= i < h.hdrLen ==> d[i] == 0;
  }

  lemma MagicOfRaw(h: Header, swap: bool, rest: seq<Byte>)
    requires FitsWords(h) && h.magic == MAGIC && SHORT_HEADER <= h.hdrLen
    ensures Load16(HeaderPart(h, swap) + rest, 0) == if swap then SWAPPED_MAGIC else MAGIC
  {
    hide Swapped, Word;
    var hb := HeaderBytes(h);
    assert hb[0] == 0x9F && hb[1] == 0xEB;
  }

  lemma LengthOfRaw(h: Header, swap: bool, rest: seq<Byte>)
    requires FitsWords(h) && SHORT_HEADER <= h.hdrLen
    ensures var d := HeaderPart(h, swap) + rest; Load(if swap then Swapped(d, 4, 8) else d, 4) == h.hdrLen
  {
    hide HeaderBytes, Copied, Swapped;
    HeaderOfBytes(h);
    var hb, d := HeaderBytes(h), HeaderPart(h, swap) + rest;
    if swap {
      SwapFirst(hb, 4, HeaderEnd(h.hdrLen));
      SwapFirst(d, 4, 8);
      var once := Swapped(hb, 4, HeaderEnd(h.hdrLen));
      assert d[4] == once[4] && d[5] == once[5] && d[6] == once[6] && d[7] == once[7];
    } else {
      assert d[4] == hb[4] && d[5] == hb[5] && d[6] == hb[6] && d[7] == hb[7];
    }
  }

  lemma CopyOfRaw(h: Header, swap: bool, rest: seq<Byte>)
    requires FitsWords(h) && SHORT_HEADER <= h.hdrLen && Copied(HeaderBytes(h), Least(h.hdrLen)) == HeaderBytes(h)
    ensures var d := HeaderPart(h, swap) + rest;
      HeaderEnd(h.hdrLen) <= |d| && Copied(if swap then SwapHeader(d, h.hdrLen) else d, h.hdrLen) == HeaderBytes(h)
  {
    hide HeaderBytes, SwapHeader;
    var hb, d, n := HeaderBytes(h), HeaderPart(h, swap) + rest, Least(h.hdrLen);
    if swap {
      var once := SwapHeader(hb, h.hdrLen);
      SwapHeaderPrefix(hb, n, h.hdrLen);
      SwapHeaderPrefix(once, n, h.hdrLen);
      SwapHeaderTwice(hb, h.hdrLen);
      assert d[..n] == once[..n];
      SwapHeaderPrefix(d, n, h.hdrLen);
      assert SwapHeader(d, h.hdrLen)[..n] == hb[..n];
      CopyOfPrefix(SwapHeader(d, h.hdrLen), hb, h.hdrLen);
    } else {
      assert d[..n] == hb[..n];
      CopyOfPrefix(d, hb, h.hdrLen);
    }
  }

  lemma CopyOfPrefix(d: seq<Byte>, hb: seq<Byte>, n: nat)
    requires |hb| == FULL_HEADER && n <= |d| && d[..Least(n)] == hb[..Least(n)]
    ensures Copied(d, n) == Copied(hb, Least(n))
  {
  }

  lemma Sections(front: seq<Byte>, t: seq<Byte>, l: seq<Byte>, s: seq<Byte>)
    ensures var d, n := front + t + l + s, |front|;
      d == front + (t + l + s) && d[n..n + |t|] == t && d[n + |t|..n + |t| + |l|] == l &&
        d[n + (|t| + |l|)..n + (|t| + |l|) + |s|] == s
  {
  }

  /** Reading what was written, in either byte order, gives back the object. */
  lemma RoundTrip(b: Btf, swap: bool, hasBase: bool, baseLay: Option<seq<Layout>>)
    requires Contiguous(b, hasBase, baseLay) && (swap ==> AllKnown(b))
    ensures |b.types| % 4 == 0
    ensures Parse(RawData(b, swap), hasBase, baseLay) == Some(b.(swapped := swap, extra := false))
  {
    hide Load, Load16, HeaderBytes, Swapped, Starts, GoodStrs, Table, Copied, SwapHeader, SwapFlags, HeaderPart,
      ParseFront, Laid;
    var h := b.hdr;
    StartsAligned(b.types, Table(b.layout, baseLay), 0, |b.types|, 0);
    var t, l := if swap then SwapAll(b.types) else b.types, if swap then SwapFlags(b.layout) else b.layout;
    var front, d := HeaderPart(h, swap), RawData(b, swap);
    Sections(front, t, l, b.strs);
    FrontOfRaw(b, swap, hasBase, baseLay, t + l + b.strs);
    HdrLenKept(d, Front(h, h.hdrLen, swap, false));
    SwapTwice(b.types, 0, |b.types|);
    SwapFlagsTwice(b.layout);
    if swap {
      StartsWithLayout(b.types, Table(b.layout, baseLay), 0, |b.types|, 0);
    }
  }
}
