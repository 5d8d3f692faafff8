/** Reading a block of bytes in place, and writing one: the loops behind `Parse` and `RawData`. */
module RawIo {
  import opened Options
  import opened Words
  import opened TypeSection
  import opened RawBtf

  // ----- reading -----

  method SwapHdr(a: array<Byte>, hdrLen: nat)
    requires HeaderEnd(hdrLen) <= a.Length
    modifies a
    ensures a[..] == SwapHeader(old(a[..]), hdrLen)
  {
    hide Swapped;
    ghost var was := a[..];
    SwapWords(a, 4, 5);
    if hdrLen >= FULL_HEADER {
      SwapWords(a, 24, 2);
      SwapSplit(was, 4, 24, 32);
    }
    FrontKept(was, 4, HeaderEnd(hdrLen));
    a[0], a[1] := a[1], a[0];
  }

  /** Turning words round changes nothing before them. */
  lemma FrontKept(d: seq<Byte>, lo: nat, hi: nat)
    requires lo <= hi <= |d| && (hi - lo) % 4 == 0
    ensures Swapped(d, lo, hi)[..lo] == d[..lo] && Swapped(d, lo, hi)[hi..] == d[hi..]
  {
  }

  /** Read the header, and turn it round if it comes in the other order. */
  method ParseHdr(a: array<Byte>) returns (r: Option<Front>)
    modifies a
    ensures r == ParseFront(old(a[..]))
    ensures r.Some? ==>
      (r.value.swapped ==> HeaderEnd(r.value.hdrLen) <= a.Length) &&
      a[..] == if r.value.swapped then SwapHeader(old(a[..]), r.value.hdrLen) else old(a[..])
  {
    hide Load, Load16, Swapped, SwapHeader, Copied, HeaderAt, Laid;
    if a.Length < SHORT_HEADER {
      return None;
    }
    var magic, hdrLen := Load16(a[..], 0), Load(a[..], 4);
    var swapped := magic == SWAPPED_MAGIC;
    if swapped {
      hdrLen := Load(Swapped(a[..], 4, 8), 4);
      if hdrLen < SHORT_HEADER {
        return None;
      }
    } else if magic != MAGIC {
      return None;
    }
    if a.Length < hdrLen {
      return None;
    }
    ghost var was := a[..];
    if swapped {
      SwapHdr(a, hdrLen);
      SwapHeaderPrefix(was, HeaderEnd(hdrLen), hdrLen);
    }
    var h := HeaderAt(Copied(a[..], hdrLen));
    var i, extra := FULL_HEADER, false;
    while i < hdrLen
      invariant FULL_HEADER <= i && forall j :: FULL_HEADER <= j < i && j < hdrLen ==> a[j] == 0
    {
      if a[i] != 0 {
        extra := true;
        break;
      }
      i := i + 1;
    }
    ExtraKept(was, a[..], HeaderEnd(hdrLen), hdrLen);
    if !Laid(h, a.Length - hdrLen) {
      return None;
    }
    r := Some(Front(h, hdrLen, swapped, extra));
  }

  lemma ExtraKept(d: seq<Byte>, d': seq<Byte>, k: nat, hdrLen: nat)
    requires |d| == |d'| >= hdrLen && k <= FULL_HEADER && k <= |d| && d[k..] == d'[k..]
    ensures (exists i :: FULL_HEADER <= i < hdrLen && d[i] != 0) <==>
      (exists i :: FULL_HEADER <= i < hdrLen && d'[i] != 0)
  {
    forall i | FULL_HEADER <= i < hdrLen
      ensures d[i] == d'[i]
    {
      assert d[i] == d[k..][i - k] == d'[k..][i - k];
    }
  }

  function FlagByte(d: seq<Byte>, lo: nat, hi: nat, i: nat): Byte
    requires lo <= i < hi <= |d| && (hi - lo) % 4 == 0
  {
    if (i - lo) % 4 == 2 then d[i + 1] else if (i - lo) % 4 == 3 then d[i - 1] else d[i]
  }

  /** Turn the last field of each entry of a layout table round. */
  method SwapLayout(a: array<Byte>, lo: nat, hi: nat)
    requires lo <= hi <= a.Length && (hi - lo) % 4 == 0
    modifies a
    ensures a[..] == old(a[..lo]) + SwapFlags(old(a[lo..hi])) + old(a[hi..])
  {
    ghost var was := a[..];
    var l := lo;
    while l < hi
      invariant lo <= l <= hi && (l - lo) % 4 == 0
      invariant forall i :: 0 <= i < a.Length ==> a[i] == if lo <= i < l then FlagByte(was, lo, hi, i) else was[i]
    {
      a[l + 2], a[l + 3] := a[l + 3], a[l + 2];
      l := l + 4;
    }
    FlagsTogether(was, lo, hi, a[..]);
    assert was[..lo] == old(a[..lo]) && was[lo..hi] == old(a[lo..hi]) && was[hi..] == old(a[hi..]);
  }

  lemma FlagsTogether(d: seq<Byte>, lo: nat, hi: nat, d': seq<Byte>)
    requires lo <= hi <= |d| == |d'| && (hi - lo) % 4 == 0
    requires forall i :: 0 <= i < |d| ==> d'[i] == if lo <= i < hi then FlagByte(d, lo, hi, i) else d[i]
    ensures d' == d[..lo] + SwapFlags(d[lo..hi]) + d[hi..]
  {
    var x := d[lo..hi];
    forall i | lo <= i < hi
      ensures d'[i] == SwapFlags(x)[i - lo]
    {
      assert d'[i] == FlagByte(d, lo, hi, i);
    }
  }

  /** What the sections look like after a part in front of `lo` or behind `hi` was changed. */
  lemma SliceKept(d: seq<Byte>, d': seq<Byte>, from: nat, to: nat, lo: nat, hi: nat)
    requires from <= to <= |d| == |d'| && lo <= hi <= |d| && d[..from] == d'[..from] && d[to..] == d'[to..] &&
      (hi <= from || to <= lo)
    ensures d'[lo..hi] == d[lo..hi]
  {
    forall i | lo <= i < hi
      ensures d'[i] == d[i]
    {
      if hi <= from {
        assert d[..from][i] == d'[..from][i];
      } else {
        assert d[to..][i - to] == d'[to..][i - to];
      }
    }
  }

  lemma SwapSlice(d: seq<Byte>, lo: nat, hi: nat)
    requires lo <= hi <= |d| && (hi - lo) % 4 == 0
    ensures Swapped(d, lo, hi)[lo..hi] == SwapAll(d[lo..hi])
  {
    hide Swapped;
    var x := d[lo..hi];
    assert d == d[..lo] + x + d[hi..];
    SwapMiddle(d[..lo], x, d[hi..], 0, |x|);
    assert |d[..lo]| == lo && lo + |x| == hi;
  }

  /** Read a block of bytes. */
  method NewBtf(data: seq<Byte>, hasBase: bool, baseLay: Option<seq<Layout>>) returns (r: Option<Btf>)
    ensures r == Parse(data, hasBase, baseLay)
  {
    hide ParseFront, ParseSections, Load, Load16, Swapped, SwapHeader, HeaderAt, Laid, GoodStrs, SwapFlags, Starts,
      Table;
    var a := new Byte[|data|](i requires 0 <= i < |data| => data[i]);
    assert a[..] == data;
    var f := ParseHdr(a);
    if f.None? {
      return None;
    }
    HdrLenKept(data, f.value);
    FrontDone(data, a[..], f.value);
    r := ReadSections(data, a, f.value.hdr, f.value.swapped, f.value.extra, hasBase, baseLay);
  }

  /** The sections lie behind the part that was turned round. */
  lemma FrontDone(d: seq<Byte>, d': seq<Byte>, f: Front)
    requires ParseFront(d) == Some(f) && (f.swapped ==> HeaderEnd(f.hdrLen) <= |d|) &&
      d' == if f.swapped then SwapHeader(d, f.hdrLen) else d
    ensures f.hdr.hdrLen <= |d| == |d'| && d'[f.hdr.hdrLen..] == d[f.hdr.hdrLen..]
  {
    hide Load, Load16, Swapped, SwapHeader, HeaderAt, Laid;
    HdrLenKept(d, f);
    if f.swapped {
      SwapHeaderPrefix(d, f.hdr.hdrLen, f.hdrLen);
    }
  }

  method ReadSections(ghost d: seq<Byte>, a: array<Byte>, h: Header, swapped: bool, extra: bool, hasBase: bool,
                      baseLay: Option<seq<Layout>>) returns (r: Option<Btf>)
    requires h.hdrLen <= |d| == a.Length && Laid(h, |d| - h.hdrLen) && a[h.hdrLen..] == d[h.hdrLen..]
    modifies a
    ensures r == ParseSections(d, h, swapped, extra, hasBase, baseLay)
  {
    hide ParseSections, GoodStrs, SwapFlags;
    var n := h.hdrLen;
    var lo, hi := n + h.layoutOff, n + h.layoutOff + h.layoutLen;
    ghost var d0 := a[..];
    assert d0[n..] == d[n..];
    SameBehind(d, d0, n, n + h.strOff, n + h.strOff + h.strLen);
    var strs := a[n + h.strOff..n + h.strOff + h.strLen];
    if !GoodStrs(strs, hasBase) || h.layoutLen % 4 != 0 {
      Refused(d, h, swapped, extra, hasBase, baseLay);
      return None;
    }
    SameBehind(d, d0, n, n + h.typeOff, n + h.typeOff + h.typeLen);
    var layout := [];
    if h.layoutLen != 0 {
      SameBehind(d, d0, n, lo, hi);
      layout := ReadLayout(a, lo, hi, swapped);
      SliceKept(d0, a[..], lo, hi, n + h.typeOff, n + h.typeOff + h.typeLen);
    } else {
      NoFlags();
    }
    r := ReadTypes(d, a, h, swapped, extra, hasBase, baseLay, layout, strs);
  }

  lemma NoFlags()
    ensures SwapFlags([]) == []
  {
  }

  lemma Refused(d: seq<Byte>, h: Header, swapped: bool, extra: bool, hasBase: bool, baseLay: Option<seq<Layout>>)
    requires h.hdrLen <= |d| && Laid(h, |d| - h.hdrLen)
    requires h.layoutLen % 4 != 0 || !GoodStrs(d[h.hdrLen + h.strOff..h.hdrLen + h.strOff + h.strLen], hasBase)
    ensures ParseSections(d, h, swapped, extra, hasBase, baseLay) == None
  {
    hide GoodStrs, SwapFlags, Starts, Table, SwapAll, Swapped;
  }

  method ReadLayout(a: array<Byte>, lo: nat, hi: nat, swapped: bool) returns (l: seq<Byte>)
    requires lo <= hi <= a.Length && (hi - lo) % 4 == 0
    modifies a
    ensures l == if swapped then SwapFlags(old(a[..])[lo..hi]) else old(a[..])[lo..hi]
    ensures a[..][..lo] == old(a[..])[..lo] && a[..][hi..] == old(a[..])[hi..]
  {
    hide SwapFlags;
    ghost var was := a[..];
    assert was[..lo] == a[..lo] && was[lo..hi] == a[lo..hi] && was[hi..] == a[hi..];
    if swapped {
      SwapLayout(a, lo, hi);
    }
    l := a[lo..hi];
  }

  lemma SameBehind(d: seq<Byte>, d': seq<Byte>, n: nat, lo: nat, hi: nat)
    requires n <= lo <= hi <= |d| == |d'| && d[n..] == d'[n..]
    ensures d'[lo..hi] == d[lo..hi]
  {
    forall i | lo <= i < hi
      ensures d'[i] == d[i]
    {
      assert d[n..][i - n] == d'[n..][i - n];
    }
  }

  method ReadTypes(ghost d: seq<Byte>, a: array<Byte>, h: Header, swapped: bool, extra: bool, hasBase: bool,
                   baseLay: Option<seq<Layout>>,
                   layout: seq<Byte>, strs: seq<Byte>) returns (r: Option<Btf>)
    requires h.hdrLen <= |d| == a.Length && Laid(h, |d| - h.hdrLen) && h.layoutLen % 4 == 0
    requires strs == d[h.hdrLen + h.strOff..h.hdrLen + h.strOff + h.strLen] && GoodStrs(strs, hasBase)
    requires layout == var l := if h.layoutLen ==
      0 then [] else d[h.hdrLen + h.layoutOff..h.hdrLen + h.layoutOff + h.layoutLen];
                       if swapped then SwapFlags(l) else l
    requires a[..][h.hdrLen + h.typeOff..h.hdrLen + h.typeOff + h.typeLen] ==
      d[h.hdrLen + h.typeOff..h.hdrLen + h.typeOff + h.typeLen]
    modifies a
    ensures r == ParseSections(d, h, swapped, extra, hasBase, baseLay)
  {
    hide Load, Load16, Swapped, SwapHeader, HeaderAt, GoodStrs, SwapFlags, Starts, Table;
    var lo, hi := h.hdrLen + h.typeOff, h.hdrLen + h.typeOff + h.typeLen;
    ghost var d0 := a[..];
    var lay := Table(layout, baseLay);
    var offs := ParseTypeSec(a, lo, hi, swapped, lay);
    if !swapped {
      StartsWithin(d0, lay, lo, hi, lo);
    } else if (hi - lo) % 4 == 0 {
      SwapSlice(d0, lo, hi);
      StartsWithin(Swapped(d0, lo, hi), None, lo, hi, lo);
    }
    if offs.None? {
      return None;
    }
    r := Some(Btf(h, swapped, extra, a[lo..hi], offs.value, layout, strs));
  }

  // ----- writing -----

  /** Copy bytes into a block. */
  method CopyInto(a: array<Byte>, at: nat, src: seq<Byte>)
    requires at + |src| <= a.Length
    modifies a
    ensures a[..] == old(a[..])[..at] + src + old(a[..])[at + |src|..]
  {
    var i := 0;
    while i < |src|
      invariant 0 <= i <= |src|
      invariant forall j :: 0 <= j < a.Length ==> a[j] == if at <= j < at + i then src[j - at] else old(a[j])
    {
      a[at + i] := src[i];
      i := i + 1;
    }
  }

  lemma InfoUntouched(d: seq<Byte>, at: nat, p: nat, types: seq<Byte>)
    requires at + |types| <= |d| && d[at..at + |types|] == types && p % 4 == 0 && p + HEADER_SIZE <= |types|
    ensures Load(Swapped(d, at, at + p), at + p + INFO_OFF) == Load(types, p + INFO_OFF)
  {
    hide Load, Swapped;
    var x := Swapped(d, at, at + p);
    FrontKept(d, at, at + p);
    SliceKept(d, x, at, at + p, at + p + INFO_OFF, at + p + INFO_OFF + 4);
    LoadWithin(x, at + p + INFO_OFF, at + p + INFO_OFF + 4, at + p + INFO_OFF);
    LoadWithin(d, at + p + INFO_OFF, at + p + INFO_OFF + 4, at + p + INFO_OFF);
    LoadWithin(d, at, at + |types|, at + p + INFO_OFF);
  }

  /** Turn a whole descriptor round: first what follows its header, which tells what that is, then the header. */
  method SwapType(a: array<Byte>, at: nat) returns (ok: bool)
    requires at + HEADER_SIZE <= a.Length
    requires Known(Load(a[..], at + INFO_OFF)) ==>
      at + HEADER_SIZE + 4 * RestWords(Load(a[..], at + INFO_OFF)) <= a.Length
    modifies a
    ensures ok <==> Known(Load(old(a[..]), at + INFO_OFF))
    ensures ok ==> a[..] == Swapped(old(a[..]), at, at + HEADER_SIZE + 4 * RestWords(Load(old(a[..]), at + INFO_OFF)))
  {
    hide Swapped, Load, RestWords, Known;
    ghost var was, rest := a[..], RestWords(Load(a[..], at + INFO_OFF));
    ok := SwapRest(a, at);
    if !ok {
      return;
    }
    SwapBase(a, at);
    SwapSplit(was, at, at + HEADER_SIZE, at + HEADER_SIZE + 4 * rest);
  }

  /** Turn all descriptors round. This fails exactly if one of them is of an unknown kind. */
  method SwapTypes(a: array<Byte>, at: nat, ghost types: seq<Byte>, offs: seq<nat>, ghost lay: Option<seq<Layout>>)
    returns (ok: bool)
    requires at + |types| <= a.Length && a[..][at..at + |types|] == types && |types| % 4 == 0
    requires Starts(types, lay, 0, |types|, 0) == Some(offs)
    modifies a
    ensures ok <==> Starts(types, None, 0, |types|, 0).Some?
    ensures ok ==> a[..] == Swapped(old(a[..]), at, at + |types|)
  {
    hide Swapped, Load, SizeOf, RestWords, Known, Starts, Then;
    ghost var was, n, p := a[..], |types|, 0;
    StartsFollow(types, lay, offs, 0);
    NothingSwapped(was, at);
    ThenNothing(Starts(types, None, 0, n, 0));
    EndFirst(types, lay, offs);
    var i := 0;
    assert offs[..0] == [];
    while i < |offs|
      invariant 0 <= i <= |offs| && p == NextStart(offs, i, n) <= n && p % 4 == 0
      invariant a[..] == Swapped(was, at, at + p)
      invariant Starts(types, None, 0, n, 0) == Then(offs[..i], Starts(types, None, 0, n, p))
    {
      NextKnown(types, lay, offs, i);
      InfoUntouched(was, at, p, types);
      ok := SwapType(a, at + offs[i]);
      if !ok {
        return;
      }
      ghost var p' := NextStart(offs, i + 1, n);
      SwapSplit(was, at, at + p, at + p');
      i, p := i + 1, p';
    }
    AllFound(types, None, 0, n, offs);
    assert offs[..|offs|] == offs;
    ok := true;
  }

  /** One more descriptor, and whether it is of a known kind. */
  lemma NextKnown(types: seq<Byte>, lay: Option<seq<Layout>>, offs: seq<nat>, i: nat)
    requires Starts(types, lay, 0, |types|, 0) == Some(offs) && i < |offs|
    ensures offs[i] + HEADER_SIZE <= NextStart(offs, i + 1, |types|) <= |types| &&
      (NextStart(offs, i + 1, |types|) - offs[i]) % 4 == 0
    ensures var info := Load(types, offs[i] + INFO_OFF); var rest := Starts(types, None, 0, |types|, offs[i]);
      if Known(info) then NextStart(offs, i + 1, |types|) == offs[i] + HEADER_SIZE + 4 * RestWords(info)
        && Then(offs[..i], rest) == Then(offs[..i + 1],
          Starts(types, None, 0, |types|, NextStart(offs, i + 1, |types|)))
      else Then(offs[..i], rest) == None
  {
    hide Load, SizeOf, RestWords, Known, Starts, Then;
    StartsFollow(types, lay, offs, i);
    StartsFollow(types, lay, offs, i + 1);
    KnownSize(Load(types, offs[i] + INFO_OFF), lay);
    StartsNext(types, None, 0, |types|, offs[i], offs[..i]);
    assert offs[..i + 1] == offs[..i] + [offs[i]];
  }

  lemma EndFirst(d: seq<Byte>, lay: Option<seq<Layout>>, offs: seq<nat>)
    requires Starts(d, lay, 0, |d|, 0) == Some(offs)
    ensures NextStart(offs, 0, |d|) == 0
  {
    hide SizeOf, Load;
  }

  /** Write the header. */
  method WriteHeader(a: array<Byte>, h: Header, swap: bool)
    requires FitsWords(h) && h.hdrLen <= a.Length && (swap ==> SHORT_HEADER <= h.hdrLen) &&
      forall i :: 0 <= i < a.Length ==> a[i] == 0
    modifies a
    ensures a[..][..h.hdrLen] == HeaderPart(h, swap)
  {
    hide SwapHeader, HeaderBytes;
    var n, l := h.hdrLen, Least(h.hdrLen);
    CopyInto(a, 0, HeaderBytes(h)[..l]);
    ghost var d := a[..];
    assert d[..l] == HeaderBytes(h)[..l] && d[l..n] == Blanks(n - l);
    if swap {
      SwapHdr(a, n);
      SwapHeaderPrefix(d, l, n);
      SwapHeaderPrefix(HeaderBytes(h), l, n);
      assert a[..][l..n] == a[..][l..][..n - l] == d[l..][..n - l] == d[l..n];
    }
    assert a[..][..n] == a[..][..l] + a[..][l..n];
  }

  /** Write the types behind `w`. */
  method WriteTypes(a: array<Byte>, b: Btf, swap: bool, ghost lay: Option<seq<Layout>>, at: nat, ghost w: seq<Byte>)
    returns (ok: bool)
    requires at + |b.types| <= a.Length && |w| == at && a[..][..at] == w && |b.types| % 4 == 0
    requires Starts(b.types, lay, 0, |b.types|, 0) == Some(b.offs)
    modifies a
    ensures ok <==> (swap ==> AllKnown(b))
    ensures ok ==> a[..][..at + |b.types|] == w + if swap then SwapAll(b.types) else b.types
  {
    hide Starts, SwapAll, Swapped;
    CopyInto(a, at, b.types);
    ghost var d, end := a[..], at + |b.types|;
    assert d[..at] == w && d[at..end] == b.types;
    ok := true;
    if swap {
      ok := SwapTypes(a, at, b.types, b.offs, lay);
      FrontKept(d, at, end);
      SwapSlice(d, at, end);
    }
    assert a[..][..end] == a[..][..at] + a[..][at..end];
  }

  /** Write the layout table behind `w`. */
  method WriteLayout(a: array<Byte>, l: seq<Byte>, swap: bool, at: nat, ghost w: seq<Byte>)
    requires at + |l| <= a.Length && |w| == at && a[..][..at] == w && |l| % 4 == 0
    modifies a
    ensures a[..][..at + |l|] == w + if swap then SwapFlags(l) else l
  {
    hide SwapFlags;
    CopyInto(a, at, l);
    ghost var d := a[..];
    assert d[..at] == a[..at] == w && d[at..at + |l|] == a[at..at + |l|] == l;
    if swap {
      SwapLayout(a, at, at + |l|);
    }
  }

  /** Write an object in either byte order. This fails exactly if types of unknown kinds had to be turned round. */
  method GetRawData(b: Btf, swap: bool, ghost lay: Option<seq<Layout>>) returns (r: Option<seq<Byte>>)
    requires FitsWords(b.hdr) && |b.layout| % 4 == 0 && (swap ==> SHORT_HEADER <= b.hdr.hdrLen)
    requires Starts(b.types, lay, 0, |b.types|, 0) == Some(b.offs)
    ensures |b.types| % 4 == 0
    ensures r.Some? <==> (swap ==> AllKnown(b))
    ensures r.Some? ==> r.value == RawData(b, swap)
  {
    hide Starts, SwapAll, Swapped, SwapFlags, HeaderPart;
    StartsAligned(b.types, lay, 0, |b.types|, 0);
    var n, t, l := b.hdr.hdrLen, |b.types|, |b.layout|;
    var a := new Byte[n + t + l + |b.strs|](_ => 0);
    WriteHeader(a, b.hdr, swap);
    ghost var w := HeaderPart(b.hdr, swap);
    var ok := WriteTypes(a, b, swap, lay, n, w);
    if !ok {
      return None;
    }
    w := w + if swap then SwapAll(b.types) else b.types;
    if b.layout != [] {
      WriteLayout(a, b.layout, swap, n + t, w);
    } else {
      NoFlags();
    }
    w := w + if swap then SwapFlags(b.layout) else b.layout;
    ghost var d := a[..];
    CopyInto(a, n + t + l, b.strs);
    assert d[n + t + l + |b.strs|..] == [];
    r := Some(a[..]);
  }
}
