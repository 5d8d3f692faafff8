/** The type section as bytes: how long each descriptor is, where each one starts, and how the
    section is turned from the other byte order into the machine's own while it is read. */
module TypeSection {
  import opened Options
  import opened BtfTypes
  import opened Words

  /** For a kind: bytes of the element that follows the header once, and of each repeated element. */
  datatype Layout = Layout(infoSz: Byte, elemSz: Byte, flags: nat)

  const HEADER_SIZE: nat := 12
  const INFO_OFF: nat := 4
  const KINDS: nat := 0x80
  const VLENS: nat := 0x100_0000
  const INT_LIMIT: nat := 0x8000_0000

  // ----- the second header word: number of elements, kind and kind flag -----

  function KindCode(info: nat): (r: nat)
    ensures r < KINDS
  {
    info / VLENS % KINDS
  }

  function Vlen(info: nat): (r: nat)
    ensures r < VLENS
  {
    info % VLENS
  }

  predicate Kflag(info: nat) {
    info / VLENS / KINDS != 0
  }

  function MakeInfo(code: nat, vlen: nat, kflag: bool): (r: nat)
    requires code < KINDS && vlen < VLENS
    ensures r < WORD_LIMIT && KindCode(r) == code && Vlen(r) == vlen && Kflag(r) == kflag
  {
    var q := (if kflag then KINDS else 0) + code;
    assert (q * VLENS + vlen) / VLENS == q && (q * VLENS + vlen) % VLENS == vlen;
    q * VLENS + vlen
  }

  function KindOf(code: nat): Kind {
    match code
    case 0 => Void case 1 => Int case 2 => Ptr case 3 => Array case 4 => Struct case 5 => Union
    case 6 => Enum case 7 => Fwd case 8 => Typedef case 9 => Volatile case 10 => Const case 11 => Restrict
    case 12 => Func case 13 => FuncProto case 14 => Var case 15 => Datasec case 16 => Float case 17 => DeclTag
    case 18 => TypeTag case 19 => Enum64 case 20 => LocParam case 21 => LocProto case 22 => Locsec
    case _ => Other(code)
  }

  predicate Known(info: nat) {
    !KindOf(KindCode(info)).Void? && !KindOf(KindCode(info)).Other?
  }

  /** Words of a descriptor of a known kind behind its header. */
  function RestWords(info: nat): nat {
    InfoWords(KindOf(KindCode(info))) + Vlen(info) * ElemWords(KindOf(KindCode(info)))
  }

  /** Bytes of a descriptor. Kinds that are not known are looked up in the layout table, if there is one. */
  function SizeOf(info: nat, lay: Option<seq<Layout>>): (r: Option<nat>)
    ensures r.Some? ==> HEADER_SIZE <= r.value && r.value % 4 == 0
  {
    var code := KindCode(info);
    if Known(info) then Some(HEADER_SIZE + 4 * RestWords(info))
    else if lay.None? || code >= |lay.value| then None
    else
      var infoSz: nat, elemSz: nat := lay.value[code].infoSz, lay.value[code].elemSz;
      if infoSz % 4 != 0 || elemSz % 4 != 0 then None
      else
        var words := infoSz / 4 + Vlen(info) * (elemSz / 4);
        var size := HEADER_SIZE + 4 * words;
        if size >= INT_LIMIT then None else Some(size)
  }

  // ----- where descriptors start -----

  /** The starts, relative to `lo`, of the descriptors from `p` to `hi`; none if they do not fill that space. */
  function Starts(d: seq<Byte>, lay: Option<seq<Layout>>, lo: nat, hi: nat, p: nat): (r: Option<seq<nat>>)
    requires lo <= p <= hi <= |d|
    decreases hi - p
  {
    if p + HEADER_SIZE <= hi then
      var n := SizeOf(Load(d, p + INFO_OFF), lay);
      if n.None? || p + n.value > hi then None
      else
        var rest := Starts(d, lay, lo, hi, p + n.value);
        if rest.None? then None else Some([p - lo] + rest.value)
    else if p == hi then Some([])
    else None
  }

  /** Only the bytes in between matter. */
  lemma {:induction false} StartsWithin(d: seq<Byte>, lay: Option<seq<Layout>>, lo: nat, hi: nat, p: nat)
    requires lo <= p <= hi <= |d|
    ensures Starts(d, lay, lo, hi, p) == Starts(d[lo..hi], lay, 0, hi - lo, p - lo)
    decreases hi - p
  {
    hide SizeOf, Load;
    if p + HEADER_SIZE <= hi {
      LoadWithin(d, lo, hi, p + INFO_OFF);
      var n := SizeOf(Load(d, p + INFO_OFF), lay);
      if n.Some? && p + n.value <= hi {
        StartsWithin(d, lay, lo, hi, p + n.value);
      }
    }
  }

  /** A layout table adds descriptors that can be read; it changes none. */
  lemma {:induction false} StartsWithLayout(d: seq<Byte>, lay: Option<seq<Layout>>, lo: nat, hi: nat, p: nat)
    requires lo <= p <= hi <= |d| && Starts(d, None, lo, hi, p).Some?
    ensures Starts(d, lay, lo, hi, p) == Starts(d, None, lo, hi, p)
    decreases hi - p
  {
    hide RestWords, Load, SizeOf;
    if p + HEADER_SIZE <= hi {
      KnownSize(Load(d, p + INFO_OFF), lay);
      StartsWithLayout(d, lay, lo, hi, p + SizeOf(Load(d, p + INFO_OFF), None).value);
    }
  }

  /** Starts found so far, and those still to come. */
  function Then(found: seq<nat>, rest: Option<seq<nat>>): Option<seq<nat>> {
    if rest.None? then None else Some(found + rest.value)
  }

  lemma StartsNext(d: seq<Byte>, lay: Option<seq<Layout>>, lo: nat, hi: nat, p: nat, found: seq<nat>)
    requires lo <= p && p + HEADER_SIZE <= hi <= |d|
    ensures var n := SizeOf(Load(d, p + INFO_OFF), lay);
      Then(found, Starts(d, lay, lo, hi, p)) ==
      if n.None? || p + n.value > hi then None else Then(found + [p - lo], Starts(d, lay, lo, hi, p + n.value))
  {
    hide SizeOf, Load;
    var n := SizeOf(Load(d, p + INFO_OFF), lay);
    if n.Some? && p + n.value <= hi {
      var rest := Starts(d, lay, lo, hi, p + n.value);
      if rest.Some? {
        assert found + ([p - lo] + rest.value) == (found + [p - lo]) + rest.value;
      }
    }
  }

  /** A descriptor at the end adds one start. */
  lemma {:induction false} StartsAppended(d: seq<Byte>, rec: seq<Byte>, lay: Option<seq<Layout>>, p: nat, s: seq<nat>)
    requires p <= |d| && Starts(d, lay, 0, |d|, p) == Some(s)
    requires |rec| >= HEADER_SIZE && SizeOf(Load(rec, INFO_OFF), lay) == Some(|rec|)
    ensures Starts(d + rec, lay, 0, |d + rec|, p) == Some(s + [|d|])
    decreases |d| - p
  {
    hide SizeOf, Load;
    var d' := d + rec;
    if p + HEADER_SIZE <= |d| {
      LoadWithin(d', 0, |d|, p + INFO_OFF);
      assert d'[..|d|] == d;
      var n := SizeOf(Load(d, p + INFO_OFF), lay).value;
      StartsAppended(d, rec, lay, p + n, s[1..]);
      assert [p] + (s[1..] + [|d|]) == s + [|d|];
    } else {
      LoadWithin(d', |d|, |d'|, p + INFO_OFF);
      assert d'[|d|..|d'|] == rec;
      assert Starts(d', lay, 0, |d'|, |d'|) == Some([]);
      assert s == [] && [p] + [] == s + [|d|];
    }
  }

  /** Without the last descriptor there is one start less. */
  lemma {:induction false} StartsDropped(d: seq<Byte>, lay: Option<seq<Layout>>, p: nat, s: seq<nat>)
    requires p <= |d| && Starts(d, lay, 0, |d|, p) == Some(s) && s != []
    ensures p <= s[|s| - 1] && s[|s| - 1] + HEADER_SIZE <= |d|
    ensures Starts(d[..s[|s| - 1]], lay, 0, s[|s| - 1], p) == Some(s[..|s| - 1])
    ensures SizeOf(Load(d, s[|s| - 1] + INFO_OFF), lay) == Some(|d| - s[|s| - 1])
    decreases |d| - p
  {
    hide SizeOf, Load;
    var n := SizeOf(Load(d, p + INFO_OFF), lay).value;
    if |s| > 1 {
      StartsDropped(d, lay, p + n, s[1..]);
      var end := s[|s| - 1];
      assert s[1..][|s[1..]| - 1] == end;
      LoadWithin(d, 0, end, p + INFO_OFF);
      assert d[0..end] == d[..end];
      assert [p] + s[1..][..|s| - 2] == s[..|s| - 1];
    } else {
      assert s == [p];
      assert s[..0] == [];
    }
  }

  /** A last descriptor in place of another one leaves the starts as they are. */
  lemma StartsReplaced(d: seq<Byte>, lay: Option<seq<Layout>>, s: seq<nat>, rec: seq<Byte>)
    requires Starts(d, lay, 0, |d|, 0) == Some(s) && s != []
    requires |rec| >= HEADER_SIZE && SizeOf(Load(rec, INFO_OFF), lay) == Some(|rec|)
    ensures s[|s| - 1] <= |d| && Starts(d[..s[|s| - 1]] + rec, lay, 0, s[|s| - 1] + |rec|, 0) == Some(s)
  {
    hide SizeOf, Load, Starts;
    StartsDropped(d, lay, 0, s);
    StartsAppended(d[..s[|s| - 1]], rec, lay, 0, s[..|s| - 1]);
    assert s[..|s| - 1] + [s[|s| - 1]] == s;
  }

  /** Where the descriptor behind the `i`-th one starts, or the end. */
  function NextStart(offs: seq<nat>, i: nat, end: nat): nat {
    if i < |offs| then offs[i] else end
  }

  /** The starts follow each other, each by the size of the descriptor before. */
  lemma {:induction false} StartsFollow(d: seq<Byte>, lay: Option<seq<Layout>>, offs: seq<nat>, i: nat)
    requires Starts(d, lay, 0, |d|, 0) == Some(offs) && i <= |offs|
    ensures NextStart(offs, i, |d|) <= |d| && Starts(d, lay, 0, |d|, NextStart(offs, i, |d|)) == Some(offs[i..])
    ensures i < |offs| ==> offs[i] + HEADER_SIZE <= NextStart(offs, i + 1, |d|) <= |d|
    ensures i < |offs| ==> SizeOf(Load(d, offs[i] + INFO_OFF), lay) == Some(NextStart(offs, i + 1, |d|) - offs[i])
  {
    hide SizeOf, Load;
    if i > 0 {
      StartsFollow(d, lay, offs, i - 1);
      assert offs[i - 1..][1..] == offs[i..];
    } else {
      assert offs[0..] == offs;
      assert offs == [] ==> |d| == 0;
    }
    FirstStart(d, lay, NextStart(offs, i, |d|), offs[i..]);
  }

  lemma FirstStart(d: seq<Byte>, lay: Option<seq<Layout>>, p: nat, s: seq<nat>)
    requires p <= |d| && Starts(d, lay, 0, |d|, p) == Some(s)
    ensures s == [] ==> p == |d|
    ensures s != [] ==> s[0] == p && p + HEADER_SIZE <= |d| && SizeOf(Load(d, p + INFO_OFF), lay).Some?
    ensures s != [] ==>
      var n := SizeOf(Load(d, p + INFO_OFF), lay).value;
      p + n <= |d| && Starts(d, lay, 0, |d|, p + n) == Some(s[1..]) && NextStart(s, 1, |d|) == p + n
  {
    hide SizeOf, Load;
  }

  // ----- turning descriptors round -----

  /** Turn round what follows a header, which is in the machine's own order already. */
  method SwapRest(a: array<Byte>, at: nat) returns (ok: bool)
    requires at + HEADER_SIZE <= a.Length
    requires Known(Load(a[..], at + INFO_OFF)) ==>
      at + HEADER_SIZE + 4 * RestWords(Load(a[..], at + INFO_OFF)) <= a.Length
    modifies a
    ensures ok <==> Known(Load(old(a[..]), at + INFO_OFF))
    ensures a[..] == if ok then Swapped(old(a[..]), at + HEADER_SIZE,
      at + HEADER_SIZE + 4 * RestWords(Load(old(a[..]), at + INFO_OFF))) else old(a[..])
  {
    hide Swapped, Load, Mirror, RestWords, Known, KindCode, Vlen, KindOf, InfoWords, ElemWords;
    var info := Load(a[..], at + INFO_OFF);
    if !Known(info) {
      return false;
    }
    ok := true;
    RestParts(info);
    var k := KindOf(KindCode(info));
    var once, each, n := InfoWords(k), ElemWords(k), Vlen(info);
    ghost var was := a[..];
    var lo := at + HEADER_SIZE;
    var i, p := 0, lo + 4 * once;
    FewerWords(once, each, n, 0);
    SwapWords(a, lo, once);
    while i < n
      invariant 0 <= i <= n && p == lo + 4 * (once + i * each) && (p - lo) % 4 == 0
      invariant a[..] == Swapped(was, lo, p)
    {
      FewerWords(once, each, n, i + 1);
      SwapWords(a, p, each);
      SwapSplit(was, lo, p, p + 4 * each);
      i, p := i + 1, p + 4 * each;
    }
  }

  lemma RestParts(info: nat)
    ensures RestWords(info) == InfoWords(KindOf(KindCode(info))) + Vlen(info) * ElemWords(KindOf(KindCode(info)))
  {
  }

  lemma FewerWords(once: nat, each: nat, n: nat, i: nat)
    requires i <= n
    ensures once + i * each <= once + n * each && (i > 0 ==> i * each == (i - 1) * each + each)
  {
    assert n * each == i * each + (n - i) * each;
  }

  method SwapBase(a: array<Byte>, at: nat)
    requires at + HEADER_SIZE <= a.Length
    modifies a
    ensures a[..] == Swapped(old(a[..]), at, at + HEADER_SIZE)
  {
    SwapWords(a, at, 3);
  }

  lemma HeaderSwapped(d: seq<Byte>, lo: nat, p: nat, hi: nat)
    requires lo <= p && p + HEADER_SIZE <= hi <= |d| && (p - lo) % 4 == 0 && (hi - lo) % 4 == 0
    ensures Load(Swapped(d, lo, p + HEADER_SIZE), p + INFO_OFF) == Load(Swapped(d, lo, hi), p + INFO_OFF)
  {
  }

  /** Find the descriptors between `lo` and `hi`, turning them round if they come in the other order.
      This fails exactly if they do not fill the space, or are turned round and of unknown kinds. */
  method ParseTypeSec(a: array<Byte>, lo: nat, hi: nat, swapped: bool, lay: Option<seq<Layout>>)
    returns (r: Option<seq<nat>>)
    requires lo <= hi <= a.Length
    modifies a
    ensures swapped && (hi - lo) % 4 != 0 ==> r == None
    ensures swapped ==> (hi - lo) % 4 == 0 ==> r == Starts(Swapped(old(a[..]), lo, hi), None, lo, hi, lo)
    ensures !swapped ==> r == Starts(old(a[..]), lay, lo, hi, lo) && a[..] == old(a[..])
    ensures swapped && r.Some? ==> (hi - lo) % 4 == 0 && a[..] == Swapped(old(a[..]), lo, hi)
  {
    if swapped {
      r := ParseSwapped(a, lo, hi, lay);
    } else {
      r := ParseNative(a, lo, hi, lay);
    }
  }

  method ParseNative(a: array<Byte>, lo: nat, hi: nat, lay: Option<seq<Layout>>) returns (r: Option<seq<nat>>)
    requires lo <= hi <= a.Length
    ensures r == Starts(a[..], lay, lo, hi, lo)
  {
    hide SizeOf, Load;
    var p, offs: seq<nat> := lo, [];
    ghost var d := a[..];
    ThenNothing(Starts(d, lay, lo, hi, lo));
    while p + HEADER_SIZE <= hi
      invariant lo <= p <= hi && Starts(d, lay, lo, hi, lo) == Then(offs, Starts(d, lay, lo, hi, p))
      decreases hi - p
    {
      StartsNext(d, lay, lo, hi, p, offs);
      var n := SizeOf(Load(a[..], p + INFO_OFF), lay);
      if n.None? || p + n.value > hi {
        return None;
      }
      offs := offs + [p - lo];
      p := p + n.value;
    }
    if p != hi {
      Leftover(d, lay, lo, hi, p, offs);
      return None;
    }
    AllFound(d, lay, lo, hi, offs);
    r := Some(offs);
  }

  method ParseSwapped(a: array<Byte>, lo: nat, hi: nat, lay: Option<seq<Layout>>) returns (r: Option<seq<nat>>)
    requires lo <= hi <= a.Length
    modifies a
    ensures (hi - lo) % 4 != 0 ==> r == None
    ensures (hi - lo) % 4 == 0 ==> r == Starts(Swapped(old(a[..]), lo, hi), None, lo, hi, lo)
    ensures r.Some? ==> (hi - lo) % 4 == 0 && a[..] == Swapped(old(a[..]), lo, hi)
  {
    hide SizeOf, Load, Swapped, Mirror, RestWords, Starts, Then;
    var p, offs: seq<nat> := lo, [];
    ghost var was := a[..];
    NothingSwapped(was, lo);
    if (hi - lo) % 4 == 0 {
      ThenNothing(Starts(Swapped(was, lo, hi), None, lo, hi, lo));
    }
    while p + HEADER_SIZE <= hi
      invariant lo <= p <= hi && (p - lo) % 4 == 0 && a[..] == Swapped(was, lo, p)
      invariant (hi - lo) % 4 == 0 ==>
        Starts(Swapped(was, lo, hi), None, lo, hi, lo) == Then(offs, Starts(Swapped(was, lo, hi), None, lo, hi, p))
      decreases hi - p
    {
      SwapBase(a, p);
      SwapSplit(was, lo, p, p + HEADER_SIZE);
      var info := Load(a[..], p + INFO_OFF);
      if (hi - lo) % 4 == 0 {
        HeaderSwapped(was, lo, p, hi);
        StartsNext(Swapped(was, lo, hi), None, lo, hi, p, offs);
      }
      KnownSize(info, lay);
      var n := SizeOf(info, lay);
      if n.None? || p + n.value > hi {
        return None;
      }
      var ok := SwapRest(a, p);
      if !ok {
        return None;
      }
      SwapSplit(was, lo, p + HEADER_SIZE, p + n.value);
      offs := offs + [p - lo];
      p := p + n.value;
    }
    if p != hi {
      if (hi - lo) % 4 == 0 {
        Leftover(Swapped(was, lo, hi), None, lo, hi, p, offs);
      }
      return None;
    }
    AllFound(a[..], None, lo, hi, offs);
    r := Some(offs);
  }

  lemma ThenNothing(r: Option<seq<nat>>)
    ensures Then([], r) == r
  {
    if r.Some? {
      assert [] + r.value == r.value;
    }
  }

  lemma KnownSize(info: nat, lay: Option<seq<Layout>>)
    ensures SizeOf(info, None) == if Known(info) then SizeOf(info, lay) else None
    ensures Known(info) ==> SizeOf(info, lay) == Some(HEADER_SIZE + 4 * RestWords(info))
    ensures SizeOf(info, lay).Some? ==> SizeOf(info, lay).value % 4 == 0
  {
    hide RestWords;
  }

  lemma Leftover(d: seq<Byte>, lay: Option<seq<Layout>>, lo: nat, hi: nat, p: nat, found: seq<nat>)
    requires lo <= p < hi <= |d| && p + HEADER_SIZE > hi
    ensures Then(found, Starts(d, lay, lo, hi, p)) == None
  {
  }

  lemma AllFound(d: seq<Byte>, lay: Option<seq<Layout>>, lo: nat, hi: nat, found: seq<nat>)
    requires lo <= hi <= |d|
    ensures Then(found, Starts(d, lay, lo, hi, hi)) == Some(found)
  {
    assert found + [] == found;
  }
}
