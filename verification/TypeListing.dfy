/** The types that a type section describes, in order. */
module TypeListing {
  import opened Options
  import opened BtfTypes
  import opened Words
  import opened TypeSection
  import opened TypeCodec

  /** All of a descriptor is there. */
  ghost predicate InBounds(d: seq<Byte>, p: nat) {
    p + HEADER_SIZE <= |d| && (Known(Load(d, p + INFO_OFF)) ==> Decodable(d, p))
  }

  /** The type that is described at `p`; of an unknown kind only the header is understood. */
  function Described(d: seq<Byte>, p: nat): Type
    requires InBounds(d, p)
  {
    var info := Load(d, p + INFO_OFF);
    if Known(info) then TypeAt(d, p)
    else Type(KindOf(KindCode(info)), Kflag(info), Vlen(info), Load(d, p), Load(d, p + 8), [], [])
  }

  ghost predicate AllInBounds(d: seq<Byte>, offs: seq<nat>) {
    forall i :: 0 <= i < |offs| ==> InBounds(d, offs[i])
  }

  ghost function Listing(d: seq<Byte>, offs: seq<nat>): (ts: seq<Type>)
    requires AllInBounds(d, offs)
    ensures |ts| == |offs| && forall i :: 0 <= i < |offs| ==> ts[i] == Described(d, offs[i])
  {
    seq(|offs|, i requires 0 <= i < |offs| => Described(d, offs[i]))
  }

  /** Only its own bytes matter to a descriptor. */
  lemma DescribedElsewhere(d: seq<Byte>, p: nat, n: nat, d': seq<Byte>, p': nat)
    requires InBounds(d, p) && HEADER_SIZE <= n && p + n <= |d| && p' + n <= |d'| && d'[p'..p' + n] == d[p..p + n]
    requires Known(Load(d, p + INFO_OFF)) ==> HEADER_SIZE + 4 * RestWords(Load(d, p + INFO_OFF)) <= n
    ensures InBounds(d', p') && Described(d', p') == Described(d, p)
  {
    hide Load, KindOf, KindCode, Vlen, Kflag, RestWords, TypeAt, Known, Encode;
    var info := Load(d, p + INFO_OFF);
    SameLoad(d, p, n, d', p', 0);
    SameLoad(d, p, n, d', p', INFO_OFF);
    SameLoad(d, p, n, d', p', 8);
    if Known(info) {
      var t, m := TypeAt(d, p), HEADER_SIZE + 4 * RestWords(info);
      EncodeDecode(d, p);
      assert d'[p'..p' + m] == d'[p'..p' + n][..m] == d[p..p + n][..m] == Encode(t);
      DecodeEncode(d'[..p'], t, d'[p' + m..]);
      assert d' == d'[..p'] + Encode(t) + d'[p' + m..];
    }
  }

  lemma SameLoad(d: seq<Byte>, p: nat, n: nat, d': seq<Byte>, p': nat, k: nat)
    requires k + 4 <= n && p + n <= |d| && p' + n <= |d'| && d'[p'..p' + n] == d[p..p + n]
    ensures Load(d', p' + k) == Load(d, p + k)
  {
    LoadWithin(d, p, p + n, p + k);
    LoadWithin(d', p', p' + n, p' + k);
  }

  /** Bytes that follow change nothing. */
  lemma ListingKept(d: seq<Byte>, offs: seq<nat>, more: seq<Byte>)
    requires AllInBounds(d, offs)
    ensures AllInBounds(d + more, offs) && Listing(d + more, offs) == Listing(d, offs)
  {
    hide Load, RestWords, TypeAt, Known, InBounds, Described;
    forall i | 0 <= i < |offs|
      ensures InBounds(d + more, offs[i]) && Described(d + more, offs[i]) == Described(d, offs[i])
    {
      DescribedKept(d, offs[i], more);
    }
  }

  lemma DescribedKept(d: seq<Byte>, p: nat, more: seq<Byte>)
    requires InBounds(d, p)
    ensures InBounds(d + more, p) && Described(d + more, p) == Described(d, p)
  {
    hide Load, RestWords, TypeAt, Known, Described;
    assert (d + more)[p..p + (|d| - p)] == d[p..p + (|d| - p)];
    DescribedElsewhere(d, p, |d| - p, d + more, p);
  }

  /** A type written at the end is listed last. */
  lemma ListingAppended(d: seq<Byte>, offs: seq<nat>, t: Type, lay: Option<seq<Layout>>)
    requires Starts(d, lay, 0, |d|, 0) == Some(offs) && AllInBounds(d, offs) && Writable(t)
    ensures var d', offs' := d + Encode(t), offs + [|d|];
      Starts(d', lay, 0, |d'|, 0) == Some(offs') && AllInBounds(d', offs') &&
        Listing(d', offs') == Listing(d, offs) + [t]
  {
    hide Starts, SizeOf, Load, TypeAt, Encode, Writable, InBounds;
    EncodeSize(t, lay);
    StartsAppended(d, Encode(t), lay, 0, offs);
    ListingKept(d, offs, Encode(t));
    DescribedWritten(d, t);
  }

  lemma DescribedWritten(d: seq<Byte>, t: Type)
    requires Writable(t)
    ensures InBounds(d + Encode(t), |d|) && Described(d + Encode(t), |d|) == t
  {
    hide Load, TypeAt, Encode, Writable, RestWords;
    DecodeEncode(d, t, []);
    assert d + Encode(t) + [] == d + Encode(t);
  }

  // ----- several types one behind the other -----

  ghost predicate AllWritable(ts: seq<Type>) {
    forall i :: 0 <= i < |ts| ==> Writable(ts[i])
  }

  ghost function EncodeAll(ts: seq<Type>): seq<Byte>
    requires AllWritable(ts)
  {
    if ts == [] then [] else EncodeAll(ts[..|ts| - 1]) + Encode(ts[|ts| - 1])
  }

  lemma NoneEncoded()
    ensures AllWritable([]) && EncodeAll([]) == []
  {
  }

  lemma EncodedSnoc(ts: seq<Type>, t: Type)
    requires AllWritable(ts) && Writable(t)
    ensures AllWritable(ts + [t]) && EncodeAll(ts + [t]) == EncodeAll(ts) + Encode(t)
  {
    hide Writable, Encode;
    assert (ts + [t])[..|ts|] == ts;
  }

  lemma {:induction false} EncodedLess(ts: seq<Type>, i: nat)
    requires AllWritable(ts) && i <= |ts|
    ensures AllWritable(ts[..i]) && |EncodeAll(ts[..i])| <= |EncodeAll(ts)|
    decreases |ts|
  {
    hide Writable, Encode;
    if i == |ts| {
      assert ts[..i] == ts;
    } else {
      var front := ts[..|ts| - 1];
      EncodedLess(front, i);
      assert front[..i] == ts[..i];
    }
  }

  lemma EncodedNext(ts: seq<Type>, i: nat)
    requires AllWritable(ts) && i < |ts|
    ensures AllWritable(ts[..i]) && Writable(ts[i]) && AllWritable(ts[..i + 1])
    ensures EncodeAll(ts[..i + 1]) == EncodeAll(ts[..i]) + Encode(ts[i]) && |EncodeAll(ts[..i + 1])| <= |EncodeAll(ts)|
  {
    hide Writable, Encode, EncodeAll;
    EncodedSnoc(ts[..i], ts[i]);
    assert ts[..i] + [ts[i]] == ts[..i + 1];
    EncodedLess(ts, i + 1);
  }

  /** What has been written behind a section is listed behind its types. */
  lemma {:induction false} ListingMore(d: seq<Byte>, offs: seq<nat>, ts: seq<Type>, lay: Option<seq<Layout>>)
    requires Starts(d, lay, 0, |d|, 0) == Some(offs) && AllInBounds(d, offs) && AllWritable(ts)
    ensures var d' := d + EncodeAll(ts); var r := Starts(d', lay, 0, |d'|, 0);
      r.Some? && AllInBounds(d', r.value) && Listing(d', r.value) == Listing(d, offs) + ts
    decreases |ts|
  {
    hide Starts, AllInBounds, Encode, EncodeAll, AllWritable, Writable, Listing;
    if ts == [] {
      NoneEncoded();
      assert d + [] == d && Listing(d, offs) + [] == Listing(d, offs);
    } else {
      var front, t := ts[..|ts| - 1], ts[|ts| - 1];
      assert ts == front + [t];
      EncodedNext(ts, |ts| - 1);
      ListingMore(d, offs, front, lay);
      var d1 := d + EncodeAll(front);
      ListingAppended(d1, Starts(d1, lay, 0, |d1|, 0).value, t, lay);
      assert ts[..|ts|] == ts && d + EncodeAll(ts) == d1 + Encode(t);
      assert Listing(d, offs) + ts == Listing(d, offs) + front + [t];
    }
  }

  // ----- other ids and other string offsets in a descriptor -----

  ghost predicate AllFit(es: seq<seq<nat>>) {
    forall i :: 0 <= i < |es| ==> FitWords(es[i])
  }

  lemma {:induction false} FlatFits(es: seq<seq<nat>>)
    ensures FitWords(Flat(es)) <==> AllFit(es)
  {
    if es != [] {
      var front, last := es[..|es| - 1], es[|es| - 1];
      FlatFits(front);
      BothFit(Flat(front), last);
      assert es == front + [last];
      FlatSnoc(front, last);
    }
  }

  lemma BothFit(a: seq<nat>, b: seq<nat>)
    ensures FitWords(a + b) <==> FitWords(a) && FitWords(b)
  {
    assert (a + b)[..|a|] == a && (a + b)[|a|..] == b;
  }

  lemma {:induction false} ColsFit(lo: nat, hi: nat, es: seq<seq<nat>>, vs: seq<nat>)
    requires lo <= hi && Wide(hi, es) && |vs| == |Cols(lo, hi, es)| && AllFit(es) && FitWords(vs)
    ensures AllFit(WithCols(lo, hi, es, vs))
  {
    hide Cols, WithCols;
    var r := WithCols(lo, hi, es, vs);
    if es != [] {
      WithColsAt(lo, hi, es, vs);
      ColsFit(lo, hi, es[1..], vs[hi - lo..]);
      assert r == [r[0]] + r[1..];
    }
  }

  /** With offsets that fit, a descriptor can still be written. */
  lemma NamesFit(t: Type, ns: seq<nat>)
    requires Writable(t) && |ns| == |Names(t)| && FitWords(ns)
    ensures Writable(WithNames(t, ns))
  {
    hide Cols, WithCols, Flat;
    var h := |HeadNames(t)|;
    FlatFits(t.elems);
    ColsFit(0, NameHi(t.kind), t.elems, ns[h..]);
    FlatFits(WithNames(t, ns).elems);
  }

  lemma RefsFit(t: Type, rs: seq<nat>)
    requires Writable(t) && |rs| == |Refs(t)| && FitWords(rs)
    ensures Writable(WithRefs(t, rs))
  {
    hide Cols, WithCols, Flat;
    var h := |HeadRefs(t)|;
    FlatFits(t.elems);
    ColsFit(RefLo(t.kind), RefHi(t.kind), t.elems, rs[h..]);
    FlatFits(WithRefs(t, rs).elems);
  }

  lemma SameSize(t: Type, t': Type)
    requires Writable(t) && Writable(t') && t'.kind == t.kind && t'.kflag == t.kflag && t'.vlen == t.vlen
    ensures |Encode(t')| == |Encode(t)|
  {
    hide Encode, Writable, RestWords;
    DecodeEncode([], t, []);
    DecodeEncode([], t', []);
  }
}
