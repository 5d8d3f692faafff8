/** Descriptors as values and as bytes: each determines the other. */
module TypeCodec {
  import opened Options
  import opened BtfTypes
  import opened Words
  import opened TypeSection

  // ----- words -----

  function WordsAt(d: seq<Byte>, p: nat, n: nat): (ws: seq<nat>)
    requires p + 4 * n <= |d|
    ensures |ws| == n && FitWords(ws)
  {
    seq(n, i requires 0 <= i < n => Load(d, p + 4 * i))
  }

  predicate FitWords(ws: seq<nat>) {
    forall i :: 0 <= i < |ws| ==> ws[i] < WORD_LIMIT
  }

  function Bytes(ws: seq<nat>): (r: seq<Byte>)
    requires FitWords(ws)
    ensures |r| == 4 * |ws|
  {
    if ws == [] then [] else Bytes(ws[..|ws| - 1]) + Word(ws[|ws| - 1])
  }

  lemma {:induction false} BytesAt(ws: seq<nat>, i: nat)
    requires FitWords(ws) && i < |ws|
    ensures Bytes(ws)[4 * i..4 * i + 4] == Word(ws[i])
  {
    hide Word;
    var front := ws[..|ws| - 1];
    if i < |ws| - 1 {
      BytesAt(front, i);
      assert Bytes(ws)[4 * i..4 * i + 4] == Bytes(front)[4 * i..4 * i + 4];
    }
  }

  lemma {:induction false} BytesTogether(a: seq<nat>, b: seq<nat>)
    requires FitWords(a) && FitWords(b)
    ensures Bytes(a + b) == Bytes(a) + Bytes(b)
  {
    hide Word;
    if b == [] {
      assert a + b == a;
    } else {
      var front := b[..|b| - 1];
      BytesTogether(a, front);
      assert (a + b)[..|a + b| - 1] == a + front;
      assert Bytes(a) + (Bytes(front) + Word(b[|b| - 1])) == (Bytes(a) + Bytes(front)) + Word(b[|b| - 1]);
    }
  }

  /** Words come back from their bytes. */
  lemma WordsOfBytes(pre: seq<Byte>, ws: seq<nat>, post: seq<Byte>)
    requires FitWords(ws)
    ensures |pre + Bytes(ws) + post| == |pre| + 4 * |ws| + |post| && WordsAt(pre + Bytes(ws) + post, |pre|, |ws|) == ws
  {
    hide Word, Load, Bytes;
    var d := pre + Bytes(ws) + post;
    forall i | 0 <= i < |ws|
      ensures Load(d, |pre| + 4 * i) == ws[i]
    {
      var at := |pre| + 4 * i;
      BytesAt(ws, i);
      LoadWithin(d, at, at + 4, at);
      Middle(pre, Bytes(ws), post, 4 * i);
    }
  }

  lemma Middle(pre: seq<Byte>, x: seq<Byte>, post: seq<Byte>, j: nat)
    requires j + 4 <= |x|
    ensures (pre + x + post)[|pre| + j..|pre| + j + 4] == x[j..j + 4]
  {
  }

  /** Bytes come back from their words. */
  lemma {:induction false} BytesOfWords(d: seq<Byte>, p: nat, n: nat)
    requires p + 4 * n <= |d|
    ensures Bytes(WordsAt(d, p, n)) == d[p..p + 4 * n]
  {
    hide Word, Load;
    if n > 0 {
      BytesOfWords(d, p, n - 1);
      var ws := WordsAt(d, p, n);
      assert ws[..n - 1] == WordsAt(d, p, n - 1);
      WordOfLoad(d, p + 4 * (n - 1));
      assert d[p..p + 4 * n] == d[p..p + 4 * (n - 1)] + d[p + 4 * (n - 1)..p + 4 * (n - 1) + 4];
    }
  }

  // ----- repeated elements -----

  function Flat(es: seq<seq<nat>>): seq<nat> {
    if es == [] then [] else Flat(es[..|es| - 1]) + es[|es| - 1]
  }

  ghost predicate AllWide(es: seq<seq<nat>>, w: nat) {
    forall i :: 0 <= i < |es| ==> |es[i]| == w
  }

  lemma FlatNil()
    ensures Flat([]) == []
  {
  }

  lemma FlatSnoc(es: seq<seq<nat>>, e: seq<nat>)
    ensures Flat(es + [e]) == Flat(es) + e
  {
    assert (es + [e])[..|es|] == es;
  }

  lemma {:induction false} FlatLength(es: seq<seq<nat>>, w: nat)
    requires AllWide(es, w)
    ensures |Flat(es)| == |es| * w
  {
    hide Flat;
    if es == [] {
      FlatNil();
    } else {
      var front := es[..|es| - 1];
      FlatLength(front, w);
      assert front + [es[|es| - 1]] == es;
      FlatSnoc(front, es[|es| - 1]);
      assert |es| * w == (|es| - 1) * w + w;
    }
  }

  /** The words of an element lie together, `p` being where they start. */
  lemma {:induction false} FlatAt(es: seq<seq<nat>>, w: nat, i: nat, p: nat)
    requires AllWide(es, w) && i < |es| && p == i * w
    ensures p + w <= |Flat(es)| && Flat(es)[p..p + w] == es[i]
    decreases |es|
  {
    hide Flat;
    var front, last := es[..|es| - 1], es[|es| - 1];
    assert front + [last] == es;
    FlatSnoc(front, last);
    if i < |front| {
      FlatAt(front, w, i, p);
      SliceOfFront(Flat(front), last, p, w);
    } else {
      FlatLength(front, w);
      SliceOfBack(Flat(front), last);
    }
  }

  lemma SliceOfFront(a: seq<nat>, b: seq<nat>, p: nat, w: nat)
    requires p + w <= |a|
    ensures (a + b)[p..p + w] == a[p..p + w]
  {
  }

  lemma SliceOfBack(a: seq<nat>, b: seq<nat>)
    ensures (a + b)[|a|..|a| + |b|] == b
  {
  }

  lemma PrefixSnoc(ws: seq<nat>, a: nat, b: nat)
    requires a <= b <= |ws|
    ensures ws[..b] == ws[..a] + ws[a..b]
  {
  }

  /** The words cut into elements of equal width. */
  function Chunks(ws: seq<nat>, w: nat, n: nat): (es: seq<seq<nat>>)
    requires n * w <= |ws|
    ensures |es| == n && AllWide(es, w)
  {
    if n == 0 then []
    else
      assert n * w == (n - 1) * w + w;
      Chunks(ws, w, n - 1) + [ws[(n - 1) * w..(n - 1) * w + w]]
  }

  lemma {:induction false} FlatOfChunks(ws: seq<nat>, w: nat, n: nat)
    requires n * w <= |ws|
    ensures Flat(Chunks(ws, w, n)) == ws[..n * w]
  {
    hide Flat, AllWide;
    if n == 0 {
      FlatNil();
    } else {
      var a, b := (n - 1) * w, n * w;
      assert b == a + w;
      FlatOfChunks(ws, w, n - 1);
      FlatSnoc(Chunks(ws, w, n - 1), ws[a..b]);
      PrefixSnoc(ws, a, b);
    }
  }

  lemma {:induction false} ChunksOfFlat(es: seq<seq<nat>>, w: nat, n: nat)
    requires AllWide(es, w) && n <= |es|
    ensures n * w <= |Flat(es)| && Chunks(Flat(es), w, n) == es[..n]
  {
    hide Flat, AllWide;
    FlatLength(es, w);
    assert |es| * w == n * w + (|es| - n) * w;
    if n > 0 {
      assert n * w == (n - 1) * w + w;
      ChunksOfFlat(es, w, n - 1);
      FlatAt(es, w, n - 1, (n - 1) * w);
      assert es[..n] == es[..n - 1] + [es[n - 1]];
    }
  }

  // ----- descriptors -----

  lemma KindOfCode(k: Kind)
    ensures KindOf(CodeOf(k)) == k || k.Other?
  {
  }

  /** Descriptors that can be written: of a known kind, and with words that fit. */
  ghost predicate Writable(t: Type) {
    && WellFormed(t) && !t.kind.Void? && !t.kind.Other? && t.vlen < VLENS && t.name < WORD_LIMIT && t.st < WORD_LIMIT
    && FitWords(t.extra) && FitWords(Flat(t.elems))
  }

  function InfoOf(t: Type): (info: nat)
    requires !t.kind.Other? && t.vlen < VLENS
    ensures info < WORD_LIMIT && KindOf(KindCode(info)) == t.kind && Vlen(info) == t.vlen && Kflag(info) == t.kflag
  {
    KindOfCode(t.kind);
    MakeInfo(CodeOf(t.kind), t.vlen, t.kflag)
  }

  function Encode(t: Type): seq<Byte>
    requires Writable(t)
  {
    Bytes([t.name, InfoOf(t), t.st]) + Bytes(t.extra) + Bytes(Flat(t.elems))
  }

  ghost predicate Decodable(d: seq<Byte>, p: nat) {
    && p + HEADER_SIZE <= |d| && Known(Load(d, p + INFO_OFF))
    && p + HEADER_SIZE + 4 * RestWords(Load(d, p + INFO_OFF)) <= |d|
  }

  /** The descriptor that starts at `p`. */
  function TypeAt(d: seq<Byte>, p: nat): (t: Type)
    requires Decodable(d, p)
  {
    var info := Load(d, p + INFO_OFF);
    var k := KindOf(KindCode(info));
    var once := InfoWords(k);
    var n := if ElemWords(k) == 0 then 0 else Vlen(info);
    RestSplit(info, n);
    Type(k, Kflag(info), Vlen(info), Load(d, p), Load(d, p + 8), WordsAt(d, p + HEADER_SIZE, once),
         Chunks(WordsAt(d, p + HEADER_SIZE + 4 * once, n * ElemWords(k)), ElemWords(k), n))
  }

  lemma RestSplit(info: nat, n: nat)
    requires n == if ElemWords(KindOf(KindCode(info))) == 0 then 0 else Vlen(info)
    ensures RestWords(info) == InfoWords(KindOf(KindCode(info))) + n * ElemWords(KindOf(KindCode(info)))
  {
    var w := ElemWords(KindOf(KindCode(info)));
    if w == 0 {
      assert Vlen(info) * w == 0;
    }
  }

  /** Reading a written descriptor gives it back. */
  lemma DecodeEncode(pre: seq<Byte>, t: Type, post: seq<Byte>)
    requires Writable(t)
    ensures Decodable(pre + Encode(t) + post, |pre|) && TypeAt(pre + Encode(t) + post, |pre|) == t
    ensures |Encode(t)| == HEADER_SIZE + 4 * RestWords(InfoOf(t))
  {
    hide Load, Word, KindOf, KindCode, Vlen, Kflag, MakeInfo, CodeOf, Chunks, Bytes, Flat;
    var d, w, n := pre + Encode(t) + post, ElemWords(t.kind), |t.elems|;
    var head, info, es := [t.name, InfoOf(t), t.st], InfoOf(t), Flat(t.elems);
    var a, b, c := Bytes(head), Bytes(t.extra), Bytes(es);
    FlatLength(t.elems, w);
    RestSplit(info, n);
    Regroup(pre, a, b, c, post);
    WordsOfBytes(pre, head, b + c + post);
    HeadWords(d, |pre|, head);
    WordsOfBytes(pre + a, t.extra, c + post);
    WordsOfBytes(pre + a + b, es, post);
    ChunksOfFlat(t.elems, w, n);
    assert t.elems[..n] == t.elems;
  }

  lemma Regroup(pre: seq<Byte>, a: seq<Byte>, b: seq<Byte>, c: seq<Byte>, post: seq<Byte>)
    ensures var d := pre + (a + b + c) + post;
      d == pre + a + (b + c + post) && d == (pre + a) + b + (c + post) && d == (pre + a + b) + c + post
  {
  }

  lemma HeadWords(d: seq<Byte>, p: nat, head: seq<nat>)
    requires p + HEADER_SIZE <= |d| && |head| == 3 && WordsAt(d, p, 3) == head
    ensures Load(d, p) == head[0] && Load(d, p + INFO_OFF) == head[1] && Load(d, p + 8) == head[2]
  {
    hide Load;
    var ws := WordsAt(d, p, 3);
    assert ws[0] == Load(d, p + 4 * 0) && ws[1] == Load(d, p + 4 * 1) && ws[2] == Load(d, p + 4 * 2);
  }

  /** Writing a descriptor that was read gives the bytes back. */
  lemma EncodeDecode(d: seq<Byte>, p: nat)
    requires Decodable(d, p)
    ensures Writable(TypeAt(d, p)) && Encode(TypeAt(d, p)) ==
      d[p..p + HEADER_SIZE + 4 * RestWords(Load(d, p + INFO_OFF))]
  {
    hide Load, Word, KindOf, KindCode, Vlen, Kflag, MakeInfo, CodeOf, Chunks, InfoWords, ElemWords, Bytes, Flat,
      WellFormed, RestWords;
    var t, info := TypeAt(d, p), Load(d, p + INFO_OFF);
    var w, once, n := ElemWords(t.kind), InfoWords(t.kind), |t.elems|;
    RestSplit(info, n);
    var ws := WordsAt(d, p + HEADER_SIZE + 4 * once, n * w);
    FlatOfChunks(ws, w, n);
    assert ws[..n * w] == ws;
    InfoBack(info, t);
    assert WordsAt(d, p, 3) == [t.name, info, t.st];
    BytesOfWords(d, p, 3);
    BytesOfWords(d, p + HEADER_SIZE, once);
    BytesOfWords(d, p + HEADER_SIZE + 4 * once, n * w);
    ReadWellFormed(d, p);
    ThreeSlices(d, p, p + HEADER_SIZE, p + HEADER_SIZE + 4 * once, p + HEADER_SIZE + 4 * once + 4 * (n * w));
  }

  lemma ReadWellFormed(d: seq<Byte>, p: nat)
    requires Decodable(d, p)
    ensures WellFormed(TypeAt(d, p))
  {
    hide Load, KindOf, KindCode, Vlen, Kflag, Chunks, InfoWords, ElemWords;
  }

  lemma ThreeSlices(d: seq<Byte>, a: nat, b: nat, c: nat, e: nat)
    requires a <= b <= c <= e <= |d|
    ensures d[a..b] + d[b..c] + d[c..e] == d[a..e]
  {
  }

  lemma InfoBack(info: nat, t: Type)
    requires info < WORD_LIMIT && Known(info) && t.kind == KindOf(KindCode(info)) && t.vlen == Vlen(info) &&
      t.kflag == Kflag(info)
    ensures InfoOf(t) == info
  {
    assert CodeOf(t.kind) == KindCode(info);
    var q := info / VLENS;
    assert info == q * VLENS + Vlen(info) && q < 2 * KINDS;
    assert q == (if Kflag(info) then KINDS else 0) + KindCode(info);
  }

  /** The size that is read off a written descriptor is its size. */
  lemma EncodeSize(t: Type, lay: Option<seq<Layout>>)
    requires Writable(t)
    ensures |Encode(t)| >= HEADER_SIZE && SizeOf(Load(Encode(t), INFO_OFF), lay) == Some(|Encode(t)|)
  {
    hide Load, Encode, RestWords, Writable, KindCode, KindOf, Vlen, Kflag;
    DecodeEncode([], t, []);
    assert [] + Encode(t) + [] == Encode(t);
    InfoWritten(t);
    KnownSize(Load(Encode(t), INFO_OFF), lay);
  }

  lemma InfoWritten(t: Type)
    requires Writable(t)
    ensures |Encode(t)| >= HEADER_SIZE && Load(Encode(t), INFO_OFF) == InfoOf(t)
  {
    hide Load, Word, RestWords, KindCode, KindOf, Vlen, Kflag, MakeInfo, CodeOf, Bytes, Flat;
    var head, b, c := [t.name, InfoOf(t), t.st], Bytes(t.extra), Bytes(Flat(t.elems));
    WordsOfBytes([], head, b + c + []);
    Regroup([], Bytes(head), b, c, []);
    assert [] + Encode(t) + [] == Encode(t);
    HeadWords(Encode(t), 0, head);
  }
}
