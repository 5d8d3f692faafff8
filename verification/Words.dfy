/** Bytes, the 32-bit words that they form in the machine's own order, and words in the other order.
    The machine's own order puts the least significant byte first. */
module Words {
  type Byte = b: nat | b < 256

  const WORD_LIMIT: nat := 0x1_0000_0000

  function Load(d: seq<Byte>, at: nat): (w: nat)
    requires at + 4 <= |d|
    ensures w < WORD_LIMIT
  {
    var b0: nat, b1: nat, b2: nat, b3: nat := d[at], d[at + 1], d[at + 2], d[at + 3];
    b0 + 0x100 * b1 + 0x1_0000 * b2 + 0x100_0000 * b3
  }

  function Load16(d: seq<Byte>, at: nat): (w: nat)
    requires at + 2 <= |d|
    ensures w < 0x1_0000
  {
    var b0: nat, b1: nat := d[at], d[at + 1];
    b0 + 0x100 * b1
  }

  function Word(w: nat): (r: seq<Byte>)
    requires w < WORD_LIMIT
    ensures |r| == 4 && Load(r, 0) == w
  {
    var w1 := w / 0x100;
    var w2 := w1 / 0x100;
    var w3 := w2 / 0x100;
    [w % 0x100, w1 % 0x100, w2 % 0x100, w3]
  }

  function Half(w: nat): (r: seq<Byte>)
    requires w < 0x1_0000
    ensures |r| == 2 && Load16(r, 0) == w
  {
    [w % 0x100, w / 0x100]
  }

  /** A word determines its bytes. */
  lemma WordOfLoad(d: seq<Byte>, at: nat)
    requires at + 4 <= |d|
    ensures Word(Load(d, at)) == d[at..at + 4]
  {
    var b0: nat, b1: nat, b2: nat, b3: nat := d[at], d[at + 1], d[at + 2], d[at + 3];
    var w := Load(d, at);
    var w1 := w / 0x100;
    assert w % 0x100 == b0 && w1 == b1 + 0x100 * b2 + 0x1_0000 * b3;
    var w2 := w1 / 0x100;
    assert w1 % 0x100 == b1 && w2 == b2 + 0x100 * b3;
  }

  lemma LoadWithin(d: seq<Byte>, lo: nat, hi: nat, at: nat)
    requires lo <= at && at + 4 <= hi <= |d|
    ensures Load(d, at) == Load(d[lo..hi], at - lo)
  {
  }

  /** Where a byte of the words from `lo` on comes to lie if each of them is turned round. */
  function Mirror(lo: nat, i: nat): (j: nat)
    requires lo <= i
    ensures lo <= j && (i - lo) / 4 == (j - lo) / 4 && (j - lo) % 4 == 3 - (i - lo) % 4
  {
    i + 3 - 2 * ((i - lo) % 4)
  }

  /** The words between `lo` and `hi` turned round. */
  function Swapped(d: seq<Byte>, lo: nat, hi: nat): (r: seq<Byte>)
    requires lo <= hi <= |d| && (hi - lo) % 4 == 0
    ensures |r| == |d|
  {
    seq(|d|, i requires 0 <= i < |d| => if lo <= i < hi then (MirrorInside(lo, hi, i); d[Mirror(lo, i)]) else d[i])
  }

  lemma MirrorInside(lo: nat, hi: nat, i: nat)
    requires lo <= i < hi && (hi - lo) % 4 == 0
    ensures lo <= Mirror(lo, i) < hi && Mirror(lo, Mirror(lo, i)) == i
  {
  }

  lemma SwapTwice(d: seq<Byte>, lo: nat, hi: nat)
    requires lo <= hi <= |d| && (hi - lo) % 4 == 0
    ensures Swapped(Swapped(d, lo, hi), lo, hi) == d
  {
    forall i | 0 <= i < |d|
      ensures Swapped(Swapped(d, lo, hi), lo, hi)[i] == d[i]
    {
      if lo <= i < hi {
        MirrorInside(lo, hi, i);
      }
    }
  }

  /** The first word comes to lie backwards. */
  lemma SwapFirst(d: seq<Byte>, lo: nat, hi: nat)
    requires lo + 4 <= hi <= |d| && (hi - lo) % 4 == 0
    ensures var r := Swapped(d, lo, hi);
      r[lo] == d[lo + 3] && r[lo + 1] == d[lo + 2] && r[lo + 2] == d[lo + 1] && r[lo + 3] == d[lo]
  {
  }

  lemma MirrorBehind(lo: nat, mid: nat, i: nat)
    requires lo <= mid <= i && (mid - lo) % 4 == 0
    ensures Mirror(lo, i) == Mirror(mid, i)
  {
    assert (i - lo) % 4 == (i - mid) % 4;
  }

  /** Words may be turned round in pieces. */
  lemma SwapSplit(d: seq<Byte>, lo: nat, mid: nat, hi: nat)
    requires lo <= mid <= hi <= |d| && (hi - lo) % 4 == 0 && (mid - lo) % 4 == 0
    ensures Swapped(Swapped(d, lo, mid), mid, hi) == Swapped(d, lo, hi) == Swapped(Swapped(d, mid, hi), lo, mid)
  {
    var a, b, c := Swapped(Swapped(d, lo, mid), mid, hi), Swapped(d, lo, hi), Swapped(Swapped(d, mid, hi), lo, mid);
    forall i | 0 <= i < |d|
      ensures a[i] == b[i] == c[i]
    {
      if lo <= i < mid {
        MirrorInside(lo, mid, i);
      } else if mid <= i < hi {
        MirrorBehind(lo, mid, i);
        MirrorInside(mid, hi, i);
      }
    }
  }

  /** Turning round what lies in the middle. */
  lemma SwapMiddle(pre: seq<Byte>, d: seq<Byte>, post: seq<Byte>, lo: nat, hi: nat)
    requires lo <= hi <= |d| && (hi - lo) % 4 == 0
    ensures Swapped(pre + d + post, |pre| + lo, |pre| + hi) == pre + Swapped(d, lo, hi) + post
  {
    var n := |pre|;
    var a, b := Swapped(pre + d + post, n + lo, n + hi), pre + Swapped(d, lo, hi) + post;
    forall i | 0 <= i < |a|
      ensures a[i] == b[i]
    {
      if n + lo <= i < n + hi {
        MirrorInside(n + lo, n + hi, i);
        assert (i - n) - lo == i - (n + lo);
        assert Mirror(n + lo, i) == Mirror(lo, i - n) + n;
      }
    }
  }

  /** Turn one word round, in place. */
  method SwapWord(a: array<Byte>, at: nat)
    requires at + 4 <= a.Length
    modifies a
    ensures a[..] == Swapped(old(a[..]), at, at + 4)
  {
    a[at], a[at + 1], a[at + 2], a[at + 3] := a[at + 3], a[at + 2], a[at + 1], a[at];
  }

  /** Turn `n` words round, one after the other. */
  method SwapWords(a: array<Byte>, at: nat, n: nat)
    requires at + 4 * n <= a.Length
    modifies a
    ensures a[..] == Swapped(old(a[..]), at, at + 4 * n)
  {
    hide Swapped, Mirror;
    ghost var was := a[..];
    NothingSwapped(was, at);
    var i, p := 0, at;
    while i < n
      invariant 0 <= i <= n && p == at + 4 * i && (p - at) % 4 == 0 && a[..] == Swapped(was, at, p)
    {
      SwapWord(a, p);
      SwapSplit(was, at, p, p + 4);
      i, p := i + 1, p + 4;
    }
  }

  lemma NothingSwapped(d: seq<Byte>, lo: nat)
    requires lo <= |d|
    ensures Swapped(d, lo, lo) == d
  {
  }
}
