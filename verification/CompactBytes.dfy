/** Compaction as it is done in memory: surviving descriptors are moved down one after the other, over
    those that are dropped, and the index of starts is rewritten while it is still being read. */
module CompactBytes {
  import opened Options
  import opened Words
  import opened BtfTypes
  import opened TypeSection
  import opened TypeListing
  import opened CompactPass

  /** The bytes of a descriptor. */
  ghost function Record(d: seq<Byte>, offs: seq<nat>, i: nat): seq<Byte>
    requires i < |offs| && offs[i] <= NextStart(offs, i + 1, |d|) <= |d|
  {
    d[offs[i]..NextStart(offs, i + 1, |d|)]
  }

  ghost predicate EndsWithin(d: seq<Byte>, offs: seq<nat>, i: nat)
    requires i < |offs|
  {
    offs[i] <= NextStart(offs, i + 1, |d|) <= |d|
  }

  ghost predicate Ordered(d: seq<Byte>, offs: seq<nat>) {
    forall i {:trigger offs[i]} {:trigger EndsWithin(d, offs, i)} :: 0 <= i < |offs| ==> EndsWithin(d, offs, i)
  }

  /** The descriptors of the given ids, one behind the other. */
  ghost function Packed(d: seq<Byte>, offs: seq<nat>, start: nat, kept: seq<nat>): seq<Byte>
    requires Ordered(d, offs) && forall x :: 0 <= x < |kept| ==> start <= kept[x] < start + |offs|
  {
    if kept == [] then []
    else Packed(d, offs, start, kept[..|kept| - 1]) + Record(d, offs, kept[|kept| - 1] - start)
  }

  lemma PackedMore(d: seq<Byte>, offs: seq<nat>, start: nat, kept: seq<nat>, id: nat)
    requires Ordered(d, offs) && (forall x :: 0 <= x < |kept| ==> start <= kept[x] < start + |offs|) &&
      start <= id < start + |offs|
    ensures Packed(d, offs, start, kept + [id]) == Packed(d, offs, start, kept) + Record(d, offs, id - start)
  {
    assert (kept + [id])[..|kept|] == kept;
  }

  lemma StartsOrdered(d: seq<Byte>, lay: Option<seq<Layout>>, offs: seq<nat>)
    requires Starts(d, lay, 0, |d|, 0) == Some(offs)
    ensures Ordered(d, offs)
  {
    hide Starts, SizeOf, Load, NextStart;
    forall i | 0 <= i < |offs|
      ensures EndsWithin(d, offs, i)
    {
      StartsFollow(d, lay, offs, i);
    }
  }

  /** The first `i` bytes from `from` on have been moved down to `to`. */
  ghost function MovedBy(d: seq<Byte>, to: nat, from: nat, i: nat): (r: seq<Byte>)
    requires to <= from && from + i <= |d|
    ensures |r| == |d|
  {
    d[..to] + d[from..from + i] + d[to + i..]
  }

  lemma MovedOne(d: seq<Byte>, to: nat, from: nat, i: nat)
    requires to <= from && from + i < |d|
    ensures MovedBy(d, to, from, i)[from + i] == d[from + i]
    ensures MovedBy(d, to, from, i)[to + i := d[from + i]] == MovedBy(d, to, from, i + 1)
  {
  }

  /** Move bytes down, where the old and the new place may overlap. */
  method MoveDown(a: array<Byte>, to: nat, from: nat, n: nat)
    requires to <= from && from + n <= a.Length
    modifies a
    ensures a[..] == MovedBy(old(a[..]), to, from, n)
  {
    hide MovedBy;
    ghost var was := a[..];
    MovedNone(was, to, from);
    var i := 0;
    while i < n
      invariant 0 <= i <= n && a[..] == MovedBy(was, to, from, i)
    {
      MovedOne(was, to, from, i);
      ghost var now := a[..];
      a[to + i] := a[from + i];
      assert a[..] == now[to + i := now[from + i]];
      i := i + 1;
    }
  }

  lemma MovedNone(d: seq<Byte>, to: nat, from: nat)
    requires to <= from <= |d|
    ensures MovedBy(d, to, from, 0) == d
  {
  }

  lemma MovedParts(d: seq<Byte>, to: nat, from: nat, n: nat)
    requires to <= from && from + n <= |d|
    ensures var r := MovedBy(d, to, from, n);
      r[..to] == d[..to] && r[to..to + n] == d[from..from + n] && r[from + n..] == d[from + n..]
  {
  }

  /** Own types up to `id` have been dealt with: survivors are packed below `p`, nothing from there on to
      the next descriptor matters, and all descriptors that are still to be read are as they were. */
  ghost predicate PackedTo(d: seq<Byte>, offs: seq<nat>, lay: Option<seq<Layout>>, canon: seq<nat>, start: nat,
                           id: nat, now: seq<Byte>, offs': seq<nat>, p: nat)
    requires Ordered(d, offs)
  {
    && start <= id <= |canon| == start + |offs| && |now| == |d| && |offs'| == |offs|
    && var s, q := Survivors(canon, start, id), NextStart(offs, id - start, |d|);
       && p <= q <= |d| && now[..p] == Packed(d, offs, start, s) && now[q..] == d[q..]
       && Starts(now[..p], lay, 0, p, 0) == Some(offs'[..|s|]) && offs'[id - start..] == offs[id - start..]
  }

  lemma PackNone(d: seq<Byte>, offs: seq<nat>, lay: Option<seq<Layout>>, canon: seq<nat>, start: nat)
    requires Ordered(d, offs) && start + |offs| == |canon|
    ensures PackedTo(d, offs, lay, canon, start, start, d, offs, 0)
  {
    hide SizeOf, Load;
    FirstSurvivor(canon, start);
    assert offs[..0] == [] && d[..0] == [];
  }

  /** A type that is dropped. */
  lemma PackSkip(d: seq<Byte>, offs: seq<nat>, lay: Option<seq<Layout>>, canon: seq<nat>, start: nat, id: nat,
                 now: seq<Byte>, offs': seq<nat>, p: nat)
    requires Ordered(d, offs) && PackedTo(d, offs, lay, canon, start, id, now, offs', p) && id < |canon| &&
      canon[id] != id
    ensures PackedTo(d, offs, lay, canon, start, id + 1, now, offs', p)
  {
    hide Starts, Packed, Survivors;
    NextSurvivor(canon, start, id);
    var i := id - start;
    var q, q' := offs[i], NextStart(offs, i + 1, |d|);
    assert Survivors(canon, start, id) + [] == Survivors(canon, start, id);
    assert now[q'..] == now[q..][q' - q..] && d[q'..] == d[q..][q' - q..];
    assert offs'[i + 1..] == offs'[i..][1..] && offs[i + 1..] == offs[i..][1..];
  }

  /** A survivor that has been moved down. */
  lemma PackOne(d: seq<Byte>, offs: seq<nat>, lay: Option<seq<Layout>>, canon: seq<nat>, start: nat, id: nat,
                now: seq<Byte>, offs': seq<nat>, p: nat, now': seq<Byte>)
    requires Starts(d, lay, 0, |d|, 0) == Some(offs) && Ordered(d, offs) &&
      PackedTo(d, offs, lay, canon, start, id, now, offs', p)
    requires id < |canon| && canon[id] == id && |now'| == |d|
    requires var q, q' := offs[id - start], NextStart(offs, id - start + 1, |d|);
      p + q' - q <= |d| && now'[..p] == now[..p] && now'[p..p + q' - q] == now[q..q'] && now'[q'..] == now[q'..]
    ensures var n, s := NextStart(offs, id - start + 1, |d|) - offs[id - start], Survivors(canon, start, id);
      |s| <= id - start && PackedTo(d, offs, lay, canon, start, id + 1, now', offs'[|s| := p], p + n)
  {
    hide Starts, Survivors, Load, SizeOf, Packed;
    NextSurvivor(canon, start, id);
    var i, s := id - start, Survivors(canon, start, id);
    var q, q' := offs[i], NextStart(offs, i + 1, |d|);
    var rec := Record(d, offs, i);
    assert now[q..q'] == now[q..][..q' - q] == d[q..][..q' - q] == rec;
    assert now[q'..] == now[q..][q' - q..] && d[q'..] == d[q..][q' - q..];
    assert now'[..p + q' - q] == now'[..p] + now'[p..p + q' - q];
    PackedMore(d, offs, start, s, id);
    RecordSize(d, offs, lay, i);
    StartsAppended(now[..p], rec, lay, 0, offs'[..|s|]);
    var offs1 := offs'[|s| := p];
    assert offs1[..|s| + 1] == offs'[..|s|] + [p];
    assert offs1[i + 1..] == offs'[i..][1..] && offs[i + 1..] == offs[i..][1..];
  }

  /** Pack the surviving types in place. What is left is what building the section afresh would give, and the
      starts are those that reading it finds. */
  method CompactInMemory(a: array<Byte>, offs: array<nat>, lay: Option<seq<Layout>>, canon: seq<nat>, start: nat)
    returns (count: nat, len: nat)
    requires Starts(a[..], lay, 0, a.Length, 0) == Some(offs[..]) && start + offs.Length == |canon|
    modifies a, offs
    ensures Ordered(old(a[..]), old(offs[..])) && count == |Survivors(canon, start, |canon|)| <= offs.Length &&
      len <= a.Length
    ensures a[..][..len] == Packed(old(a[..]), old(offs[..]), start, Survivors(canon, start, |canon|))
    ensures Starts(a[..][..len], lay, 0, len, 0) == Some(offs[..][..count])
  {
    hide Starts, Packed, Survivors, Load, SizeOf, PackedTo, Ordered, MovedBy;
    ghost var d, offs0 := a[..], offs[..];
    StartsOrdered(d, lay, offs0);
    PackNone(d, offs0, lay, canon, start);
    FirstSurvivor(canon, start);
    var id, p, next := start, 0, 0;
    while id < |canon|
      invariant start <= id <= |canon| && next == |Survivors(canon, start, id)|
      invariant PackedTo(d, offs0, lay, canon, start, id, a[..], offs[..], p)
    {
      NextSurvivor(canon, start, id);
      if canon[id] != id {
        PackSkip(d, offs0, lay, canon, start, id, a[..], offs[..], p);
      } else {
        Unread(d, offs0, lay, canon, start, id, a[..], offs[..], p);
        ghost var now, offs1 := a[..], offs[..];
        var at := offs[id - start];
        var n := SizeOf(Load(a[..], at + INFO_OFF), lay).value;
        MoveDown(a, p, at, n);
        MovedParts(now, p, at, n);
        PackOne(d, offs0, lay, canon, start, id, now, offs1, p, a[..]);
        offs[next] := p;
        p := p + n;
        next := next + 1;
      }
      id := id + 1;
    }
    PackedParts(d, offs0, lay, canon, start, a[..], offs[..], p);
    count, len := next, p;
  }

  /** The next descriptor can still be read, at its old place. */
  lemma Unread(d: seq<Byte>, offs: seq<nat>, lay: Option<seq<Layout>>, canon: seq<nat>, start: nat, id: nat,
               now: seq<Byte>, offs': seq<nat>, p: nat)
    requires Starts(d, lay, 0, |d|, 0) == Some(offs) && Ordered(d, offs) &&
      PackedTo(d, offs, lay, canon, start, id, now, offs', p) && id < |canon|
    ensures |offs'| == |offs| && |now| == |d| && offs'[id - start] == offs[id - start] &&
      offs[id - start] + HEADER_SIZE <= |d|
    ensures SizeOf(Load(now, offs[id - start] + INFO_OFF), lay) ==
      Some(NextStart(offs, id - start + 1, |d|) - offs[id - start])
    ensures p <= offs[id - start] && NextStart(offs, id - start + 1, |d|) <= |d|
  {
    hide Starts, Survivors, Load, SizeOf, Packed;
    var i := id - start;
    StartsFollow(d, lay, offs, i);
    assert offs'[i..][0] == offs[i..][0];
    var q := offs[i];
    LoadWithin(d, q, |d|, q + INFO_OFF);
    LoadWithin(now, q, |d|, q + INFO_OFF);
    assert now[q..|d|] == now[q..] == d[q..] == d[q..|d|];
  }

  lemma PackedParts(d: seq<Byte>, offs: seq<nat>, lay: Option<seq<Layout>>, canon: seq<nat>, start: nat,
                    now: seq<Byte>, offs': seq<nat>, p: nat)
    requires Ordered(d, offs) && PackedTo(d, offs, lay, canon, start, |canon|, now, offs', p)
    ensures start <= |canon| && |Survivors(canon, start, |canon|)| <= |offs'| && p <= |now|
    ensures now[..p] == Packed(d, offs, start, Survivors(canon, start, |canon|))
    ensures Starts(now[..p], lay, 0, p, 0) == Some(offs'[..|Survivors(canon, start, |canon|)|])
  {
    hide Starts, Survivors, Packed;
  }

  /** The types of the given ids. */
  ghost function Picked(ts: seq<Type>, start: nat, kept: seq<nat>): (r: seq<Type>)
    requires forall x :: 0 <= x < |kept| ==> start <= kept[x] < start + |ts|
    ensures |r| == |kept| && forall x :: 0 <= x < |kept| ==> r[x] == ts[kept[x] - start]
  {
    seq(|kept|, x requires 0 <= x < |kept| => ts[kept[x] - start])
  }

  lemma PickedMore(ts: seq<Type>, start: nat, kept: seq<nat>, id: nat)
    requires (forall x :: 0 <= x < |kept| ==> start <= kept[x] < start + |ts|) && start <= id < start + |ts|
    ensures Picked(ts, start, kept + [id]) == Picked(ts, start, kept) + [ts[id - start]]
  {
  }

  lemma NothingListed(ts: seq<Type>, start: nat)
    ensures AllInBounds([], []) && Listing([], []) == [] == Picked(ts, start, [])
  {
  }

  /** Reading the packed bytes gives the types that were kept. */
  lemma {:induction false} PackedTypes(d: seq<Byte>, offs: seq<nat>, lay: Option<seq<Layout>>, start: nat,
                                       kept: seq<nat>)
    requires Starts(d, lay, 0, |d|, 0) == Some(offs) && Ordered(d, offs) && AllInBounds(d, offs)
    requires forall x :: 0 <= x < |kept| ==> start <= kept[x] < start + |offs|
    ensures var now := Packed(d, offs, start, kept); var r := Starts(now, lay, 0, |now|, 0);
      r.Some? && AllInBounds(now, r.value) && Listing(now, r.value) == Picked(Listing(d, offs), start, kept)
    decreases |kept|
  {
    hide Load, SizeOf, Starts, Packed, Record, AllInBounds, Listing, Ordered, Picked;
    if kept == [] {
      NothingPacked(d, offs, start);
      NothingStarts(lay);
      NothingListed(Listing(d, offs), start);
    } else {
      var front, id := kept[..|kept| - 1], kept[|kept| - 1];
      assert front + [id] == kept;
      PackedTypes(d, offs, lay, start, front);
      PackedMore(d, offs, start, front, id);
      var was := Packed(d, offs, start, front);
      RecordListed(d, offs, lay, id - start, was, Starts(was, lay, 0, |was|, 0).value);
      PickedMore(Listing(d, offs), start, front, id);
    }
  }

  /** A descriptor that is moved behind others is the same there. */
  lemma RecordListed(d: seq<Byte>, offs: seq<nat>, lay: Option<seq<Layout>>, i: nat, was: seq<Byte>, s: seq<nat>)
    requires Starts(d, lay, 0, |d|, 0) == Some(offs) && Ordered(d, offs) && AllInBounds(d, offs) && i < |offs|
    requires Starts(was, lay, 0, |was|, 0) == Some(s) && AllInBounds(was, s)
    ensures var now, s' := was + Record(d, offs, i), s + [|was|];
      Starts(now, lay, 0, |now|, 0) == Some(s') && AllInBounds(now, s') &&
        Listing(now, s') == Listing(was, s) + [Listing(d, offs)[i]]
  {
    hide Load, SizeOf, Starts, Described, InBounds, RestWords, Known;
    var rec := Record(d, offs, i);
    RecordSize(d, offs, lay, i);
    StartsAppended(was, rec, lay, 0, s);
    ListingKept(was, s, rec);
    StartsFollow(d, lay, offs, i);
    KnownSize(Load(d, offs[i] + INFO_OFF), lay);
    assert (was + rec)[|was|..|was| + |rec|] == rec;
    DescribedElsewhere(d, offs[i], |rec|, was + rec, |was|);
  }

  /** Packing the bytes and reading them is compacting the list of types. */
  lemma PackingCompacts(g: seq<Type>, d: seq<Byte>, offs: seq<nat>, lay: Option<seq<Layout>>, canon: seq<nat>,
                        start: nat)
    requires Starts(d, lay, 0, |d|, 0) == Some(offs) && Ordered(d, offs) && AllInBounds(d, offs)
    requires start <= |g| == |canon| && g[start..] == Listing(d, offs)
    ensures |offs| == |g| - start
    ensures var now := Packed(d, offs, start, Survivors(canon, start, |canon|)); var r := Starts(now, lay, 0, |now|, 0);
      r.Some? && AllInBounds(now, r.value) && g[..start] + Listing(now, r.value) == Compacted(g, canon, start)
  {
    hide Starts, Packed, AllInBounds, Listing, Ordered;
    assert |g[start..]| == |offs|;
    PackedTypes(d, offs, lay, start, Survivors(canon, start, |canon|));
  }

  lemma NothingPacked(d: seq<Byte>, offs: seq<nat>, start: nat)
    requires Ordered(d, offs)
    ensures Packed(d, offs, start, []) == []
  {
  }

  lemma RecordSize(d: seq<Byte>, offs: seq<nat>, lay: Option<seq<Layout>>, i: nat)
    requires Starts(d, lay, 0, |d|, 0) == Some(offs) && Ordered(d, offs) && i < |offs|
    ensures var rec := Record(d, offs, i); |rec| >= HEADER_SIZE && SizeOf(Load(rec, INFO_OFF), lay) == Some(|rec|)
  {
    hide Load, SizeOf, Starts;
    StartsFollow(d, lay, offs, i);
    LoadWithin(d, offs[i], NextStart(offs, i + 1, |d|), offs[i] + INFO_OFF);
  }

  lemma NothingStarts(lay: Option<seq<Layout>>)
    ensures Starts([], lay, 0, 0, 0) == Some([])
  {
  }
}
