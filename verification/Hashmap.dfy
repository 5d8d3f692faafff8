/** A chained hash map over caller-supplied hash and equality functions, that can also
    hold several values per key. */
module Hashmap {
  import opened Options
  import opened Memory

  datatype Entry = Entry(key: int, value: int)

  datatype Strategy = Add | Set | Update | Append

  datatype Outcome = Done | Exists | NotFound | NoMemory

  /** Smallest number of bucket bits, and the first one whose bucket array no allocator can hold. */
  const MIN_CAP_BITS := 2
  const MAX_CAP_BITS := 61
  const MANY: nat := 0x400_0000_0000_0000

  function Pow2(n: nat): (p: nat)
    ensures p >= 1
  {
    if n == 0 then 1 else 2 * Pow2(n - 1)
  }

  lemma {:induction false} Pow2Split(a: nat, b: nat)
    ensures Pow2(a + b) == Pow2(a) * Pow2(b)
  {
    if a > 0 {
      Pow2Split(a - 1, b);
      assert a + b - 1 == a - 1 + b;
      assert Pow2(a + b) == 2 * (Pow2(a - 1) * Pow2(b)) == (2 * Pow2(a - 1)) * Pow2(b);
    }
  }

  lemma DivLess(x: nat, a: nat, b: nat)
    requires x < a * b && b > 0
    ensures x / b < a
  {
    var q := x / b;
    assert x == q * b + x % b;
    assert q * b < a * b;
  }

  /** The upper `bits` bits of the 64-bit product of the hash and the golden-ratio constant. */
  function HashBits(h: nat, bits: nat): (r: nat)
    requires bits <= 64
    ensures r < Pow2(bits)
  {
    if bits == 0 then 0
    else
      Pow2Split(bits, 64 - bits);
      var product := (h * 11400714819323198485) % Pow2(64);
      DivLess(product, Pow2(bits), Pow2(64 - bits));
      product / Pow2(64 - bits)
  }

  // ----- chains and tables -----

  /** All the entries of a table. */
  ghost function All(bs: seq<seq<Entry>>): multiset<Entry> {
    if bs == [] then multiset{} else multiset(bs[0]) + All(bs[1..])
  }

  lemma {:induction false} AllUpdate(bs: seq<seq<Entry>>, i: nat, c: seq<Entry>)
    requires i < |bs|
    ensures multiset(bs[i]) <= All(bs)
    ensures All(bs[i := c]) == All(bs) - multiset(bs[i]) + multiset(c)
  {
    if i == 0 {
      assert bs[0 := c][1..] == bs[1..];
    } else {
      assert bs[i := c][1..] == bs[1..][i - 1 := c];
      AllUpdate(bs[1..], i - 1, c);
    }
  }

  lemma {:induction false} AllEmpty(bs: seq<seq<Entry>>)
    requires forall b :: 0 <= b < |bs| ==> bs[b] == []
    ensures All(bs) == multiset{}
  {
    if bs != [] {
      AllEmpty(bs[1..]);
    }
  }

  lemma {:induction false} AllSnoc(bs: seq<seq<Entry>>, i: nat)
    requires i < |bs|
    ensures All(bs[..i + 1]) == All(bs[..i]) + multiset(bs[i])
  {
    if i == 0 {
      assert bs[..1] == [bs[0]];
      assert All(bs[..1]) == multiset(bs[0]) + All([]);
    } else {
      AllSnoc(bs[1..], i - 1);
      assert bs[..i + 1][1..] == bs[1..][..i] && bs[..i][1..] == bs[1..][..i - 1];
    }
  }

  ghost predicate Equivalence(eq: (int, int) -> bool) {
    && (forall a :: eq(a, a))
    && (forall a, b :: eq(a, b) ==> eq(b, a))
    && (forall a, b, c :: eq(a, b) && eq(b, c) ==> eq(a, c))
  }

  ghost predicate Respects(hash: int -> nat, eq: (int, int) -> bool) {
    forall a, b :: eq(a, b) ==> hash(a) == hash(b)
  }

  /** Index of the first entry of a chain with the given key, or the length of the chain. */
  function FirstMatch(eq: (int, int) -> bool, c: seq<Entry>, key: int): (i: nat)
    ensures i <= |c|
    ensures forall j :: 0 <= j < i ==> !eq(c[j].key, key)
    ensures i < |c| ==> eq(c[i].key, key)
  {
    if c == [] || eq(c[0].key, key) then 0 else 1 + FirstMatch(eq, c[1..], key)
  }

  /** The entries of a chain with the given key, in chain order. */
  function Matching(eq: (int, int) -> bool, c: seq<Entry>, key: int): seq<Entry> {
    if c == [] then []
    else (if eq(c[0].key, key) then [c[0]] else []) + Matching(eq, c[1..], key)
  }

  lemma {:induction false} MatchingCount(eq: (int, int) -> bool, c: seq<Entry>, key: int, e: Entry)
    ensures multiset(Matching(eq, c, key))[e] == if eq(e.key, key) then multiset(c)[e] else 0
  {
    if c != [] {
      MatchingCount(eq, c[1..], key, e);
      assert c == [c[0]] + c[1..];
    }
  }

  lemma MultisetSplice(c: seq<Entry>, i: nat, mid: seq<Entry>)
    requires i < |c|
    ensures c[i] in multiset(c)
    ensures multiset(c[..i] + mid + c[i + 1..]) == multiset(c) - multiset{c[i]} + multiset(mid)
  {
    assert c == c[..i] + [c[i]] + c[i + 1..];
  }

  /** At most one entry per key. */
  ghost predicate UniqueKeys(eq: (int, int) -> bool, m: multiset<Entry>) {
    forall e1, e2 :: e1 in m && e2 in m && eq(e1.key, e2.key) ==> e1 == e2 && m[e1] == 1
  }

  /** No entry has the given key. */
  ghost predicate Absent(eq: (int, int) -> bool, m: multiset<Entry>, key: int) {
    forall e :: e in m ==> !eq(e.key, key)
  }

  lemma UniqueAfterAdd(eq: (int, int) -> bool, m: multiset<Entry>, e: Entry)
    requires Equivalence(eq) && UniqueKeys(eq, m) && Absent(eq, m, e.key)
    ensures UniqueKeys(eq, m + multiset{e})
  {
  }

  lemma UniqueAfterRemove(eq: (int, int) -> bool, m: multiset<Entry>, e: Entry)
    requires Equivalence(eq) && UniqueKeys(eq, m) && e in m
    ensures UniqueKeys(eq, m - multiset{e}) && Absent(eq, m - multiset{e}, e.key)
  {
    assert eq(e.key, e.key);
  }

  lemma AbsentOf(eq: (int, int) -> bool, m: multiset<Entry>, k1: int, k2: int)
    requires Equivalence(eq) && eq(k1, k2) && Absent(eq, m, k1)
    ensures Absent(eq, m, k2)
  {
    assert eq(k2, k1);
  }

  class Table {
    const hashFn: int -> nat
    const equalFn: (int, int) -> bool
    var buckets: seq<seq<Entry>>
    var cap: nat
    var capBits: nat
    var sz: nat

    ghost predicate Valid()
      reads this
    {
      && Equivalence(equalFn) && Respects(hashFn, equalFn)
      && capBits < MAX_CAP_BITS
      && cap == |buckets|
      && (cap == 0 ==> capBits == 0)
      && (cap != 0 ==> cap == Pow2(capBits) && capBits >= MIN_CAP_BITS)
      && Placed(buckets, capBits)
      && sz == |All(buckets)|
      && sz * 4 / 3 <= cap
    }

    /** Every entry is in the bucket that its key hashes to. */
    ghost predicate Placed(bs: seq<seq<Entry>>, bits: nat)
    {
      bits <= 64 &&
      forall b, i :: 0 <= b < |bs| && 0 <= i < |bs[b]| ==> b == HashBits(hashFn(bs[b][i].key), bits)
    }

    lemma PlacedUpdate(bs: seq<seq<Entry>>, bits: nat, h: nat, c: seq<Entry>)
      requires Placed(bs, bits) && h < |bs|
      requires forall i :: 0 <= i < |c| ==> h == HashBits(hashFn(c[i].key), bits)
      ensures Placed(bs[h := c], bits)
    {
      hide HashBits;
    }

    lemma SameHash(k1: int, k2: int)
      requires Respects(hashFn, equalFn) && equalFn(k1, k2)
      ensures hashFn(k1) == hashFn(k2)
    {
    }

    /** The multiset that the table stands for. */
    ghost function Contents(): multiset<Entry>
      reads this
    {
      All(buckets)
    }

    function Chain(key: int): (c: seq<Entry>)
      requires Valid()
      reads this
    {
      if cap == 0 then [] else buckets[HashBits(hashFn(key), capBits)]
    }

    /** The entries that iteration over one key visits, in order. */
    function EntriesOf(key: int): (es: seq<Entry>)
      requires Valid()
      reads this
    {
      Matching(equalFn, Chain(key), key)
    }

    function Lookup(key: int): (v: Option<int>)
      requires Valid()
      reads this
    {
      var c := Chain(key);
      var i := FirstMatch(equalFn, c, key);
      if i < |c| then Some(c[i].value) else None
    }

    /** At most one entry per key, as long as nothing is appended. */
    ghost predicate Unique()
      reads this
    {
      UniqueKeys(equalFn, Contents())
    }

    constructor (hash: int -> nat, eq: (int, int) -> bool)
      requires Equivalence(eq) && Respects(hash, eq)
      ensures Valid() && Contents() == multiset{} && Unique() && sz == 0
      ensures hashFn == hash && equalFn == eq
    {
      hashFn, equalFn := hash, eq;
      buckets, cap, capBits, sz := [], 0, 0, 0;
    }

    lemma InChain(key: int, e: Entry)
      requires Valid() && equalFn(e.key, key)
      ensures multiset(Chain(key))[e] == Contents()[e]
    {
      if cap == 0 {
      } else {
        OnlyBucket(buckets, HashBits(hashFn(key), capBits), e);
      }
    }

    lemma {:induction false} OnlyBucket(bs: seq<seq<Entry>>, b: nat, e: Entry)
      requires b < |bs|
      requires forall b' :: 0 <= b' < |bs| && b' != b ==> e !in bs[b']
      ensures All(bs)[e] == multiset(bs[b])[e]
    {
      if b == 0 {
        assert forall b' :: 0 <= b' < |bs[1..]| ==> e !in bs[1..][b'];
        NoBucket(bs[1..], e);
      } else {
        assert forall b' :: 0 <= b' < |bs[1..]| && b' != b - 1 ==> e !in bs[1..][b'];
        OnlyBucket(bs[1..], b - 1, e);
        assert e !in bs[0];
      }
    }

    lemma {:induction false} NoBucket(bs: seq<seq<Entry>>, e: Entry)
      requires forall b :: 0 <= b < |bs| ==> e !in bs[b]
      ensures All(bs)[e] == 0
    {
      if bs != [] {
        NoBucket(bs[1..], e);
        assert e !in bs[0];
      }
    }

    /** Iterating over a key visits exactly the entries stored under it. */
    lemma EntriesOfExact(key: int, e: Entry)
      requires Valid()
      ensures multiset(EntriesOf(key))[e] == if equalFn(e.key, key) then Contents()[e] else 0
    {
      MatchingCount(equalFn, Chain(key), key, e);
      if equalFn(e.key, key) {
        InChain(key, e);
      }
    }

    /** Put every entry of a chain at the head of its new bucket. */
    method Rehash(into: seq<seq<Entry>>, bits: nat, chain: seq<Entry>) returns (bs: seq<seq<Entry>>)
      requires bits <= 64 && |into| == Pow2(bits) && Placed(into, bits)
      ensures |bs| == |into| && Placed(bs, bits) && All(bs) == All(into) + multiset(chain)
    {
      hide HashBits, All, Pow2;
      bs := into;
      var i := 0;
      while i < |chain|
        invariant 0 <= i <= |chain| && |bs| == |into| && Placed(bs, bits)
        invariant All(bs) == All(into) + multiset(chain[..i])
      {
        var cur := chain[i];
        var h := HashBits(hashFn(cur.key), bits);
        AllUpdate(bs, h, [cur] + bs[h]);
        PlacedUpdate(bs, bits, h, [cur] + bs[h]);
        bs := bs[h := [cur] + bs[h]];
        assert chain[..i + 1] == chain[..i] + [cur];
        i := i + 1;
      }
      assert chain[..i] == chain;
    }

    /** Double the buckets and move every entry; chains come out in another order. */
    method Grow(plenty: bool) returns (ok: bool)
      requires Valid()
      modifies this
      ensures !ok ==> capBits == old(capBits) && buckets == old(buckets) && cap == old(cap) && sz == old(sz)
      ensures old(capBits) + 1 >= MAX_CAP_BITS ==> !ok
      ensures !ok ==> !plenty || old(capBits) + 1 >= MAX_CAP_BITS
      ensures Valid() && Contents() == old(Contents()) && sz == old(sz)
      ensures ok ==> cap > 0 && (sz + 1) * 4 / 3 <= cap
    {
      hide HashBits, All, UniqueKeys, Equivalence, Respects, Pow2;
      var newBits := capBits + 1;
      if newBits < MIN_CAP_BITS {
        newBits := MIN_CAP_BITS;
      }
      if newBits >= MAX_CAP_BITS {
        return false;
      }
      var got := Ask(plenty);
      if !got {
        return false;
      }
      var newBuckets: seq<seq<Entry>> := seq(Pow2(newBits), _ => []);
      AllEmpty(newBuckets);
      AllEmpty(buckets[..0]);
      var bkt := 0;
      while bkt < cap
        invariant unchanged(this) && bkt <= cap
        invariant |newBuckets| == Pow2(newBits)
        invariant Placed(newBuckets, newBits)
        invariant All(newBuckets) == All(buckets[..bkt])
      {
        newBuckets := Rehash(newBuckets, newBits, buckets[bkt]);
        AllSnoc(buckets, bkt);
        bkt := bkt + 1;
      }
      assert buckets[..bkt] == buckets;
      GrowthRoom(sz, cap, capBits, newBits);
      cap := Pow2(newBits);
      capBits := newBits;
      buckets := newBuckets;
      return true;
    }

    static lemma GrowthRoom(n: nat, cap: nat, bits: nat, newBits: nat)
      requires n * 4 / 3 <= cap
      requires cap == 0 ==> bits == 0
      requires cap != 0 ==> cap == Pow2(bits) && bits >= MIN_CAP_BITS
      requires newBits == if bits + 1 < MIN_CAP_BITS then MIN_CAP_BITS else bits + 1
      ensures (n + 1) * 4 / 3 <= Pow2(newBits)
    {
      if cap == 0 {
        assert Pow2(2) == 4;
      } else {
        Pow2Split(2, bits - 2);
        assert Pow2(2) == 4;
        assert cap >= 4;
      }
    }

    /** A table that cannot grow any more, and has to, has that many entries. */
    static lemma FullIsMany(n: nat, cap: nat, bits: nat)
      requires bits + 1 == MAX_CAP_BITS && cap == Pow2(bits) && (n + 1) * 4 / 3 > cap
      ensures n >= MANY
    {
      hide Pow2;
      Pow2Sixty();
    }

    static lemma Pow2Sixty()
      ensures Pow2(60) == 4 * MANY
    {
      hide Pow2;
      Pow2Twelve();
      Pow2Split(12, 12);
      Pow2Split(24, 12);
      Pow2Split(36, 12);
      Pow2Split(48, 12);
    }

    static lemma Pow2Twelve()
      ensures Pow2(12) == 0x1000
    {
      assert Pow2(4) == 16;
      assert Pow2(8) == 256;
    }

    predicate NeedsToGrow()
      reads this
    {
      cap == 0 || (sz + 1) * 4 / 3 > cap
    }

    /** The chain and the position of the first entry with the given key. */
    method FindEntry(key: int) returns (found: bool, h: nat, i: nat)
      requires Valid()
      ensures found ==> h < |buckets| && i < |buckets[h]| && equalFn(buckets[h][i].key, key)
      ensures found ==> buckets[h][i] in Contents() && Lookup(key) == Some(buckets[h][i].value)
      ensures !found ==> Absent(equalFn, Contents(), key) && Lookup(key) == None
    {
      hide HashBits, All, UniqueKeys, Equivalence, Respects, Pow2;
      h, i := 0, 0;
      if cap == 0 {
        return false, h, i;
      }
      h := HashBits(hashFn(key), capBits);
      var chain := buckets[h];
      while i < |chain|
        invariant i <= |chain|
        invariant forall j :: 0 <= j < i ==> !equalFn(chain[j].key, key)
      {
        if equalFn(chain[i].key, key) {
          AllUpdate(buckets, h, chain);
          assert chain[i] in multiset(chain);
          return true, h, i;
        }
        i := i + 1;
      }
      forall e | e in Contents()
        ensures !equalFn(e.key, key)
      {
        if equalFn(e.key, key) {
          InChain(key, e);
        }
      }
      found := false;
    }

    method Replace(h: nat, i: nat, e: Entry)
      requires Valid() && h < |buckets| && i < |buckets[h]| && equalFn(buckets[h][i].key, e.key)
      modifies `buckets
      ensures Valid()
      ensures old(buckets[h][i]) in old(Contents())
      ensures Contents() == old(Contents()) - multiset{old(buckets[h][i])} + multiset{e}
    {
      hide HashBits, All, UniqueKeys, Equivalence, Respects, Pow2;
      var c := buckets[h];
      var c' := c[i := e];
      assert c' == c[..i] + [e] + c[i + 1..];
      MultisetSplice(c, i, [e]);
      AllUpdate(buckets, h, c');
      SameHash(c[i].key, e.key);
      PlacedUpdate(buckets, capBits, h, c');
      buckets := buckets[h := c'];
    }

    method Prepend(e: Entry)
      requires Valid() && cap > 0 && (sz + 1) * 4 / 3 <= cap
      modifies this
      ensures Valid() && capBits == old(capBits)
      ensures Contents() == old(Contents()) + multiset{e}
    {
      hide HashBits, All, UniqueKeys, Equivalence, Respects, Pow2;
      var h := HashBits(hashFn(e.key), capBits);
      AllUpdate(buckets, h, [e] + buckets[h]);
      buckets := buckets[h := [e] + buckets[h]];
      sz := sz + 1;
    }

    /** Insert under one of the four strategies; a failed insertion changes no entry. */
    method Insert(key: int, value: int, strategy: Strategy, plenty: bool) returns (r: Outcome, was: Option<Entry>)
      requires Valid()
      modifies this
      ensures Valid()
      ensures was.Some? ==> was.value in old(Contents()) && equalFn(was.value.key, key) && !strategy.Append?
      ensures was.None? ==> strategy.Append? || Absent(equalFn, old(Contents()), key)
      ensures r == Exists <==> was.Some? && strategy.Add?
      ensures r == NotFound <==> was.None? && strategy.Update?
      ensures r == NoMemory ==> !plenty || old(sz) >= MANY
      ensures sz <= old(sz) + 1
      ensures r != Done ==> Contents() == old(Contents())
      ensures r == Done ==>
        Contents() == old(Contents()) - (if was.Some? then multiset{was.value} else multiset{})
                      + multiset{Entry(key, value)}
      ensures !strategy.Append? && old(Unique()) ==> Unique()
    {
      hide HashBits, All, UniqueKeys, Equivalence, Respects, Pow2;
      was := None;
      if !strategy.Append? {
        var found, h, i := FindEntry(key);
        if found {
          was := Some(buckets[h][i]);
          if strategy.Set? || strategy.Update? {
            if Unique() {
              UniqueAfterRemove(equalFn, Contents(), was.value);
              AbsentOf(equalFn, Contents() - multiset{was.value}, was.value.key, key);
              UniqueAfterAdd(equalFn, Contents() - multiset{was.value}, Entry(key, value));
            }
            Replace(h, i, Entry(key, value));
            return Done, was;
          } else {
            return Exists, was;
          }
        }
      }
      if strategy.Update? {
        return NotFound, was;
      }
      if NeedsToGrow() {
        if capBits + 1 >= MAX_CAP_BITS {
          FullIsMany(sz, cap, capBits);
        }
        var ok := Grow(plenty);
        if !ok {
          return NoMemory, was;
        }
      }
      var got := Ask(plenty);
      if !got {
        return NoMemory, was;
      }
      if !strategy.Append? && Unique() {
        UniqueAfterAdd(equalFn, Contents(), Entry(key, value));
      }
      Prepend(Entry(key, value));
      r := Done;
    }

    method Find(key: int) returns (v: Option<int>)
      requires Valid()
      ensures v == Lookup(key)
      ensures v.None? <==> Absent(equalFn, Contents(), key)
      ensures v.Some? ==> exists e :: e in Contents() && equalFn(e.key, key) && e.value == v.value
    {
      hide HashBits, All, UniqueKeys, Equivalence, Respects, Pow2;
      var found, h, i := FindEntry(key);
      if found {
        var e := buckets[h][i];
        assert e in Contents() && equalFn(e.key, key);
        v := Some(e.value);
      } else {
        v := None;
      }
    }

    method Unlink(h: nat, i: nat)
      requires Valid() && h < |buckets| && i < |buckets[h]|
      modifies this
      ensures Valid()
      ensures old(buckets[h][i]) in old(Contents())
      ensures Contents() == old(Contents()) - multiset{old(buckets[h][i])}
    {
      hide HashBits, All, UniqueKeys, Equivalence, Respects, Pow2;
      var c := buckets[h];
      var c' := c[..i] + c[i + 1..];
      assert c' == c[..i] + [] + c[i + 1..];
      MultisetSplice(c, i, []);
      AllUpdate(buckets, h, c');
      PlacedUpdate(buckets, capBits, h, c');
      buckets := buckets[h := c'];
      sz := sz - 1;
    }

    /** Remove the first entry with the key, if there is one. */
    method Delete(key: int) returns (was: Option<Entry>)
      requires Valid()
      modifies this
      ensures Valid()
      ensures was.None? <==> Absent(equalFn, old(Contents()), key)
      ensures was.Some? ==> was.value in old(Contents()) && equalFn(was.value.key, key)
      ensures Contents() == old(Contents()) - (if was.Some? then multiset{was.value} else multiset{})
      ensures old(Unique()) ==> Unique() && Absent(equalFn, Contents(), key)
    {
      hide HashBits, All, UniqueKeys, Equivalence, Respects, Pow2;
      var found, h, i := FindEntry(key);
      if !found {
        return None;
      }
      var e := buckets[h][i];
      if Unique() {
        UniqueAfterRemove(equalFn, Contents(), e);
        AbsentOf(equalFn, Contents() - multiset{e}, e.key, key);
      }
      Unlink(h, i);
      was := Some(e);
    }
  }
}
