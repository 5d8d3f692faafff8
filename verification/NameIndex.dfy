/** A sorted index of types by name and size, and the search for the leftmost match. */
module NameIndex {
  import opened Options
  import opened StrOrder

  datatype NameInfo = NameInfo(name: string, needsSize: bool, size: nat, id: nat)

  /** By name, and by falling size where both sides need one. */
  function Cmp(a: NameInfo, b: NameInfo): int {
    var d := StrCmp(a.name, b.name);
    if d == 0 && a.needsSize && b.needsSize then b.size - a.size else d
  }

  /** What it means to compare equal. */
  predicate Alike(a: NameInfo, b: NameInfo) {
    a.name == b.name && (a.needsSize && b.needsSize ==> a.size == b.size)
  }

  lemma CmpAlike(a: NameInfo, b: NameInfo)
    ensures Cmp(a, b) == 0 <==> Alike(a, b)
  {
    StrCmpEqual(a.name, b.name);
  }

  predicate Sized(info: seq<NameInfo>) {
    forall i :: 0 <= i < |info| ==> info[i].needsSize
  }

  predicate Sorted(info: seq<NameInfo>) {
    forall i, j :: 0 <= i < j < |info| ==> Cmp(info[i], info[j]) <= 0
  }

  /** A key, with or without a size, splits a sorted index: smaller entries first, then equal ones. */
  lemma CmpMonotone(key: NameInfo, a: NameInfo, b: NameInfo)
    requires a.needsSize && b.needsSize && Cmp(a, b) <= 0
    ensures Cmp(key, a) < 0 ==> Cmp(key, b) < 0
    ensures Cmp(key, b) > 0 ==> Cmp(key, a) > 0
  {
    StrCmpEqual(key.name, a.name);
    StrCmpEqual(a.name, b.name);
    StrCmpEqual(key.name, b.name);
    StrCmpFlip(key.name, a.name);
    StrCmpFlip(key.name, b.name);
    StrCmpFlip(a.name, b.name);
    if StrCmp(key.name, a.name) <= 0 {
      StrCmpTrans(key.name, a.name, b.name);
    }
    if StrCmp(b.name, key.name) <= 0 {
      StrCmpTrans(a.name, b.name, key.name);
    }
  }

  lemma CmpTrans(a: NameInfo, b: NameInfo, c: NameInfo)
    requires a.needsSize && b.needsSize && c.needsSize && Cmp(a, b) <= 0 && Cmp(b, c) <= 0
    ensures Cmp(a, c) <= 0
  {
    StrCmpEqual(a.name, b.name);
    StrCmpEqual(b.name, c.name);
    StrCmpTrans(a.name, b.name, c.name);
  }

  /** Find the leftmost entry that compares equal to the key. */
  method Search(key: NameInfo, vals: seq<NameInfo>) returns (ret: Option<nat>)
    requires Sized(vals) && Sorted(vals)
    ensures ret.Some? ==> ret.value < |vals| && Alike(key, vals[ret.value])
    ensures forall i :: 0 <= i < (if ret.Some? then ret.value else |vals|) ==> !Alike(key, vals[i])
  {
    hide Cmp;
    ret := None;
    var low, high := 0, |vals| - 1;
    while low <= high
      invariant 0 <= low <= high + 1 <= |vals|
      invariant forall i :: 0 <= i < low ==> Cmp(key, vals[i]) > 0
      invariant if ret.None? then forall i :: high < i < |vals| ==> Cmp(key, vals[i]) < 0
                else high + 1 <= ret.value < |vals| && Cmp(key, vals[ret.value]) == 0
                     && forall i :: high < i < ret.value ==> Cmp(key, vals[i]) < 0
    {
      var mid := (low + high) / 2;
      var diff := Cmp(key, vals[mid]);
      forall i | 0 <= i < |vals|
        ensures i > mid && diff < 0 ==> Cmp(key, vals[i]) < 0
        ensures i < mid && diff > 0 ==> Cmp(key, vals[i]) > 0
      {
        if i > mid {
          CmpMonotone(key, vals[mid], vals[i]);
        } else if i < mid {
          CmpMonotone(key, vals[i], vals[mid]);
        }
      }
      if diff == 0 {
        ret := Some(mid);
      }
      if diff <= 0 {
        high := mid - 1;
      } else {
        low := mid + 1;
      }
    }
    forall i | 0 <= i < |vals|
      ensures Alike(key, vals[i]) <==> Cmp(key, vals[i]) == 0
    {
      CmpAlike(key, vals[i]);
    }
  }

  /** Beyond the first entry after the matches there is no further match. */
  lemma NoLaterMatch(key: NameInfo, vals: seq<NameInfo>, lo: nat, hi: nat, i: nat)
    requires Sized(vals) && Sorted(vals) && lo <= hi <= i < |vals|
    requires lo < hi && Alike(key, vals[lo]) && !Alike(key, vals[hi])
    ensures !Alike(key, vals[i])
  {
    CmpAlike(key, vals[lo]);
    CmpAlike(key, vals[hi]);
    CmpAlike(key, vals[i]);
    CmpMonotone(key, vals[lo], vals[hi]);
    if hi < i {
      CmpMonotone(key, vals[hi], vals[i]);
    }
  }

  /** Sort an index. Only the comparison matters, not the method. */
  method Sort(info: seq<NameInfo>) returns (s: seq<NameInfo>)
    requires Sized(info)
    ensures Sized(s) && Sorted(s) && multiset(s) == multiset(info)
  {
    s := [];
    for n := 0 to |info|
      invariant Sized(s) && Sorted(s) && multiset(s) == multiset(info[..n])
    {
      s := Insert(s, info[n]);
      assert info[..n + 1] == info[..n] + [info[n]];
    }
    assert info[..|info|] == info;
  }

  method Insert(s: seq<NameInfo>, x: NameInfo) returns (r: seq<NameInfo>)
    requires Sized(s) && Sorted(s) && x.needsSize
    ensures Sized(r) && Sorted(r) && multiset(r) == multiset(s) + multiset{x}
  {
    hide Cmp, Sorted;
    var k := |s|;
    while k > 0 && Cmp(s[k - 1], x) > 0
      invariant 0 <= k <= |s|
      invariant forall i :: k <= i < |s| ==> Cmp(x, s[i]) <= 0
    {
      CmpFlip(s[k - 1], x);
      k := k - 1;
    }
    r := s[..k] + [x] + s[k..];
    InsertedAll(s, x, k);
    InsertedSorted(s, x, k);
  }

  lemma InsertedAll<T>(s: seq<T>, x: T, k: nat)
    requires k <= |s|
    ensures multiset(s[..k] + [x] + s[k..]) == multiset(s) + multiset{x}
  {
    assert s == s[..k] + s[k..];
  }

  lemma InsertedSorted(s: seq<NameInfo>, x: NameInfo, k: nat)
    requires Sized(s) && Sorted(s) && x.needsSize && k <= |s|
    requires k > 0 ==> Cmp(s[k - 1], x) <= 0
    requires forall i :: k <= i < |s| ==> Cmp(x, s[i]) <= 0
    ensures Sorted(s[..k] + [x] + s[k..])
  {
    hide Cmp;
    forall i | 0 <= i < k
      ensures Cmp(s[i], x) <= 0
    {
      if i < k - 1 {
        CmpTrans(s[i], s[k - 1], x);
      }
    }
    var r := s[..k] + [x] + s[k..];
    forall i, j | 0 <= i < j < |r|
      ensures Cmp(r[i], r[j]) <= 0
    {
      if i == k {
        assert r[j] == s[j - 1];
      } else if j == k {
        assert r[i] == s[i];
      } else {
        var i', j' := if i < k then i else i - 1, if j < k then j else j - 1;
        assert r[i] == s[i'] && r[j] == s[j'] && i' < j';
      }
    }
  }

  lemma CmpFlip(a: NameInfo, b: NameInfo)
    ensures Cmp(a, b) > 0 ==> Cmp(b, a) < 0
  {
    StrCmpFlip(a.name, b.name);
    StrCmpEqual(a.name, b.name);
  }
}
