/** The line-info index of a program: dividing the address records by function, and looking records up. */
module LineInfo {
  import opened Options

  const WRAP: nat := 0x1_0000_0000_0000_0000
  const OFFSET_OF_FILE_NAME: nat := 4
  const ADDRESS_SIZE: nat := 8

  // ----- dividing the records by function -----

  ghost predicate Increasing(a: seq<nat>, lo: nat, hi: nat) {
    hi <= |a| && forall j, k :: lo <= j < k < hi ==> a[j] < a[k]
  }

  /** The last record of a function lies within the function, in 64-bit arithmetic. */
  predicate Fits(last: nat, ksym: nat, len: nat) {
    (last - ksym + 1) % WRAP <= len
  }

  /** Function `f` ends at `end`, where the next function has its first matching record. */
  ghost predicate Closed(jited: seq<nat>, ksyms: seq<nat>, lens: seq<nat>, start: nat, end: nat, f: nat)
    requires |lens| == |ksyms| && f + 1 < |ksyms|
  {
    && start < end < |jited| && jited[end] == ksyms[f + 1] && Increasing(jited, start, end)
    && Fits(jited[end - 1], ksyms[f], lens[f])
    && (forall j :: start < j < end ==> jited[j] != ksyms[f + 1])
  }

  /** The places where the functions start. */
  ghost predicate Divides(jited: seq<nat>, ksyms: seq<nat>, lens: seq<nat>, idx: seq<nat>)
    requires 0 < |ksyms| == |lens| && 0 < |jited|
  {
    && |idx| == |ksyms| && idx[0] == 0 && jited[0] == ksyms[0]
    && (forall f :: 0 <= f < |ksyms| - 1 ==> Closed(jited, ksyms, lens, idx[f], idx[f + 1], f))
  }

  /** Records per function. */
  ghost predicate Counts(idx: seq<nat>, cnt: seq<nat>, n: nat) {
    && |cnt| == |idx| && (forall f :: 0 <= f < |idx| ==> idx[f] + cnt[f] == if f + 1 < |idx| then idx[f + 1] else n)
  }

  lemma CountsAt(idx: seq<nat>, cnt: seq<nat>, n: nat, f: nat)
    requires Counts(idx, cnt, n) && f < |idx|
    ensures idx[f] + cnt[f] == if f + 1 < |idx| then idx[f + 1] else n
  {
  }

  lemma {:induction false} StartsIncrease(jited: seq<nat>, ksyms: seq<nat>, lens: seq<nat>, idx: seq<nat>, f: nat,
                                          f': nat)
    requires 0 < |ksyms| == |lens| && 0 < |jited| && Divides(jited, ksyms, lens, idx) && f <= f' < |idx|
    ensures idx[f] + f' - f <= idx[f'] < |jited|
    decreases f'
  {
    if f < f' {
      StartsIncrease(jited, ksyms, lens, idx, f, f' - 1);
      assert Closed(jited, ksyms, lens, idx[f' - 1], idx[f' - 1 + 1], f' - 1);
    } else if f > 0 {
      assert Closed(jited, ksyms, lens, idx[f - 1], idx[f - 1 + 1], f - 1);
    }
  }

  /** Each record belongs to one function, and the functions stand in order. */
  lemma {:induction false} Partition(jited: seq<nat>, ksyms: seq<nat>, lens: seq<nat>, idx: seq<nat>, cnt: seq<nat>,
                                     i: nat)
    requires 0 < |ksyms| == |lens| && i < |jited| && Divides(jited, ksyms, lens, idx) && Counts(idx, cnt, |jited|)
    ensures exists f :: 0 <= f < |idx| && idx[f] <= i < idx[f] + cnt[f] && OnlyIn(idx, cnt, i, f)
  {
    var f := 0;
    while f + 1 < |idx| && idx[f + 1] <= i
      invariant f < |idx| && idx[f] <= i
    {
      f := f + 1;
    }
    forall f' | 0 <= f' < |idx| && idx[f'] <= i < idx[f'] + cnt[f']
      ensures f' == f
    {
      if f' < f {
        StartsIncrease(jited, ksyms, lens, idx, f' + 1, f);
      } else if f < f' {
        StartsIncrease(jited, ksyms, lens, idx, f + 1, f');
      }
    }
    assert OnlyIn(idx, cnt, i, f);
  }

  ghost predicate OnlyIn(idx: seq<nat>, cnt: seq<nat>, i: nat, f: nat)
    requires |cnt| == |idx|
  {
    forall f' :: 0 <= f' < |idx| && idx[f'] <= i < idx[f'] + cnt[f'] ==> f' == f
  }

  /** There is one way at most to close a function. */
  lemma ClosedOnce(jited: seq<nat>, ksyms: seq<nat>, lens: seq<nat>, start: nat, end: nat, end': nat, f: nat)
    requires |lens| == |ksyms| && f + 1 < |ksyms|
    requires Closed(jited, ksyms, lens, start, end, f) && Closed(jited, ksyms, lens, start, end', f)
    ensures end == end'
  {
  }

  /** There is one way at most to divide the records. */
  lemma {:induction false} DividesOnce(jited: seq<nat>, ksyms: seq<nat>, lens: seq<nat>, idx: seq<nat>, idx': seq<nat>,
                                       f: nat)
    requires 0 < |ksyms| == |lens| && 0 < |jited| && f < |ksyms|
    requires Divides(jited, ksyms, lens, idx) && Divides(jited, ksyms, lens, idx')
    ensures idx[f] == idx'[f]
  {
    hide Closed;
    if f > 0 {
      DividesOnce(jited, ksyms, lens, idx, idx', f - 1);
      assert Closed(jited, ksyms, lens, idx[f - 1], idx[f - 1 + 1], f - 1) &&
        Closed(jited, ksyms, lens, idx'[f - 1], idx'[f - 1 + 1], f - 1);
      ClosedOnce(jited, ksyms, lens, idx[f - 1], idx[f], idx'[f], f - 1);
    }
  }

  ghost predicate Dividable(jited: seq<nat>, ksyms: seq<nat>, lens: seq<nat>)
    requires 0 < |ksyms| == |lens| && 0 < |jited|
  {
    exists idx :: Divides(jited, ksyms, lens, idx)
  }

  /** Starts found so far: every way to divide the records begins with them. */
  ghost predicate Forced(jited: seq<nat>, ksyms: seq<nat>, lens: seq<nat>, found: seq<nat>)
    requires 0 < |ksyms| == |lens| && 0 < |jited|
  {
    forall idx :: Divides(jited, ksyms, lens, idx) ==> found <= idx
  }

  /** The next function does not start before `i`. */
  ghost predicate Searched(jited: seq<nat>, prev: nat, i: nat, ksym: nat) {
    && prev < i <= |jited| && Increasing(jited, prev, i) && (forall j :: prev < j < i ==> jited[j] != ksym)
  }

  lemma NextForced(jited: seq<nat>, ksyms: seq<nat>, lens: seq<nat>, found: seq<nat>, i: nat)
    requires 0 < |found| < |ksyms| == |lens| && 0 < |jited| && Forced(jited, ksyms, lens, found)
    requires Searched(jited, found[|found| - 1], i, ksyms[|found|]) && i < |jited| && jited[i] == ksyms[|found|]
    ensures Forced(jited, ksyms, lens, found + [i])
    ensures Dividable(jited, ksyms, lens) ==> Fits(jited[i - 1], ksyms[|found| - 1], lens[|found| - 1])
  {
    hide Increasing, Fits;
    var f := |found| - 1;
    forall idx | Divides(jited, ksyms, lens, idx)
      ensures found + [i] <= idx && Fits(jited[i - 1], ksyms[f], lens[f])
    {
      assert found <= idx;
      assert Closed(jited, ksyms, lens, idx[f], idx[f + 1], f);
      assert idx[f] == found[f] && idx[f + 1] == i;
    }
  }

  /** A record that neither starts the next function nor goes up, or no record at all. */
  lemma NeverClosed(jited: seq<nat>, ksyms: seq<nat>, lens: seq<nat>, start: nat, i: nat, f: nat)
    requires |lens| == |ksyms| && f + 1 < |ksyms| && Searched(jited, start, i, ksyms[f + 1])
    requires i < |jited| ==> jited[i] != ksyms[f + 1] && jited[i] <= jited[i - 1]
    ensures forall end :: !Closed(jited, ksyms, lens, start, end, f)
  {
    hide Fits;
  }

  lemma SomewhereClosed(jited: seq<nat>, ksyms: seq<nat>, lens: seq<nat>, found: seq<nat>, f: nat)
    requires f < |found| < |ksyms| == |lens| && 0 < |jited| && Forced(jited, ksyms, lens, found) &&
      Dividable(jited, ksyms, lens)
    ensures exists end :: Closed(jited, ksyms, lens, found[f], end, f)
  {
    hide Closed;
    var idx :| Divides(jited, ksyms, lens, idx);
    assert Closed(jited, ksyms, lens, idx[f], idx[f + 1], f);
  }

  lemma NotDividable(jited: seq<nat>, ksyms: seq<nat>, lens: seq<nat>, found: seq<nat>, i: nat)
    requires 0 < |found| < |ksyms| == |lens| && 0 < |jited| && Forced(jited, ksyms, lens, found)
    requires Searched(jited, found[|found| - 1], i, ksyms[|found|])
    requires i < |jited| ==> jited[i] != ksyms[|found|] && jited[i] <= jited[i - 1]
    ensures !Dividable(jited, ksyms, lens)
  {
    hide Closed, Increasing;
    if Dividable(jited, ksyms, lens) {
      var f := |found| - 1;
      SomewhereClosed(jited, ksyms, lens, found, f);
      NeverClosed(jited, ksyms, lens, found[f], i, f);
    }
  }

  /** Find where each function starts and how many records it has. It succeeds exactly if the records can be divided. */
  method Dissect(jited: seq<nat>, ksyms: seq<nat>, lens: seq<nat>, funcIdx: array<nat>, perFunc: array<nat>)
    returns (ok: bool)
    requires 0 < |ksyms| == |lens| == funcIdx.Length == perFunc.Length && 0 < |jited| && funcIdx != perFunc
    modifies funcIdx, perFunc
    ensures ok <==> Dividable(jited, ksyms, lens)
    ensures ok ==> Divides(jited, ksyms, lens, funcIdx[..]) && Counts(funcIdx[..], perFunc[..], |jited|)
  {
    hide Increasing, Fits, Closed;
    if ksyms[0] != jited[0] {
      return false;
    }
    funcIdx[0] := 0;
    var prev, i, f := 0, 1, 1;
    StartForced(jited, ksyms, lens);
    assert funcIdx[..1] == [0];
    while i < |jited| && f < |ksyms|
      invariant 1 <= i <= |jited| && 1 <= f <= |ksyms| && prev == funcIdx[f - 1] && funcIdx[0] == 0
      invariant f < |ksyms| ==> Searched(jited, prev, i, ksyms[f])
      invariant prev < |jited|
      invariant Forced(jited, ksyms, lens, funcIdx[..f])
      invariant forall g :: 0 <= g < f - 1 ==>
        Closed(jited, ksyms, lens, funcIdx[g], funcIdx[g + 1], g) && funcIdx[g] + perFunc[g] == funcIdx[g + 1]
    {
      if ksyms[f] == jited[i] {
        NextForced(jited, ksyms, lens, funcIdx[..f], i);
        ghost var found := funcIdx[..f];
        funcIdx[f] := i;
        assert funcIdx[..f + 1] == found + [i];
        if (jited[i - 1] - ksyms[f - 1] + 1) % WRAP > lens[f - 1] {
          FitsOrNot(jited[i - 1], ksyms[f - 1], lens[f - 1]);
          return false;
        }
        CloseNow(jited, ksyms, lens, prev, i, f - 1);
        perFunc[f - 1] := i - prev;
        prev := i;
        f := f + 1;
      } else if jited[i] <= jited[i - 1] {
        NotDividable(jited, ksyms, lens, funcIdx[..f], i);
        return false;
      } else {
        Further(jited, prev, i, ksyms[f]);
      }
      i := i + 1;
      OneRecord(jited, i - 1);
    }
    if f != |ksyms| {
      NotDividable(jited, ksyms, lens, funcIdx[..f], i);
      return false;
    }
    perFunc[|ksyms| - 1] := |jited| - prev;
    ok := true;
    assert Divides(jited, ksyms, lens, funcIdx[..]);
  }

  lemma FitsOrNot(last: nat, ksym: nat, len: nat)
    ensures Fits(last, ksym, len) <==> (last - ksym + 1) % WRAP <= len
  {
  }

  lemma OneRecord(jited: seq<nat>, i: nat)
    requires i < |jited|
    ensures Increasing(jited, i, i + 1)
  {
  }

  lemma StartForced(jited: seq<nat>, ksyms: seq<nat>, lens: seq<nat>)
    requires 0 < |ksyms| == |lens| && 0 < |jited|
    ensures Forced(jited, ksyms, lens, [0]) && Increasing(jited, 0, 1)
  {
    hide Closed;
  }

  lemma Further(jited: seq<nat>, prev: nat, i: nat, ksym: nat)
    requires Searched(jited, prev, i, ksym) && i < |jited| && jited[i] != ksym && jited[i] > jited[i - 1]
    ensures Searched(jited, prev, i + 1, ksym)
  {
    assert forall j :: prev <= j < i - 1 ==> jited[j] < jited[i - 1];
  }

  lemma CloseNow(jited: seq<nat>, ksyms: seq<nat>, lens: seq<nat>, prev: nat, i: nat, f: nat)
    requires |ksyms| == |lens| && f + 1 < |ksyms|
    requires Searched(jited, prev, i, ksyms[f + 1]) && i < |jited| && jited[i] == ksyms[f + 1]
    requires (jited[i - 1] - ksyms[f] + 1) % WRAP <= lens[f]
    ensures Closed(jited, ksyms, lens, prev, i, f)
  {
  }

  // ----- looking records up -----

  /** The last of the records `lo..hi` before the first one above `q`. */
  ghost predicate Found(a: seq<nat>, lo: nat, hi: nat, q: nat, r: Option<nat>) {
    && hi <= |a|
    && (r.None? <==> lo >= hi || q < a[lo])
    && (r.Some? ==>
      lo <= r.value < hi && (forall j :: lo <= j <= r.value ==> a[j] <= q) && (r.value + 1 < hi ==> q < a[r.value + 1]))
  }

  /** The records not above `q` are those up to the answer. */
  ghost predicate Splits(a: seq<nat>, lo: nat, hi: nat, q: nat, r: Option<nat>) {
    hi <= |a| && forall j :: lo <= j < hi ==> (a[j] <= q <==> r.Some? && j <= r.value)
  }

  ghost predicate Ascending(a: seq<nat>, lo: nat, hi: nat) {
    hi <= |a| && forall j, k :: lo <= j <= k < hi ==> a[j] <= a[k]
  }

  ghost predicate AlwaysSplits(a: seq<nat>, lo: nat, hi: nat) {
    forall q: nat, r :: Found(a, lo, hi, q, r) ==> Splits(a, lo, hi, q, r)
  }

  /** Every answer splits the records exactly if they go up. */
  lemma {:induction false} SplitsExactly(a: seq<nat>, lo: nat, hi: nat)
    requires hi <= |a|
    ensures AlwaysSplits(a, lo, hi) <==> Ascending(a, lo, hi)
  {
    if AlwaysSplits(a, lo, hi) {
      forall j, k | lo <= j <= k < hi
        ensures a[j] <= a[k]
      {
        var r := Answer(a, lo, hi, a[k]);
        assert Splits(a, lo, hi, a[k], r);
        assert a[k] <= a[k] ==> r.Some? && k <= r.value;
      }
    }
  }

  ghost function Answer(a: seq<nat>, lo: nat, hi: nat, q: nat): (r: Option<nat>)
    requires hi <= |a|
    ensures Found(a, lo, hi, q, r)
    decreases hi
  {
    if lo >= hi || q < a[lo] then None
    else
      var r := Answer(a, lo, hi - 1, q);
      if r.None? || (r.value + 2 == hi && a[hi - 1] <= q) then Some(hi - 1) else r
  }

  /** In all functions but the last, addresses go up, so an answer is the record that covers the address. */
  lemma FunctionAnswers(jited: seq<nat>, ksyms: seq<nat>, lens: seq<nat>, idx: seq<nat>, cnt: seq<nat>, f: nat,
                        skip: nat, q: nat, r: Option<nat>)
    requires 0 < |ksyms| == |lens| && 0 < |jited| && Divides(jited, ksyms, lens, idx) && Counts(idx, cnt, |jited|) &&
      f + 1 < |idx|
    requires Found(jited, idx[f] + skip, idx[f] + cnt[f], q, r)
    ensures Splits(jited, idx[f] + skip, idx[f] + cnt[f], q, r)
    ensures Greatest(jited, idx[f] + skip, idx[f] + cnt[f], q, r)
  {
    assert Closed(jited, ksyms, lens, idx[f], idx[f + 1], f);
  }

  /** The answer is a record with the greatest address not above `q`. */
  ghost predicate Greatest(a: seq<nat>, lo: nat, hi: nat, q: nat, r: Option<nat>) {
    && hi <= |a| && (r.Some? ==> lo <= r.value < hi && a[r.value] <= q)
    && forall j :: lo <= j < hi && a[j] <= q ==> r.Some? && a[j] <= a[r.value]
  }

  ghost predicate AlwaysGreatest(a: seq<nat>, lo: nat, hi: nat) {
    forall q: nat, r :: Found(a, lo, hi, q, r) ==> Greatest(a, lo, hi, q, r)
  }

  /** A record above all that come before it. */
  ghost predicate IsNewHigh(a: seq<nat>, lo: nat, i: nat)
    requires i < |a|
  {
    lo < i && forall j :: lo <= j < i ==> a[j] < a[i]
  }

  /** The first record is least and the last one greatest, and before a record that is above all earlier ones comes
      the greatest of those below it. */
  ghost predicate Climbs(a: seq<nat>, lo: nat, hi: nat) {
    && hi <= |a| && (forall j :: lo <= j < hi ==> a[lo] <= a[j] <= a[hi - 1])
    && (forall i :: lo < i < hi && IsNewHigh(a, lo, i) ==> GreatestBelow(a, lo, hi, i))
  }

  ghost predicate GreatestBelow(a: seq<nat>, lo: nat, hi: nat, i: nat)
    requires lo < i < hi <= |a|
  {
    forall j :: lo <= j < hi && a[j] < a[i] ==> a[j] <= a[i - 1]
  }

  /** Every answer has the greatest address not above the query exactly if the records climb. */
  lemma GreatestExactly(a: seq<nat>, lo: nat, hi: nat)
    requires hi <= |a|
    ensures AlwaysGreatest(a, lo, hi) <==> Climbs(a, lo, hi)
  {
    if AlwaysGreatest(a, lo, hi) {
      forall j | lo <= j < hi
        ensures a[lo] <= a[j] <= a[hi - 1]
      {
        FirstIsLeast(a, lo, hi, j);
        LastIsGreatest(a, lo, hi, j);
      }
      forall i | lo < i < hi && IsNewHigh(a, lo, i)
        ensures GreatestBelow(a, lo, hi, i)
      {
        assert Found(a, lo, hi, a[i] - 1, Some(i - 1));
      }
    }
    if Climbs(a, lo, hi) {
      forall q: nat, r | Found(a, lo, hi, q, r)
        ensures Greatest(a, lo, hi, q, r)
      {
        ClimbsGreatest(a, lo, hi, q, r);
      }
    }
  }

  lemma FirstIsLeast(a: seq<nat>, lo: nat, hi: nat, j: nat)
    requires AlwaysGreatest(a, lo, hi) && lo <= j < hi <= |a|
    ensures a[lo] <= a[j]
  {
    assert Greatest(a, lo, hi, a[j], Answer(a, lo, hi, a[j]));
  }

  lemma LastIsGreatest(a: seq<nat>, lo: nat, hi: nat, j: nat)
    requires AlwaysGreatest(a, lo, hi) && lo <= j < hi <= |a|
    ensures a[j] <= a[hi - 1]
  {
    var top := Highest(a, lo, hi);
    assert Found(a, lo, hi, a[top], Some(hi - 1));
  }

  lemma {:induction false} Highest(a: seq<nat>, lo: nat, hi: nat) returns (top: nat)
    requires lo < hi <= |a|
    ensures lo <= top < hi && forall j :: lo <= j < hi ==> a[j] <= a[top]
    decreases hi
  {
    top := lo;
    if lo + 1 < hi {
      var t := Highest(a, lo, hi - 1);
      top := if a[t] <= a[hi - 1] then hi - 1 else t;
    }
  }

  lemma ClimbsGreatest(a: seq<nat>, lo: nat, hi: nat, q: nat, r: Option<nat>)
    requires Climbs(a, lo, hi) && Found(a, lo, hi, q, r)
    ensures Greatest(a, lo, hi, q, r)
  {
    if r.Some? && r.value + 1 < hi {
      var i := r.value + 1;
      assert IsNewHigh(a, lo, i);
      assert GreatestBelow(a, lo, hi, i);
      forall j | lo <= j < hi && a[j] <= q
        ensures a[j] <= a[r.value]
      {
        assert a[j] < a[i];
      }
    }
  }

  /** The last function is not checked: its records may go down, and then an answer may be wrong. The query is the
      address of the second record, and the answer is the third. */
  lemma LastFunctionUnchecked()
    ensures Divides([8, 9, 3], [8], [4], [0]) && Counts([0], [3], 3)
    ensures Found([8, 9, 3], 0, 3, 9, Some(2)) && !Greatest([8, 9, 3], 0, 3, 9, Some(2))
  {
    var a: seq<nat> := [8, 9, 3];
    assert a[1] == 9 && a[2] == 3;
  }

  /** Records that do not go up, and for which all answers are right. */
  lemma ClimbingIsEnough()
    ensures Climbs([3, 8, 3, 8], 0, 4) && !Ascending([3, 8, 3, 8], 0, 4)
  {
    var a: seq<nat> := [3, 8, 3, 8];
    assert a[0] == 3 && a[1] == 8 && a[2] == 3 && a[3] == 8;
  }

  /** What the kernel reports about a program; null pointers are `None`. */
  datatype Info = Info(insnOffs: seq<nat>, recSize: nat, jited: Option<seq<nat>>, jitedRecSize: nat,
                       ksyms: Option<seq<nat>>, lens: Option<seq<nat>>)

  /** Enough is known to look up addresses. */
  predicate HasAddresses(info: Info) {
    && info.ksyms.Some? && info.ksyms.value != [] && info.jited.Some? && |info.jited.value| == |info.insnOffs|
    && info.jitedRecSize >= ADDRESS_SIZE && info.lens.Some? && |info.lens.value| == |info.ksyms.value|
  }

  ghost predicate Acceptable(info: Info) {
    && info.insnOffs != [] && info.recSize >= OFFSET_OF_FILE_NAME
    && (HasAddresses(info) ==> Dividable(info.jited.value, info.ksyms.value, info.lens.value))
  }

  class ProgLinfo {
    const info: Info
    const jited: seq<nat>
    const nrFunc: nat
    const funcIdx: array<nat>
    const perFunc: array<nat>

    ghost predicate Valid()
      reads funcIdx, perFunc
    {
      && info.insnOffs != [] && nrFunc == funcIdx.Length == perFunc.Length && funcIdx != perFunc
      && (nrFunc == if HasAddresses(info) then |info.ksyms.value| else 0)
      && (nrFunc > 0 ==>
        jited == info.jited.value && Divides(jited, info.ksyms.value, info.lens.value, funcIdx[..]) &&
        Counts(funcIdx[..], perFunc[..], |jited|))
    }

    constructor Copy(info: Info)
      ensures this.info == info && nrFunc == (if HasAddresses(info) then |info.ksyms.value| else 0)
      ensures HasAddresses(info) ==> jited == info.jited.value
      ensures fresh(funcIdx) && fresh(perFunc) && nrFunc == funcIdx.Length == perFunc.Length && funcIdx != perFunc
    {
      this.info := info;
      var n := if HasAddresses(info) then |info.ksyms.value| else 0;
      nrFunc := n;
      jited := if HasAddresses(info) then info.jited.value else [];
      funcIdx := new nat[n];
      perFunc := new nat[n];
    }

    /** The record that covers an address of a function. */
    method LFindAddrFunc(addr: nat, f: nat, skip: nat) returns (r: Option<nat>)
      requires Valid()
      ensures f >= nrFunc ==> r.None?
      ensures f < nrFunc ==> Found(jited, funcIdx[f] + skip, funcIdx[f] + perFunc[f], addr, r)
    {
      if f >= nrFunc {
        return None;
      }
      EndsInside(f);
      var n := perFunc[f];
      if skip >= n {
        return None;
      }
      var start := funcIdx[f] + skip;
      if addr < jited[start] {
        return None;
      }
      n := n - skip;
      var i := 0;
      while i < n
        invariant 0 <= i <= n && forall j :: start <= j < start + i ==> jited[j] <= addr
      {
        if addr < jited[start + i] {
          break;
        }
        i := i + 1;
      }
      r := Some(start + i - 1);
    }

    lemma EndsInside(f: nat)
      requires Valid() && f < nrFunc
      ensures funcIdx[f] + perFunc[f] <= |jited|
    {
      hide Closed;
      var idx := funcIdx[..];
      CountsAt(idx, perFunc[..], |jited|, f);
      if f + 1 < nrFunc {
        StartsIncrease(jited, info.ksyms.value, info.lens.value, funcIdx[..], f, f + 1);
      }
    }

    /** The record that covers an instruction. */
    method LFind(insnOff: nat, skip: nat) returns (r: Option<nat>)
      requires Valid()
      ensures Found(info.insnOffs, skip, |info.insnOffs|, insnOff, r)
    {
      var n := |info.insnOffs|;
      if skip >= n {
        return None;
      }
      if insnOff < info.insnOffs[skip] {
        return None;
      }
      n := n - skip;
      var i := 0;
      while i < n
        invariant 0 <= i <= n && forall j :: skip <= j < skip + i ==> info.insnOffs[j] <= insnOff
      {
        if insnOff < info.insnOffs[skip + i] {
          break;
        }
        i := i + 1;
      }
      r := Some(skip + i - 1);
    }
  }

  /** Build the index. It is refused exactly if the report is not acceptable. */
  method NewProgLinfo(info: Info) returns (r: Option<ProgLinfo>)
    ensures r.Some? <==> Acceptable(info)
    ensures r.Some? ==> fresh(r.value) && r.value.Valid() && r.value.info == info
  {
    hide Divides, Counts;
    if info.insnOffs == [] || info.recSize < OFFSET_OF_FILE_NAME {
      return None;
    }
    var p := new ProgLinfo.Copy(info);
    if p.nrFunc > 0 {
      var ok := Dissect(p.jited, info.ksyms.value, info.lens.value, p.funcIdx, p.perFunc);
      if !ok {
        return None;
      }
    }
    r := Some(p);
  }
}
