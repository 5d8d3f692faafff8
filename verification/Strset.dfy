/** String sections: NUL-terminated strings one after the other, addressed by offset, and the set that
    builds such a section without duplicates. */
module Strset {
  import opened Options
  import opened Memory

  const NUL: char := '\0'
  const MAX_STR_OFFSET: nat := 0x7fff_ffff

  /** The string that starts at an offset. */
  function StrAt(data: string, off: nat): string
    decreases |data| - off
  {
    if off >= |data| || data[off] == NUL then "" else [data[off]] + StrAt(data, off + 1)
  }

  predicate Terminated(data: string) {
    data != "" ==> data[|data| - 1] == NUL
  }

  /** Appending to a section does not change what it holds. */
  lemma {:induction false} StrAtAppend(data: string, more: string, off: nat)
    requires Terminated(data) && off < |data|
    ensures StrAt(data + more, off) == StrAt(data, off)
    decreases |data| - off
  {
    if data[off] != NUL {
      StrAtAppend(data, more, off + 1);
    }
  }

  lemma {:induction false} StrAtNew(data: string, s: string, i: nat)
    requires NUL !in s && i <= |s|
    ensures StrAt(data + s + [NUL], |data| + i) == s[i..]
    decreases |s| - i
  {
    var all := data + s + [NUL];
    if i < |s| {
      assert all[|data| + i] == s[i] && s[i] in s;
      StrAtNew(data, s, i + 1);
      assert s[i..] == [s[i]] + s[i + 1..];
    } else {
      assert all[|data| + i] == NUL;
    }
  }

  lemma {:induction false} StrAtPlain(data: string, off: nat)
    ensures NUL !in StrAt(data, off)
    ensures off + |StrAt(data, off)| <= |data| || StrAt(data, off) == ""
    decreases |data| - off
  {
    if off < |data| && data[off] != NUL {
      StrAtPlain(data, off + 1);
    }
  }

  class Set {
    var data: string
    var index: map<string, nat>

    /** Every indexed string is at its offset. */
    ghost predicate Valid()
      reads this
    {
      Terminated(data) && |data| <= MAX_STR_OFFSET
      && forall s :: s in index ==> index[s] < |data| && StrAt(data, index[s]) == s
    }

    constructor ()
      ensures Valid() && data == "" && index == map[]
    {
      data, index := "", map[];
    }

    /** A section that is not on top of another one starts with the empty string. */
    method StartWithEmpty()
      requires data == "" && index == map[]
      modifies this
      ensures Valid() && data == [NUL] && index == map["" := 0]
    {
      data, index := [NUL], map["" := 0];
    }

    /** The offset of a string, if it is in the set. */
    function FindStr(s: string): (off: Option<nat>)
      requires Valid()
      reads this
      ensures off.Some? ==> off.value < |data| && StrAt(data, off.value) == s
    {
      if s in index then Some(index[s]) else None
    }

    /** The offset of a string, appended first if it is new. Nothing moves. */
    method AddStr(s: string, plenty: bool) returns (off: Option<nat>)
      requires Valid() && NUL !in s
      modifies this
      ensures Valid() && old(data) <= data
      ensures old(s in index) || off.None? ==> data == old(data) && index == old(index)
      ensures off.Some? ==> s in index && off.value == index[s] && StrAt(data, off.value) == s
      ensures off.Some? ==> index == old(index)[s := off.value]
      ensures off.None? ==> !plenty || |old(data)| + |s| + 1 > MAX_STR_OFFSET
      ensures |data| <= |old(data)| + |s| + 1
      ensures off.Some? && s !in old(index) ==> off.value == |old(data)|
      ensures forall o :: 0 <= o < |old(data)| ==> StrAt(data, o) == StrAt(old(data), o)
    {
      if |data| + |s| + 1 > MAX_STR_OFFSET {
        return None;
      }
      var got := Ask(plenty);
      if !got {
        return None;
      }
      if s in index {
        assert index == index[s := index[s]];
        return Some(index[s]);
      }
      ghost var was := data;
      var newOff := |data|;
      StrAtNew(data, s, 0);
      assert s[0..] == s;
      data := data + s + [NUL];
      index := index[s := newOff];
      assert data == was + (s + [NUL]);
      forall o | 0 <= o < |was|
        ensures StrAt(data, o) == StrAt(was, o)
      {
        StrAtAppend(was, s + [NUL], o);
      }
      off := Some(newOff);
    }
  }

  /** A set over an existing section, indexed string by string; the first of equal strings counts. Memory may run
      out. */
  method FromSection(init: string, plenty: bool) returns (ok: bool, set_: Set)
    requires Terminated(init) && |init| <= MAX_STR_OFFSET
    ensures (plenty ==> ok) && fresh(set_) && (ok ==> set_.Valid() && set_.data == init)
    ensures ok ==> forall s :: s in set_.index ==>
      forall o :: 0 <= o < set_.index[s] && Starts(init, o) ==> StrAt(init, o) != s
    ensures ok ==> forall o :: 0 <= o < |init| && Starts(init, o) ==> StrAt(init, o) in set_.index
  {
    ok := true;
    set_ := new Set();
    set_.data := init;
    var off := 0;
    while off < |init|
      invariant fresh(set_) && set_.Valid() && set_.data == init && off <= |init| && ok
      invariant off < |init| ==> Starts(init, off)
      invariant forall s :: s in set_.index ==> set_.index[s] < off
      invariant forall s :: s in set_.index ==>
        forall o :: 0 <= o < set_.index[s] && Starts(init, o) ==> StrAt(init, o) != s
      invariant forall o :: 0 <= o < off && Starts(init, o) ==> StrAt(init, o) in set_.index
    {
      var s := StrAt(init, off);
      if s !in set_.index {
        ok := Ask(plenty);
        if !ok {
          return;
        }
        set_.index := set_.index[s := off];
      }
      NextStart(init, off);
      off := off + |s| + 1;
    }
  }

  /** An offset at which the section starts a string. */
  predicate Starts(data: string, off: nat)
    requires off <= |data|
  {
    off == 0 || data[off - 1] == NUL
  }

  lemma {:induction false} NextStart(data: string, off: nat)
    requires Terminated(data) && off < |data|
    ensures var n := |StrAt(data, off)|;
      off + n < |data| && data[off + n] == NUL && forall i :: off <= i < off + n ==> data[i] != NUL
    decreases |data| - off
  {
    if data[off] != NUL {
      NextStart(data, off + 1);
    }
  }
}
