/** Small types of which inputs are made. */
module SmallTypes {
  import opened BtfTypes
  import opened IdenticalTypes

  function Members(ms: seq<nat>): (es: seq<seq<nat>>)
    ensures |es| == |ms| && forall i :: 0 <= i < |es| ==> es[i] == [0, ms[i], 0]
  {
    seq(|ms|, i requires 0 <= i < |ms| => [0, ms[i], 0])
  }

  /** A struct with members of the given types. */
  function StructOf(name: nat, ms: seq<nat>): Type {
    Type(Struct, false, |ms|, name, 8, [], Members(ms))
  }

  lemma StructOfRefs(name: nat, ms: seq<nat>)
    ensures var t := StructOf(name, ms); WellFormed(t) && IsComposite(t) && Refs(t) == ms
  {
    MemberTypes(ms);
  }

  lemma {:induction false} MemberTypes(ms: seq<nat>)
    ensures Wide(2, Members(ms)) && Cols(1, 2, Members(ms)) == ms
  {
    var es := Members(ms);
    if ms != [] {
      MemberTypes(ms[1..]);
      assert es[1..] == Members(ms[1..]);
      assert es[0][1..2] == [ms[0]];
      assert [ms[0]] + ms[1..] == ms;
    }
  }

  function TypedefOf(name: nat, ref: nat): Type {
    Type(Typedef, false, 0, name, ref, [], [])
  }

  function PointerTo(ref: nat): Type {
    Type(Ptr, false, 0, 0, ref, [], [])
  }

  lemma ReferenceRefs(name: nat, ref: nat)
    ensures WellFormed(TypedefOf(name, ref)) && Refs(TypedefOf(name, ref)) == [ref]
    ensures WellFormed(PointerTo(ref)) && Refs(PointerTo(ref)) == [ref]
  {
    hide Refs;
    ChainRefs(TypedefOf(name, ref));
    ChainRefs(PointerTo(ref));
  }
}
