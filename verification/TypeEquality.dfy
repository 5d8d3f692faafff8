/** The comparisons and signature hashes that deduplication uses to find candidates. */
module TypeEquality {
  import opened BtfTypes

  predicate EqualInfo(t1: Type, t2: Type) {
    t1.kind == t2.kind && t1.kflag == t2.kflag && t1.vlen == t2.vlen
  }

  predicate EqualCommon(t1: Type, t2: Type) {
    t1.name == t2.name && EqualInfo(t1, t2) && t1.st == t2.st
  }

  predicate EqualTypedef(t1: Type, t2: Type) {
    t1.name == t2.name && EqualInfo(t1, t2)
  }

  predicate EqualIntTag(t1: Type, t2: Type)
    requires WellFormed(t1) && WellFormed(t2) && (t1.kind.Int? || t1.kind.DeclTag?)
  {
    EqualCommon(t1, t2) && t1.extra[0] == t2.extra[0]
  }

  predicate EqualEnum(t1: Type, t2: Type)
    requires WellFormed(t1) && WellFormed(t2) && IsAnyEnum(t1)
  {
    EqualCommon(t1, t2) && forall i :: 0 <= i < t1.vlen ==> t1.elems[i] == t2.elems[i]
  }

  predicate CompatEnum(t1: Type, t2: Type)
    requires WellFormed(t1) && WellFormed(t2) && IsAnyEnum(t1)
  {
    if !IsEnumFwd(t1) && !IsEnumFwd(t2) then EqualEnum(t1, t2)
    else t1.name == t2.name && IsAnyEnum(t1) && IsAnyEnum(t2)
  }

  predicate EqualLocParam(t1: Type, t2: Type)
    requires WellFormed(t1) && WellFormed(t2) && t1.kind.LocParam?
  {
    EqualCommon(t1, t2) && t1.extra[0] == t2.extra[0]
    && forall i :: 0 <= i < t1.vlen ==> t1.elems[i] == t2.elems[i]
  }

  predicate ShallowEqualStruct(t1: Type, t2: Type)
    requires WellFormed(t1) && WellFormed(t2) && IsComposite(t1)
  {
    EqualCommon(t1, t2)
    && forall i :: 0 <= i < t1.vlen ==> t1.elems[i][0] == t2.elems[i][0] && t1.elems[i][2] == t2.elems[i][2]
  }

  predicate EqualArray(t1: Type, t2: Type)
    requires WellFormed(t1) && WellFormed(t2) && t1.kind.Array?
  {
    EqualCommon(t1, t2) && t1.extra[0] == t2.extra[0] && t1.extra[1] == t2.extra[1] && t1.extra[2] == t2.extra[2]
  }

  predicate CompatArray(t1: Type, t2: Type)
    requires WellFormed(t1) && WellFormed(t2) && t1.kind.Array?
  {
    EqualCommon(t1, t2) && t1.extra[2] == t2.extra[2]
  }

  predicate EqualFnProto(t1: Type, t2: Type)
    requires WellFormed(t1) && WellFormed(t2) && t1.kind.FuncProto?
  {
    EqualCommon(t1, t2) && forall i :: 0 <= i < t1.vlen ==> t1.elems[i] == t2.elems[i]
  }

  predicate CompatFnProto(t1: Type, t2: Type)
    requires WellFormed(t1) && WellFormed(t2) && t1.kind.FuncProto?
  {
    t1.name == t2.name && EqualInfo(t1, t2) && forall i :: 0 <= i < t1.vlen ==> t1.elems[i][0] == t2.elems[i][0]
  }

  predicate EqualLocProto(t1: Type, t2: Type)
    requires WellFormed(t1) && WellFormed(t2) && t1.kind.LocProto?
  {
    EqualCommon(t1, t2) && forall i :: 0 <= i < t2.vlen ==> t1.elems[i] == t2.elems[i]
  }

  /** The kinds that name one other type and nothing else. */
  predicate IsChainKind(k: Kind) {
    k.Const? || k.Volatile? || k.Restrict? || k.Ptr? || k.Typedef? || k.Func? || k.TypeTag?
  }

  // ----- what the comparisons amount to -----

  /** Equal outside the positions of type ids. */
  ghost predicate SameOutline(t1: Type, t2: Type)
    requires WellFormed(t1) && WellFormed(t2)
  {
    && t1.name == t2.name && EqualInfo(t1, t2)
    && (!RefInHeader(t1.kind) ==> t1.st == t2.st)
    && (if t1.kind.Array? then t1.extra[2] == t2.extra[2] else t1.extra == t2.extra)
    && |t1.elems| == |t2.elems|
    && forall i :: 0 <= i < |t1.elems| ==>
         t1.elems[i][..RefLo(t1.kind)] == t2.elems[i][..RefLo(t1.kind)]
         && t1.elems[i][RefHi(t1.kind)..] == t2.elems[i][RefHi(t1.kind)..]
  }

  lemma {:induction false} SameElemsOutline(lo: nat, hi: nat, es1: seq<seq<nat>>, es2: seq<seq<nat>>, vs: seq<nat>)
    requires lo <= hi && Wide(hi, es1) && Wide(hi, es2) && |es1| == |es2|
    requires forall i :: 0 <= i < |es1| ==> es1[i][..lo] == es2[i][..lo] && es1[i][hi..] == es2[i][hi..]
    requires |vs| == |Cols(lo, hi, es1)|
    ensures |vs| == |Cols(lo, hi, es2)| && WithCols(lo, hi, es1, vs) == WithCols(lo, hi, es2, vs)
  {
    if es1 != [] {
      SameElemsOutline(lo, hi, es1[1..], es2[1..], vs[hi - lo..]);
    }
  }

  lemma SameOutlineShape(t1: Type, t2: Type)
    requires WellFormed(t1) && WellFormed(t2) && SameOutline(t1, t2)
    ensures Shape(t1) == Shape(t2)
  {
    hide Cols, WithCols, ElemWords, InfoWords;
    var zs, k := Zeros(|Refs(t1)|), t1.kind;
    var lo, hi := RefLo(k), RefHi(k);
    SameHeads(t1, t2);
    SameElemsOutline(lo, hi, t1.elems, t2.elems, zs[|HeadRefs(t1)|..]);
    assert |Refs(t2)| == |Refs(t1)|;
  }

  lemma SameHeads(t1: Type, t2: Type)
    requires WellFormed(t1) && WellFormed(t2) && SameOutline(t1, t2)
    ensures |HeadRefs(t1)| == |HeadRefs(t2)| && (t1.kind.Array? ==> t1.extra[2..] == t2.extra[2..])
    ensures Wide(RefHi(t1.kind), t1.elems) && Wide(RefHi(t1.kind), t2.elems)
  {
    hide RefInHeader;
  }

  /** The comparison that accepts two types of one kind without a look at what they refer to. */
  predicate LocallyCompatible(t1: Type, t2: Type)
    requires WellFormed(t1) && WellFormed(t2) && t1.kind == t2.kind
  {
    match t1.kind
    case Int => EqualIntTag(t1, t2)
    case Enum | Enum64 => CompatEnum(t1, t2)
    case Fwd | Float => EqualCommon(t1, t2)
    case Const | Volatile | Restrict | Ptr | Typedef | Func | TypeTag => t1.name == t2.name && EqualInfo(t1, t2)
    case Array => CompatArray(t1, t2)
    case Struct | Union => ShallowEqualStruct(t1, t2)
    case FuncProto => CompatFnProto(t1, t2)
    case LocParam => EqualLocParam(t1, t2)
    case _ => false
  }

  /** An empty enum that meets only its equals. */
  predicate SettledEnums(t1: Type, t2: Type) {
    IsAnyEnum(t1) && IsAnyEnum(t2) && t1.name == t2.name && (IsEnumFwd(t1) || IsEnumFwd(t2)) ==>
      EqualCommon(t1, t2)
  }

  /** Local compatibility is equality of shapes, once empty enums match nothing else. */
  lemma LocallyCompatibleShape(t1: Type, t2: Type)
    requires WellFormed(t1) && WellFormed(t2) && t1.kind == t2.kind
    requires LocallyCompatible(t1, t2) && SettledEnums(t1, t2)
    ensures Shape(t1) == Shape(t2)
  {
    if IsAnyEnum(t1) {
      assert t1.elems == t2.elems;
    }
    if t1.kind.LocParam? {
      assert t1.elems == t2.elems;
    }
    assert t1.extra == t2.extra || t1.kind.Array?;
    SameOutlineShape(t1, t2);
  }

  // ----- exact equality of types whose references are settled -----

  predicate IsPrimKind(k: Kind) {
    k.Int? || k.Enum? || k.Enum64? || k.Fwd? || k.Float? || k.LocParam?
  }

  predicate IsRefKind(k: Kind) {
    k.Const? || k.Volatile? || k.Restrict? || k.Ptr? || k.Func? || k.TypeTag? || k.DeclTag? || k.Array?
    || k.FuncProto? || k.LocProto?
  }

  /** The comparison with a candidate, per kind, that also looks at type ids. */
  predicate Equal(t: Type, cand: Type)
    requires WellFormed(t) && WellFormed(cand)
    requires IsPrimKind(t.kind) || IsRefKind(t.kind)
  {
    match t.kind
    case Int | DeclTag => EqualIntTag(t, cand)
    case Enum | Enum64 => EqualEnum(t, cand)
    case LocParam => EqualLocParam(t, cand)
    case Array => EqualArray(t, cand)
    case FuncProto => EqualFnProto(t, cand)
    case LocProto => EqualLocProto(t, cand)
    case _ => EqualCommon(t, cand)
  }

  lemma EqualIsEquality(t: Type, cand: Type)
    requires WellFormed(t) && WellFormed(cand)
    requires IsPrimKind(t.kind) || IsRefKind(t.kind)
    ensures Equal(t, cand) <==> t == cand
  {
    if Equal(t, cand) {
      assert t.elems == cand.elems;
      assert t.extra == cand.extra;
    }
  }

  // ----- signature hashes -----

  function InfoWord(t: Type): nat {
    t.vlen + CodeOf(t.kind) * 0x100_0000 + (if t.kflag then 0x8000_0000 else 0)
  }

  function HashCombine(h: nat, value: nat): nat {
    (h * 31 + value) % 0x1_0000_0000_0000_0000
  }

  function HashWords(h: nat, ws: seq<nat>): nat
    decreases |ws|
  {
    if ws == [] then h else HashWords(HashCombine(h, ws[0]), ws[1..])
  }

  function HashElems(h: nat, es: seq<seq<nat>>): nat
    decreases |es|
  {
    if es == [] then h else HashElems(HashWords(h, es[0]), es[1..])
  }

  /** Member names and offsets, without the members' types. */
  function HashMembers(h: nat, es: seq<seq<nat>>): nat
    requires forall i :: 0 <= i < |es| ==> |es[i]| == 3
    decreases |es|
  {
    if es == [] then h else HashMembers(HashCombine(HashCombine(h, es[0][0]), es[0][2]), es[1..])
  }

  function HashCommon(t: Type): nat {
    HashWords(0, [t.name, InfoWord(t), t.st])
  }

  function HashTypedef(t: Type): nat {
    HashWords(0, [t.name, InfoWord(t)])
  }

  function HashStruct(t: Type): nat
    requires WellFormed(t) && IsComposite(t)
  {
    HashMembers(HashCommon(t), t.elems)
  }

  /** The hash under which a type is entered in the candidate table. */
  function Signature(t: Type): nat
    requires WellFormed(t)
  {
    match t.kind
    case Typedef => HashTypedef(t)
    case Int | DeclTag => HashCombine(HashCommon(t), t.extra[0])
    case Enum | Enum64 => HashWords(0, [t.name])
    case Struct | Union => HashStruct(t)
    case Array => HashWords(HashCommon(t), t.extra)
    case FuncProto => HashElems(HashCommon(t), t.elems)
    case LocParam => HashElems(HashCombine(HashCommon(t), t.extra[0]), t.elems)
    case LocProto => HashElems(HashCommon(t), t.elems)
    case _ => HashCommon(t)
  }
}
