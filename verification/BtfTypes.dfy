/** BTF type descriptors: a three-word header followed by one fixed element
    and by `vlen` repeated elements, both measured in 32-bit words. */
module BtfTypes {

  datatype Kind =
    | Void | Int | Ptr | Array | Struct | Union | Enum | Fwd | Typedef | Volatile | Const
    | Restrict | Func | FuncProto | Var | Datasec | Float | DeclTag | TypeTag | Enum64
    | LocParam | LocProto | Locsec | Other(code: nat)

  /** The number of a kind in a descriptor. */
  function CodeOf(k: Kind): nat {
    match k
    case Void => 0 case Int => 1 case Ptr => 2 case Array => 3 case Struct => 4 case Union => 5
    case Enum => 6 case Fwd => 7 case Typedef => 8 case Volatile => 9 case Const => 10 case Restrict => 11
    case Func => 12 case FuncProto => 13 case Var => 14 case Datasec => 15 case Float => 16 case DeclTag => 17
    case TypeTag => 18 case Enum64 => 19 case LocParam => 20 case LocProto => 21 case Locsec => 22
    case Other(c) => c
  }

  /** `st` is the header word that holds a size for some kinds and a type id for others.
      `extra` is the element that follows the header once, `elems` are the `vlen` elements. */
  datatype Type = Type(kind: Kind, kflag: bool, vlen: nat, name: nat, st: nat,
                       extra: seq<nat>, elems: seq<seq<nat>>)

  const VOID: Type := Type(Void, false, 0, 0, 0, [], [])

  /** Size in words of the element that follows the header once. */
  function InfoWords(k: Kind): nat {
    match k
    case Int | Var | DeclTag | LocParam => 1
    case Array => 3
    case _ => 0
  }

  /** Size in words of each of the repeated elements, 0 if the kind has none. */
  function ElemWords(k: Kind): (n: nat)
    ensures ElemNamed(k) ==> n >= 2
  {
    match k
    case Struct | Union | Datasec | Enum64 | Locsec => 3
    case Enum | FuncProto => 2
    case LocParam | LocProto => 1
    case _ => 0
  }

  ghost predicate WellFormed(t: Type) {
    && |t.extra| == InfoWords(t.kind)
    && |t.elems| == (if ElemWords(t.kind) == 0 then 0 else t.vlen)
    && (forall i :: 0 <= i < |t.elems| ==> |t.elems[i]| == ElemWords(t.kind))
  }

  predicate IsComposite(t: Type) {
    t.kind.Struct? || t.kind.Union?
  }

  predicate IsAnyEnum(t: Type) {
    t.kind.Enum? || t.kind.Enum64?
  }

  predicate IsEnumFwd(t: Type) {
    IsAnyEnum(t) && t.vlen == 0
  }

  function FwdKind(t: Type): Kind {
    if t.kflag then Union else Struct
  }

  // ----- columns of repeated elements -----

  /** Elements that all have the columns up to `hi`. */
  ghost predicate Wide(hi: nat, es: seq<seq<nat>>) {
    forall i :: 0 <= i < |es| ==> hi <= |es[i]|
  }

  /** The words in columns lo .. hi, element by element. */
  function Cols(lo: nat, hi: nat, es: seq<seq<nat>>): seq<nat>
    requires lo <= hi && Wide(hi, es)
  {
    if es == [] then [] else es[0][lo..hi] + Cols(lo, hi, es[1..])
  }

  lemma {:induction false} NoCols(lo: nat, es: seq<seq<nat>>)
    requires Wide(lo, es)
    ensures Cols(lo, lo, es) == []
  {
    if es != [] {
      NoCols(lo, es[1..]);
    }
  }

  function ElemWith(lo: nat, hi: nat, e: seq<nat>, vs: seq<nat>): (r: seq<nat>)
    requires lo <= hi <= |e| && |vs| == hi - lo
    ensures |r| == |e| && r[lo..hi] == vs
    ensures forall c :: 0 <= c < |e| ==> r[c] == if lo <= c < hi then vs[c - lo] else e[c]
  {
    e[..lo] + vs + e[hi..]
  }

  /** The elements with the words in columns lo .. hi replaced. */
  function WithCols(lo: nat, hi: nat, es: seq<seq<nat>>, vs: seq<nat>): (r: seq<seq<nat>>)
    requires lo <= hi && Wide(hi, es) && |vs| == |Cols(lo, hi, es)|
    ensures |r| == |es| && (forall i :: 0 <= i < |r| ==> |r[i]| == |es[i]|)
    ensures Cols(lo, hi, r) == vs
  {
    if es == [] then []
    else
      var n := hi - lo;
      var rest := WithCols(lo, hi, es[1..], vs[n..]);
      var r := [ElemWith(lo, hi, es[0], vs[..n])] + rest;
      assert r[1..] == rest;
      assert vs[..n] + vs[n..] == vs;
      r
  }

  lemma WithColsAt(lo: nat, hi: nat, es: seq<seq<nat>>, vs: seq<nat>)
    requires lo <= hi && Wide(hi, es) && |vs| == |Cols(lo, hi, es)| && es != []
    ensures |es[0][lo..hi]| == hi - lo <= |vs| && |vs[hi - lo..]| == |Cols(lo, hi, es[1..])|
    ensures WithCols(lo, hi, es, vs)[0] == ElemWith(lo, hi, es[0], vs[..hi - lo])
    ensures WithCols(lo, hi, es, vs)[1..] == WithCols(lo, hi, es[1..], vs[hi - lo..])
  {
  }

  lemma HeadAndTail(a: seq<seq<nat>>, b: seq<seq<nat>>)
    requires |a| == |b| > 0 && a[0] == b[0] && a[1..] == b[1..]
    ensures a == b
  {
    assert a == [a[0]] + a[1..] && b == [b[0]] + b[1..];
  }

  lemma {:induction false} WithColsTwice(lo: nat, hi: nat, es: seq<seq<nat>>, vs: seq<nat>, vs': seq<nat>)
    requires lo <= hi && Wide(hi, es) && |vs| == |vs'| == |Cols(lo, hi, es)|
    ensures WithCols(lo, hi, WithCols(lo, hi, es, vs), vs') == WithCols(lo, hi, es, vs')
  {
    hide Cols, WithCols;
    if es != [] {
      var es1 := WithCols(lo, hi, es, vs);
      WithColsAt(lo, hi, es, vs);
      WithColsAt(lo, hi, es, vs');
      WithColsAt(lo, hi, es1, vs');
      WithColsTwice(lo, hi, es[1..], vs[hi - lo..], vs'[hi - lo..]);
      HeadAndTail(WithCols(lo, hi, es1, vs'), WithCols(lo, hi, es, vs'));
    } else {
      WithOwnCols(lo, hi, es);
    }
  }

  lemma {:induction false} WithOwnCols(lo: nat, hi: nat, es: seq<seq<nat>>)
    requires lo <= hi && Wide(hi, es)
    ensures WithCols(lo, hi, es, Cols(lo, hi, es)) == es
  {
    if es != [] {
      WithColsAt(lo, hi, es, Cols(lo, hi, es));
      WithOwnCols(lo, hi, es[1..]);
      var own := Cols(lo, hi, es);
      assert own[..hi - lo] == es[0][lo..hi] && own[hi - lo..] == Cols(lo, hi, es[1..]);
      var r := WithCols(lo, hi, es, own);
      assert r[0] == es[0];
      assert r == [r[0]] + r[1..] && es == [es[0]] + es[1..];
    }
  }

  /** Replacing some columns leaves the others. */
  lemma {:induction false} OtherCols(lo: nat, hi: nat, lo': nat, hi': nat, es: seq<seq<nat>>, vs: seq<nat>)
    requires lo <= hi && lo' <= hi' && Wide(hi, es) && Wide(hi', es) && |vs| == |Cols(lo, hi, es)|
    requires hi <= lo' || hi' <= lo
    ensures Cols(lo', hi', WithCols(lo, hi, es, vs)) == Cols(lo', hi', es)
  {
    if es != [] {
      WithColsAt(lo, hi, es, vs);
      OtherCols(lo, hi, lo', hi', es[1..], vs[hi - lo..]);
      var e, e' := es[0], WithCols(lo, hi, es, vs)[0];
      assert e'[lo'..hi'] == e[lo'..hi'];
    }
  }

  /** Replacements in disjoint columns may be made in any order, and the last one wins. */
  lemma {:induction false} ColsCommute(lo: nat, hi: nat, lo': nat, hi': nat, es: seq<seq<nat>>,
                                       vs: seq<nat>, ws: seq<nat>, zs: seq<nat>)
    requires lo <= hi && lo' <= hi' && Wide(hi, es) && Wide(hi', es) && (hi <= lo' || hi' <= lo)
    requires |vs| == |Cols(lo, hi, es)| && |ws| == |zs| == |Cols(lo', hi', es)|
    ensures |vs| == |Cols(lo, hi, WithCols(lo', hi', es, ws))|
    ensures |zs| == |Cols(lo', hi', WithCols(lo, hi, WithCols(lo', hi', es, ws), vs))| ==
      |Cols(lo', hi', WithCols(lo, hi, es, vs))|
    ensures WithCols(lo', hi', WithCols(lo, hi, WithCols(lo', hi', es, ws), vs), zs)
         == WithCols(lo', hi', WithCols(lo, hi, es, vs), zs)
  {
    hide Cols, WithCols, ElemWith;
    var a := WithCols(lo', hi', es, ws);
    OtherCols(lo', hi', lo, hi, es, ws);
    OtherCols(lo, hi, lo', hi', a, vs);
    OtherCols(lo, hi, lo', hi', es, vs);
    if es != [] {
      var b, c := WithCols(lo, hi, a, vs), WithCols(lo, hi, es, vs);
      WithColsAt(lo', hi', es, ws);
      WithColsAt(lo, hi, a, vs);
      WithColsAt(lo, hi, es, vs);
      WithColsAt(lo', hi', b, zs);
      WithColsAt(lo', hi', c, zs);
      ColsCommute(lo, hi, lo', hi', es[1..], vs[hi - lo..], ws[hi' - lo'..], zs[hi' - lo'..]);
      ElemCommute(lo, hi, lo', hi', es[0], vs[..hi - lo], ws[..hi' - lo'], zs[..hi' - lo']);
      HeadAndTail(WithCols(lo', hi', b, zs), WithCols(lo', hi', c, zs));
    }
  }

  lemma ElemCommute(lo: nat, hi: nat, lo': nat, hi': nat, e: seq<nat>, vs: seq<nat>, ws: seq<nat>, zs: seq<nat>)
    requires lo <= hi <= |e| && lo' <= hi' <= |e| && (hi <= lo' || hi' <= lo)
    requires |vs| == hi - lo && |ws| == |zs| == hi' - lo'
    ensures ElemWith(lo', hi', ElemWith(lo, hi, ElemWith(lo', hi', e, ws), vs), zs)
         == ElemWith(lo', hi', ElemWith(lo, hi, e, vs), zs)
  {
  }

  // ----- type ids inside a descriptor -----

  /** Kinds whose header word `st` is a type id. */
  predicate RefInHeader(k: Kind) {
    k.Fwd? || k.Const? || k.Volatile? || k.Restrict? || k.Ptr? || k.Typedef? || k.Func? || k.Var?
    || k.DeclTag? || k.TypeTag? || k.FuncProto?
  }

  /** The words of a repeated element that are type ids are the columns RefLo .. RefHi. */
  function RefLo(k: Kind): (lo: nat)
    ensures lo <= ElemWords(k)
  {
    if k.Struct? || k.Union? || k.FuncProto? then 1 else 0
  }

  function RefHi(k: Kind): (hi: nat)
    ensures RefLo(k) <= hi <= ElemWords(k)
  {
    match k
    case Struct | Union | FuncProto | Locsec => 2
    case Datasec | LocProto => 1
    case _ => 0
  }

  function HeadRefs(t: Type): seq<nat>
    requires WellFormed(t)
  {
    if RefInHeader(t.kind) then [t.st] else if t.kind.Array? then t.extra[..2] else []
  }

  /** All type ids that a descriptor holds, in layout order. */
  function Refs(t: Type): seq<nat>
    requires WellFormed(t)
  {
    HeadRefs(t) + Cols(RefLo(t.kind), RefHi(t.kind), t.elems)
  }

  /** The descriptor with its type ids replaced, everything else kept. */
  function WithRefs(t: Type, rs: seq<nat>): (r: Type)
    requires WellFormed(t)
    requires |rs| == |Refs(t)|
    ensures WellFormed(r)
    ensures Refs(r) == rs
    ensures r.kind == t.kind && r.kflag == t.kflag && r.vlen == t.vlen && r.name == t.name
  {
    var h := |HeadRefs(t)|;
    var es := WithCols(RefLo(t.kind), RefHi(t.kind), t.elems, rs[h..]);
    var r := if RefInHeader(t.kind) then t.(st := rs[0], elems := es)
             else if t.kind.Array? then t.(extra := rs[..2] + t.extra[2..], elems := es)
             else t.(elems := es);
    assert HeadRefs(r) == rs[..h];
    r
  }

  function Zeros(n: nat): (z: seq<nat>)
    ensures |z| == n
  {
    seq(n, _ => 0)
  }

  /** Everything a descriptor says apart from which types it refers to. */
  function Shape(t: Type): (r: Type)
    requires WellFormed(t)
    ensures WellFormed(r) && |Refs(r)| == |Refs(t)|
    ensures r.kind == t.kind && r.kflag == t.kflag && r.vlen == t.vlen && r.name == t.name
  {
    WithRefs(t, Zeros(|Refs(t)|))
  }

  /** Replacing ids twice keeps the last replacement; replacing them by themselves changes nothing. */
  lemma WithRefsTwice(t: Type, rs: seq<nat>, rs': seq<nat>)
    requires WellFormed(t)
    requires |rs| == |rs'| == |Refs(t)|
    ensures WithRefs(WithRefs(t, rs), rs') == WithRefs(t, rs')
    ensures WithRefs(t, Refs(t)) == t
  {
    hide Cols, WithCols;
    var h := |HeadRefs(t)|;
    WithColsTwice(RefLo(t.kind), RefHi(t.kind), t.elems, rs[h..], rs'[h..]);
    WithOwnCols(RefLo(t.kind), RefHi(t.kind), t.elems);
    assert Refs(t)[h..] == Cols(RefLo(t.kind), RefHi(t.kind), t.elems) && Refs(t)[..h] == HeadRefs(t);
    if t.kind.Array? {
      assert t.extra[..2] + t.extra[2..] == t.extra;
      assert (rs[..2] + t.extra[2..])[2..] == t.extra[2..];
      assert rs'[..2] + t.extra[2..] == WithRefs(t, rs').extra;
    }
  }

  lemma ShapeOfWithRefs(t: Type, rs: seq<nat>)
    requires WellFormed(t)
    requires |rs| == |Refs(t)|
    ensures Shape(WithRefs(t, rs)) == Shape(t)
  {
    WithRefsTwice(t, rs, Zeros(|rs|));
  }

  /** A descriptor is its shape together with its ids. */
  lemma ShapeAndRefs(t1: Type, t2: Type)
    requires WellFormed(t1) && WellFormed(t2)
    ensures t1 == t2 <==> Shape(t1) == Shape(t2) && Refs(t1) == Refs(t2)
  {
    if Shape(t1) == Shape(t2) && Refs(t1) == Refs(t2) {
      WithRefsTwice(t1, Zeros(|Refs(t1)|), Refs(t1));
      WithRefsTwice(t2, Zeros(|Refs(t2)|), Refs(t2));
    }
  }

  // ----- string offsets inside a descriptor -----

  /** Kinds whose repeated elements start with the offset of a name. */
  predicate ElemNamed(k: Kind) {
    k.Enum? || k.Enum64? || k.Struct? || k.Union? || k.FuncProto?
  }

  predicate HasName(k: Kind) {
    !k.Void? && !k.Other?
  }

  /** The words of a repeated element that are string offsets are the columns 0 .. NameHi. */
  function NameHi(k: Kind): (hi: nat)
    ensures hi <= ElemWords(k) && (hi <= RefLo(k) || RefHi(k) == 0)
  {
    if ElemNamed(k) then 1 else 0
  }

  function HeadNames(t: Type): seq<nat> {
    if HasName(t.kind) then [t.name] else []
  }

  /** All string offsets that a descriptor holds, in layout order. */
  function Names(t: Type): seq<nat>
    requires WellFormed(t)
  {
    HeadNames(t) + Cols(0, NameHi(t.kind), t.elems)
  }

  /** The descriptor with its string offsets replaced, everything else kept. */
  function WithNames(t: Type, ns: seq<nat>): (r: Type)
    requires WellFormed(t)
    requires |ns| == |Names(t)|
    ensures WellFormed(r)
    ensures Names(r) == ns
    ensures r.kind == t.kind && r.kflag == t.kflag && r.vlen == t.vlen && r.st == t.st && r.extra == t.extra
  {
    var es := WithCols(0, NameHi(t.kind), t.elems, ns[|HeadNames(t)|..]);
    if HasName(t.kind) then t.(name := ns[0], elems := es) else t.(elems := es)
  }
}
