/** Building an object call by call. Memory and name strings may run out in each call; whatever happens,
    the index of type starts is what reading the type bytes afresh computes. */
module Construct {
  import opened Options
  import opened BtfTypes
  import opened Words
  import opened TypeSection
  import opened TypeCodec
  import opened TypeListing

  datatype Errno = Inval | NoMem | NoSpace | TooBig

  datatype Outcome = Ok(id: nat) | Err(error: Errno)

  /** What a call gets from its surroundings: room for type bytes, the offset of its name, room in the index. */
  datatype Env = Env(typeMem: bool, name: Option<nat>, idxMem: bool)

  const MAX_TYPES: nat := 0x7fff_ffff
  const MAX_VLEN: nat := 0xff_ffff
  const MAX_TYPE_BYTES: nat := 0xffff_ffff
  /** The most that a call adds for a new type, and for an element. */
  const NEW_BYTES: nat := 24
  const ELEM_BYTES: nat := 12

  /** A descriptor with one more element. */
  function Grown(t: Type, e: seq<nat>, flag: bool): Type {
    t.(vlen := t.vlen + 1, elems := t.elems + [e], kflag := t.kflag || flag)
  }

  /** The bytes with another second header word. */
  function WithInfo(rec: seq<Byte>, info: nat): (r: seq<Byte>)
    requires |rec| >= HEADER_SIZE && info < WORD_LIMIT
    ensures |r| == |rec|
  {
    rec[..INFO_OFF] + Word(info) + rec[INFO_OFF + 4..]
  }

  lemma EncodeParts(t: Type, info: nat)
    requires Writable(t) && info < WORD_LIMIT
    ensures |Encode(t)| >= HEADER_SIZE && WithInfo(Encode(t), info) ==
      Bytes([t.name, info, t.st]) + Bytes(t.extra) + Bytes(Flat(t.elems))
  {
    hide Word, MakeInfo, CodeOf, KindOf, KindCode, Vlen, Kflag, Bytes, Flat;
    BytesOfThree([t.name, InfoOf(t), t.st]);
    BytesOfThree([t.name, info, t.st]);
    SecondWord(Word(t.name), Word(InfoOf(t)), Word(t.st), Bytes(t.extra), Bytes(Flat(t.elems)), Word(info));
  }

  lemma SecondWord(a: seq<Byte>, b: seq<Byte>, c: seq<Byte>, x: seq<Byte>, y: seq<Byte>, b': seq<Byte>)
    requires |a| == |b| == |c| == |b'| == 4
    ensures var rec := a + b + c + x + y; rec[..4] + b' + rec[8..] == a + b' + c + x + y
  {
  }

  lemma BytesOfThree(ws: seq<nat>)
    requires |ws| == 3 && FitWords(ws)
    ensures Bytes(ws) == Word(ws[0]) + Word(ws[1]) + Word(ws[2])
  {
    hide Word;
    var two := ws[..2];
    assert two[..1] == [ws[0]] && [ws[0]][..0] == [];
    assert Bytes([ws[0]]) == Word(ws[0]);
    assert Bytes(two) == Bytes(two[..1]) + Word(two[1]);
  }

  lemma EncodeGrown(t: Type, e: seq<nat>, flag: bool)
    requires Writable(t) && t.vlen < MAX_VLEN && |e| == ElemWords(t.kind) > 0 && FitWords(e)
    ensures Writable(Grown(t, e, flag)) && |Encode(t)| >= HEADER_SIZE
    ensures Encode(Grown(t, e, flag)) == WithInfo(Encode(t), InfoOf(Grown(t, e, flag))) + Bytes(e)
  {
    hide Word, MakeInfo, CodeOf, KindOf, KindCode, Vlen, Kflag, Encode, Bytes, WithInfo, Flat;
    var t' := Grown(t, e, flag);
    FlatSnoc(t.elems, e);
    BytesTogether(Flat(t.elems), e);
    EncodeParts(t, InfoOf(t'));
    WrittenAs(t');
    Regroup([], Bytes([t'.name, InfoOf(t'), t'.st]), Bytes(t.extra), Bytes(Flat(t.elems)), Bytes(e));
    assert Encode(t') == Bytes([t'.name, InfoOf(t'), t'.st]) + Bytes(t.extra) + (Bytes(Flat(t.elems)) + Bytes(e));
  }

  lemma WrittenAs(t: Type)
    requires Writable(t)
    ensures Encode(t) == Bytes([t.name, InfoOf(t), t.st]) + Bytes(t.extra) + Bytes(Flat(t.elems))
  {
  }

  // ----- the object under construction -----

  class Builder {
    const lay: Option<seq<Layout>>
    const startId: nat
    /** Type bytes, with room behind the first `typeLen` of them. */
    var mem: seq<Byte>
    var typeLen: nat
    /** Where types start; `spare` is the memory of the index behind that. */
    var offs: seq<nat>
    var spare: seq<nat>

    ghost predicate Valid()
      reads this
    {
      typeLen <= |mem| && Starts(mem[..typeLen], lay, 0, typeLen, 0) == Some(offs) && |offs| + |spare| <= MAX_TYPES
    }

    /** The type bytes that can be seen. */
    ghost function Types(): seq<Byte>
      reads this
      requires typeLen <= |mem|
    {
      mem[..typeLen]
    }

    /** Nothing that a call needs from its surroundings is missing. */
    ghost predicate Room(env: Env, n: nat)
      reads this
    {
      env.name.Some? && RoomFor(env, n, 1)
    }

    ghost predicate RoomFor(env: Env, n: nat, cnt: nat)
      reads this
    {
      env.typeMem && env.idxMem && typeLen + n <= MAX_TYPE_BYTES && |offs| + cnt <= MAX_TYPES
    }

    /** The last type has as many elements as can be counted. */
    ghost predicate Full()
      reads this
      requires Valid()
    {
      offs != [] && Vlen(LastInfo()) == MAX_VLEN
    }

    constructor (lay: Option<seq<Layout>>, startId: nat)
      ensures Valid() && this.lay == lay && this.startId == startId && Types() == [] && offs == []
    {
      this.lay, this.startId, mem, typeLen, offs, spare := lay, startId, [], 0, [], [];
    }

    /** Make room for more type bytes. */
    method AddTypeMem(size: nat, got: bool) returns (ok: bool)
      requires Valid()
      modifies `mem
      ensures Valid() && Types() == old(Types())
      ensures ok ==> typeLen + size <= |mem|
      ensures got && typeLen + size <= MAX_TYPE_BYTES ==> ok
    {
      hide Starts;
      if typeLen + size <= |mem| {
        return true;
      }
      if typeLen + size > MAX_TYPE_BYTES || !got {
        return false;
      }
      var more := seq(typeLen + size - |mem|, _ => 0);
      assert (mem + more)[..typeLen] == mem[..typeLen];
      mem := mem + more;
      ok := true;
    }

    /** Take up the bytes written behind the last type as a new type. */
    method CommitType(size: nat, got: bool, ghost t: Type) returns (r: Outcome)
      requires Valid() && typeLen + size <= |mem| && Writable(t) && mem[typeLen..typeLen + size] == Encode(t)
      modifies this
      ensures Valid() && (r.Err? ==> r.error == NoMem && Types() == old(Types()) && offs == old(offs))
      ensures r.Ok? ==>
        r.id == startId + |old(offs)| && offs == old(offs) + [old(typeLen)] && Types() == old(Types()) + Encode(t)
      ensures got && |old(offs)| < MAX_TYPES ==> r.Ok?
    {
      hide Starts, Encode;
      if spare == [] {
        if |offs| + 1 > MAX_TYPES || !got {
          return Err(NoMem);
        }
        spare := [0];
      }
      EncodeSize(t, lay);
      StartsAppended(mem[..typeLen], Encode(t), lay, 0, offs);
      assert mem[..typeLen + size] == mem[..typeLen] + mem[typeLen..typeLen + size];
      offs, spare := offs + [typeLen], spare[1..];
      typeLen := typeLen + size;
      r := Ok(startId + |offs| - 1);
    }

    /** Append a type. Nothing changes unless it is complete. */
    method NewType(t: Type, env: Env, named: bool) returns (r: Outcome)
      requires Valid() && (named ==> env.name.Some? ==> env.name.value < WORD_LIMIT)
      requires Writable(t) && t.name == 0
      modifies this
      ensures Valid() && (r.Err? ==> r.error == NoMem && Types() == old(Types()) && offs == old(offs))
      ensures r.Ok? ==>
        (named ==> env.name.Some?) && Appended(old(Types()), old(offs),
        if named then t.(name := env.name.value) else t, Types(), offs)
      ensures r.Ok? ==> r.id == startId + |old(offs)|
      ensures t.elems == [] && old(Room(env, NEW_BYTES)) ==> r.Ok?
    {
      hide Starts, Encode, Writable;
      EncodeSize(t, lay);
      if t.elems == [] {
        SmallType(t);
      }
      var got := AddTypeMem(|Encode(t)|, env.typeMem);
      if !got {
        return Err(NoMem);
      }
      if named && env.name.None? {
        return Err(NoMem);
      }
      var t' := if named then t.(name := env.name.value) else t;
      Renamed(t, t');
      var rec := Encode(t');
      mem := mem[..typeLen] + rec + mem[typeLen + |rec|..];
      assert mem[..typeLen] == old(Types());
      r := CommitType(|rec|, env.idxMem, t');
    }

    /** The second header word of the last type. */
    function LastInfo(): (info: nat)
      reads this
      requires Valid() && offs != []
      ensures info < WORD_LIMIT
    {
      StartsDropped(mem[..typeLen], lay, 0, offs);
      Load(mem[..typeLen], offs[|offs| - 1] + INFO_OFF)
    }

    /** Append an element to the last type. Nothing changes unless it is complete. */
    method NewElem(e: seq<nat>, flag: bool, env: Env, named: bool) returns (r: Outcome)
      requires Valid() && offs != [] && FitWords(e) && (named ==> env.name.Some? ==> env.name.value < WORD_LIMIT)
      requires Known(LastInfo()) && |e| == ElemWords(KindOf(KindCode(LastInfo()))) > 0
      modifies this
      ensures Valid() && offs == old(offs) && (r.Err? ==> Types() == old(Types()))
      ensures r.Ok? ==>
        (named ==> env.name.Some?) &&
        ElemAdded(old(Types()), old(offs), if named then e[0 := env.name.value] else e, flag, Types())
      ensures r.Err? ==> r.error == NoMem || (r.error == NoSpace && old(Full()))
      ensures old(Room(env, ELEM_BYTES)) ==> r != Err(NoMem)
    {
      hide Starts, Encode, Load, KindOf, KindCode, Vlen, Kflag, Word, FitWords, Known, ElemAdded, Bytes;
      var at, info := offs[|offs| - 1], LastInfo();
      StartsDropped(mem[..typeLen], lay, 0, offs);
      var got := AddTypeMem(4 * |e|, env.typeMem);
      if !got || (named && env.name.None?) {
        return Err(NoMem);
      }
      var e' := if named then e[0 := env.name.value] else e;
      Fitting(e, e');
      mem := mem[..typeLen] + Bytes(e') + mem[typeLen + 4 * |e|..];
      assert mem[..typeLen] == old(Types());
      if Vlen(info) == MAX_VLEN {
        return Err(NoSpace);
      }
      GrownBytes(mem, lay, offs, typeLen, e', flag);
      mem := mem[..at + INFO_OFF] + Word(MakeInfo(KindCode(info), Vlen(info) + 1, Kflag(info) ||
        flag)) + mem[at + INFO_OFF + 4..];
      typeLen := typeLen + 4 * |e|;
      r := Ok(0);
    }

    /** Change the flag and the count of the last type, which has no elements. */
    method SetLastInfo(vlen: nat, kflag: bool, ghost was: seq<Byte>, ghost t: Type)
      requires Valid() && offs != [] && offs[|offs| - 1] == |was| && Writable(t) && Types() == was + Encode(t)
      requires ElemWords(t.kind) == 0 && vlen < VLENS
      modifies `mem
      ensures Valid() && Writable(t.(vlen := vlen, kflag := kflag)) &&
        Types() == was + Encode(t.(vlen := vlen, kflag := kflag))
    {
      hide Starts, Encode, Load, KindOf, KindCode, Vlen, Kflag, Word, FitWords, Bytes, Flat;
      var at := offs[|offs| - 1];
      InfoRead(was, t);
      var info := MakeInfo(KindCode(Load(mem[..typeLen], at + INFO_OFF)), vlen, kflag);
      Reflagged(was, lay, offs, t, vlen, kflag, info);
      PatchedInfo(mem, at, typeLen, [], info);
      assert mem[at..typeLen] == (was + Encode(t))[|was|..] == Encode(t) && mem[..at] == was;
      assert WithInfo(Encode(t), info) + [] == WithInfo(Encode(t), info);
      mem := mem[..at + INFO_OFF] + Word(info) + mem[at + INFO_OFF + 4..];
    }

    // ----- many types at once -----

    /** The bytes behind those that can be seen. */
    ghost function Behind(n: nat): seq<Byte>
      reads this
      requires typeLen + n <= |mem|
    {
      mem[typeLen..typeLen + n]
    }

    /** Make room for the bytes of several types, and for their starts. */
    method Reserve(n: nat, cnt: nat, typeMem: bool, idxMem: bool) returns (ok: bool)
      requires Valid()
      modifies `mem, `spare
      ensures Valid() && Types() == old(Types())
      ensures ok ==> typeLen + n <= |mem| && cnt <= |spare|
      ensures typeMem && idxMem && typeLen + n <= MAX_TYPE_BYTES && |offs| + cnt <= MAX_TYPES ==> ok
    {
      hide Starts;
      var got := AddTypeMem(n, typeMem);
      if !got {
        return false;
      }
      if |spare| < cnt {
        if |offs| + cnt > MAX_TYPES || !idxMem {
          return false;
        }
        spare := spare + seq(cnt - |spare|, _ => 0);
      }
      ok := true;
    }

    /** Bring in the bytes of several types; nothing of that can be seen. */
    method Fill(bytes: seq<Byte>)
      requires Valid() && typeLen + |bytes| <= |mem|
      modifies `mem
      ensures Valid() && Types() == old(Types()) && |mem| == old(|mem|) && Behind(|bytes|) == bytes
    {
      hide Starts;
      ghost var was := mem[..typeLen];
      mem := mem[..typeLen] + bytes + mem[typeLen + |bytes|..];
      assert mem[..typeLen] == was;
    }

    /** The types `done` are behind the visible ones, with their starts. */
    ghost predicate Written(done: seq<Type>, at: nat)
      reads this
    {
      && typeLen + at <= |mem| && |done| <= |spare| && AllWritable(done) && at == |EncodeAll(done)|
      && Behind(at) == EncodeAll(done)
      && Starts(Types() + EncodeAll(done), lay, 0, typeLen + at, 0) == Some(offs + spare[..|done|])
      && forall k :: 0 <= k < |done| ==> spare[k] >= typeLen
    }

    lemma NoneWritten()
      requires Valid()
      ensures Written([], 0)
    {
      hide Starts;
      assert offs + spare[..0] == offs && Types() + [] == Types();
    }

    /** Write one more type there. */
    method Write(ghost done: seq<Type>, at: nat, i: nat, t: Type) returns (at': nat)
      requires Valid() && Written(done, at) && Writable(t)
      requires i == |done| < |spare| && typeLen + at + |Encode(t)| <= |mem|
      modifies `mem, `spare
      ensures Valid() && Types() == old(Types()) && |mem| == old(|mem|) && |spare| == old(|spare|)
      ensures Written(done + [t], at') && at' == at + |Encode(t)| && mem[typeLen + at'..] == old(mem)[typeLen + at'..]
    {
      hide Starts, Encode, EncodeAll, AllWritable;
      var rec := Encode(t);
      ghost var was, mem0, spare0 := Types(), mem, spare;
      EncodedSnoc(done, t);
      EncodeSize(t, lay);
      StartsAppended(was + EncodeAll(done), rec, lay, 0, offs + spare[..i]);
      mem := mem[..typeLen + at] + rec + mem[typeLen + at + |rec|..];
      spare := spare[i := typeLen + at];
      BehindGrows(mem0, mem, typeLen, at, rec);
      assert mem[..typeLen] == was;
      assert offs + spare[..i + 1] == offs + spare0[..i] + [typeLen + at];
      assert was + EncodeAll(done + [t]) == was + EncodeAll(done) + rec;
      at' := at + |rec|;
    }

    /** Clear the bytes again. */
    method ClearBehind(n: nat)
      requires Valid() && typeLen + n <= |mem|
      modifies `mem
      ensures Valid() && Types() == old(Types())
    {
      hide Starts;
      ghost var was := mem[..typeLen];
      mem := mem[..typeLen] + seq(n, _ => 0) + mem[typeLen + n..];
      assert mem[..typeLen] == was;
    }

    /** Let all of them be seen. */
    method CommitAll(n: nat, cnt: nat, ghost ts: seq<Type>)
      requires Valid() && Written(ts, n) && cnt == |ts|
      modifies this
      ensures Valid() && AllWritable(ts) && Types() == old(Types()) + EncodeAll(ts) && old(offs) <= offs &&
        |offs| == |old(offs)| + cnt
      ensures forall k :: |old(offs)| <= k < |offs| ==> offs[k] >= old(typeLen)
    {
      hide Starts, EncodeAll, AllWritable;
      assert mem[..typeLen + n] == mem[..typeLen] + mem[typeLen..typeLen + n];
      typeLen := typeLen + n;
      offs, spare := offs + spare[..cnt], spare[cnt..];
    }

    // ----- the calls -----

    method AddInt(named: bool, byteSz: nat, encoding: nat, env: Env) returns (r: Outcome)
      requires Valid() && Sane(env)
      modifies this
      ensures Valid() && (r.Err? ==> Types() == old(Types()) && offs == old(offs))
      ensures r == Err(Inval) <==> !named || byteSz !in {1, 2, 4, 8, 16} || encoding >= 8
      ensures r.Ok? ==> env.name.Some? && r.id == startId + |old(offs)| && Appended(old(Types()), old(offs),
        Type(Int, false, 0, env.name.value, byteSz, [encoding * 0x100_0000 + byteSz * 8], []), Types(), offs)
      ensures old(Room(env, NEW_BYTES)) ==> r != Err(NoMem)
      ensures r.Err? ==> r.error == Inval || r.error == NoMem
    {
      hide Starts, Encode, Appended;
      if !named || byteSz !in {1, 2, 4, 8, 16} || encoding >= 8 {
        return Err(Inval);
      }
      r := NewType(Type(Int, false, 0, 0, byteSz, [encoding * 0x100_0000 + byteSz * 8], []), env, true);
    }

    /** A type that is a reference: a pointer, an alias, a qualifier, a tag, a function or a forward declaration. */
    method AddRefKind(kind: Kind, named: bool, ref: int, kflag: bool, env: Env) returns (r: Outcome)
      requires Valid() && Sane(env) && RefInHeader(kind) && InfoWords(kind) == 0 == ElemWords(kind)
      modifies this
      ensures Valid() && (r.Err? ==> Types() == old(Types()) && offs == old(offs))
      ensures r == Err(Inval) <==> ref < 0 || ref > MAX_TYPES
      ensures r.Ok? ==> (named ==> env.name.Some?) && r.id == startId + |old(offs)| && Appended(old(Types()), old(offs),
        Type(kind, kflag, 0, if named then env.name.value else 0, ref, [], []), Types(), offs)
      ensures old(Room(env, NEW_BYTES)) ==> r != Err(NoMem)
      ensures r.Err? ==> r.error == Inval || r.error == NoMem
    {
      hide Starts, Encode, Appended;
      if ref < 0 || ref > MAX_TYPES {
        return Err(Inval);
      }
      r := NewType(Type(kind, kflag, 0, 0, ref, [], []), env, named);
    }

    /** A forward declaration, which is flagged once it is there. */
    method AddFwd(named: bool, isUnion: bool, env: Env) returns (r: Outcome)
      requires Valid() && Sane(env)
      modifies this
      ensures Valid() && (r.Err? ==> Types() == old(Types()) && offs == old(offs))
      ensures r == Err(Inval) <==> !named
      ensures r.Ok? ==>
        env.name.Some? && Appended(old(Types()), old(offs), Type(Fwd, isUnion, 0, env.name.value, 0, [], []), Types(),
        offs)
      ensures old(Room(env, NEW_BYTES)) ==> r != Err(NoMem)
      ensures r.Err? ==> r.error == Inval || r.error == NoMem
      ensures r.Ok? ==> r.id == startId + |old(offs)|
    {
      hide Starts, Encode;
      if !named {
        return Err(Inval);
      }
      r := AddRefKind(Fwd, true, 0, false, env);
      if r.Ok? {
        SetLastInfo(0, isUnion, old(Types()), Type(Fwd, false, 0, env.name.value, 0, [], []));
      }
    }

    /** A function; its linkage takes the place of the count. */
    method AddFunc(named: bool, linkage: nat, proto: int, env: Env) returns (r: Outcome)
      requires Valid() && Sane(env)
      modifies this
      ensures Valid() && (r.Err? ==> Types() == old(Types()) && offs == old(offs))
      ensures r == Err(Inval) <==> !named || linkage > 2 || proto < 0 || proto > MAX_TYPES
      ensures r.Ok? ==>
        env.name.Some? && Appended(old(Types()), old(offs), Type(Func, false, linkage, env.name.value, proto, [], []),
        Types(), offs)
      ensures old(Room(env, NEW_BYTES)) ==> r != Err(NoMem)
      ensures r.Err? ==> r.error == Inval || r.error == NoMem
      ensures r.Ok? ==> r.id == startId + |old(offs)|
    {
      hide Starts, Encode;
      if !named || linkage > 2 {
        return Err(Inval);
      }
      r := AddRefKind(Func, true, proto, false, env);
      if r.Ok? {
        SetLastInfo(linkage, false, old(Types()), Type(Func, false, 0, env.name.value, proto, [], []));
      }
    }

    method AddArray(index: int, elem: int, n: nat, env: Env) returns (r: Outcome)
      requires Valid() && Sane(env) && n < WORD_LIMIT
      modifies this
      ensures Valid() && (r.Err? ==> Types() == old(Types()) && offs == old(offs))
      ensures r == Err(Inval) <==> index < 0 || index > MAX_TYPES || elem < 0 || elem > MAX_TYPES
      ensures r.Ok? ==>
        Appended(old(Types()), old(offs), Type(Array, false, 0, 0, 0, [elem, index, n], []), Types(), offs)
      ensures old(Room(env, NEW_BYTES)) ==> r != Err(NoMem)
      ensures r.Err? ==> r.error == Inval || r.error == NoMem
      ensures r.Ok? ==> r.id == startId + |old(offs)|
    {
      hide Starts, Encode, Appended;
      if index < 0 || index > MAX_TYPES || elem < 0 || elem > MAX_TYPES {
        return Err(Inval);
      }
      r := NewType(Type(Array, false, 0, 0, 0, [elem, index, n], []), env, false);
    }

    method AddComposite(kind: Kind, named: bool, byteSz: nat, env: Env) returns (r: Outcome)
      requires Valid() && Sane(env) && (kind.Struct? || kind.Union?) && byteSz < WORD_LIMIT
      modifies this
      ensures Valid() && (r.Err? ==> r.error == NoMem && Types() == old(Types()) && offs == old(offs))
      ensures r.Ok? ==> (named ==> env.name.Some?) && Appended(old(Types()), old(offs),
        Type(kind, false, 0, if named then env.name.value else 0, byteSz, [], []), Types(), offs)
      ensures old(Room(env, NEW_BYTES)) ==> r != Err(NoMem)
      ensures r.Err? ==> r.error == Inval || r.error == NoMem
      ensures r.Ok? ==> r.id == startId + |old(offs)|
    {
      hide Starts, Encode, Appended;
      r := NewType(Type(kind, false, 0, 0, byteSz, [], []), env, named);
    }

    /** A field of the struct or union that was added last. */
    method AddField(named: bool, ty: int, bitOff: nat, bitSize: nat, env: Env) returns (r: Outcome)
      requires Valid() && Sane(env) && bitOff < WORD_LIMIT && bitSize < WORD_LIMIT
      modifies this
      ensures Valid() && offs == old(offs) && (r.Err? ==> Types() == old(Types()))
      ensures r == Err(Inval) <==> !old(offs != [] && FieldFits(LastInfo(), ty, bitOff, bitSize))
      ensures r.Ok? ==> (named ==> env.name.Some?) && ty >= 0
      ensures r.Ok? ==>
        ElemAdded(old(Types()), offs, [if named then env.name.value else 0, ty, bitOff + bitSize * 0x100_0000],
        IsBitfield(bitOff, bitSize), Types())
      ensures old(Room(env, ELEM_BYTES)) ==> r != Err(NoMem)
      ensures r.Err? ==> r.error == Inval || r.error == NoMem || (r.error == NoSpace && old(Full()))
    {
      hide Starts, Encode, ElemAdded, KindCode, Vlen;
      if offs == [] || KindOf(KindCode(LastInfo())) !in {Struct, Union} {
        return Err(Inval);
      }
      if Vlen(LastInfo()) == MAX_VLEN {
        return Err(NoSpace);
      }
      if ty < 0 || ty > MAX_TYPES || !IsBitfieldOk(bitOff, bitSize) ||
        (KindOf(KindCode(LastInfo())).Union? && bitOff != 0) {
        return Err(Inval);
      }
      assert env.name.Some? ==>
        [0, ty, bitOff + bitSize * 0x100_0000][0 := env.name.value] ==
        [env.name.value, ty, bitOff + bitSize * 0x100_0000];
      r := NewElem([0, ty, bitOff + bitSize * 0x100_0000], IsBitfield(bitOff, bitSize), env, named);
    }

    method AddEnumCommon(kind: Kind, named: bool, byteSz: nat, signed: bool, env: Env) returns (r: Outcome)
      requires Valid() && Sane(env) && (kind.Enum? || kind.Enum64?)
      modifies this
      ensures Valid() && (r.Err? ==> Types() == old(Types()) && offs == old(offs))
      ensures r == Err(Inval) <==> byteSz !in {1, 2, 4, 8}
      ensures r.Ok? ==> (named ==> env.name.Some?) && Appended(old(Types()), old(offs),
        Type(kind, signed, 0, if named then env.name.value else 0, byteSz, [], []), Types(), offs)
      ensures old(Room(env, NEW_BYTES)) ==> r != Err(NoMem)
      ensures r.Err? ==> r.error == Inval || r.error == NoMem
      ensures r.Ok? ==> r.id == startId + |old(offs)|
    {
      hide Starts, Encode, Appended;
      if byteSz !in {1, 2, 4, 8} {
        return Err(Inval);
      }
      r := NewType(Type(kind, signed, 0, 0, byteSz, [], []), env, named);
    }

    /** A value of the enum that was added last. A negative one makes the enum signed. */
    method AddEnumValue(named: bool, value: int, env: Env) returns (r: Outcome)
      requires Valid() && Sane(env)
      modifies this
      ensures Valid() && offs == old(offs) && (r.Err? ==> Types() == old(Types()))
      ensures r == Err(Inval) <==> !named || !old(offs != [] && KindOf(KindCode(LastInfo())).Enum?)
      ensures r.Ok? ==> env.name.Some? && -0x8000_0000 <= value < WORD_LIMIT
      ensures r.Ok? ==> ElemAdded(old(Types()), offs, [env.name.value, value % WORD_LIMIT], value < 0, Types())
      ensures old(Room(env, ELEM_BYTES)) ==> r != Err(NoMem)
      ensures r.Err? ==> r.error in {Inval, NoMem, NoSpace, TooBig} && (r.error == NoSpace ==> old(Full()))
      ensures r == Err(TooBig) ==> !(-0x8000_0000 <= value < WORD_LIMIT)
    {
      hide Starts, Encode, ElemAdded, KindCode, Vlen;
      if offs == [] || !KindOf(KindCode(LastInfo())).Enum? || !named {
        return Err(Inval);
      }
      if value < -0x8000_0000 || value >= WORD_LIMIT {
        return Err(TooBig);
      }
      assert env.name.Some? ==> [0, value % WORD_LIMIT][0 := env.name.value] == [env.name.value, value % WORD_LIMIT];
      r := NewElem([0, value % WORD_LIMIT], value < 0, env, true);
    }

    method AddEnum64Value(named: bool, value: nat, env: Env) returns (r: Outcome)
      requires Valid() && Sane(env) && value < WORD_LIMIT * WORD_LIMIT
      modifies this
      ensures Valid() && offs == old(offs) && (r.Err? ==> Types() == old(Types()))
      ensures r == Err(Inval) <==> !named || !old(offs != [] && KindOf(KindCode(LastInfo())).Enum64?)
      ensures r.Ok? ==>
        env.name.Some? && ElemAdded(old(Types()), offs, [env.name.value, value % WORD_LIMIT, value / WORD_LIMIT],
        false, Types())
      ensures old(Room(env, ELEM_BYTES)) ==> r != Err(NoMem)
      ensures r.Err? ==> r.error == Inval || r.error == NoMem || (r.error == NoSpace && old(Full()))
    {
      hide Starts, Encode, ElemAdded, KindCode, Vlen;
      if offs == [] || !KindOf(KindCode(LastInfo())).Enum64? || !named {
        return Err(Inval);
      }
      assert env.name.Some? ==>
        [0, value % WORD_LIMIT, value / WORD_LIMIT][0 := env.name.value] ==
        [env.name.value, value % WORD_LIMIT, value / WORD_LIMIT];
      r := NewElem([0, value % WORD_LIMIT, value / WORD_LIMIT], false, env, true);
    }

    method AddFuncProto(ret: int, env: Env) returns (r: Outcome)
      requires Valid() && Sane(env)
      modifies this
      ensures Valid() && (r.Err? ==> Types() == old(Types()) && offs == old(offs))
      ensures r == Err(Inval) <==> ret < 0 || ret > MAX_TYPES
      ensures r.Ok? ==> Appended(old(Types()), old(offs), Type(FuncProto, false, 0, 0, ret, [], []), Types(), offs)
      ensures old(Room(env, NEW_BYTES)) ==> r != Err(NoMem)
      ensures r.Err? ==> r.error == Inval || r.error == NoMem
      ensures r.Ok? ==> r.id == startId + |old(offs)|
    {
      hide Starts, Encode, Appended;
      if ret < 0 || ret > MAX_TYPES {
        return Err(Inval);
      }
      r := NewType(Type(FuncProto, false, 0, 0, ret, [], []), env, false);
    }

    /** A parameter of the prototype that was added last. */
    method AddFuncParam(named: bool, ty: int, env: Env) returns (r: Outcome)
      requires Valid() && Sane(env)
      modifies this
      ensures Valid() && offs == old(offs) && (r.Err? ==> Types() == old(Types()))
      ensures r == Err(Inval) <==>
        ty < 0 || ty > MAX_TYPES || !old(offs != [] && KindOf(KindCode(LastInfo())).FuncProto?)
      ensures r.Ok? ==>
        (named ==> env.name.Some?) && ElemAdded(old(Types()), offs, [if named then env.name.value else 0, ty], false,
        Types())
      ensures old(Room(env, ELEM_BYTES)) ==> r != Err(NoMem)
      ensures r.Err? ==> r.error == Inval || r.error == NoMem || (r.error == NoSpace && old(Full()))
    {
      hide Starts, Encode, ElemAdded, KindCode, Vlen;
      if ty < 0 || ty > MAX_TYPES || offs == [] || !KindOf(KindCode(LastInfo())).FuncProto? {
        return Err(Inval);
      }
      assert env.name.Some? ==> [0, ty][0 := env.name.value] == [env.name.value, ty];
      r := NewElem([0, ty], false, env, named);
    }

    method AddFloat(named: bool, byteSz: nat, env: Env) returns (r: Outcome)
      requires Valid() && Sane(env)
      modifies this
      ensures Valid() && (r.Err? ==> Types() == old(Types()) && offs == old(offs))
      ensures r == Err(Inval) <==> !named || byteSz !in {2, 4, 8, 12, 16}
      ensures r.Ok? ==>
        env.name.Some? && Appended(old(Types()), old(offs), Type(Float, false, 0, env.name.value, byteSz, [], []),
        Types(), offs)
      ensures old(Room(env, NEW_BYTES)) ==> r != Err(NoMem)
      ensures r.Err? ==> r.error == Inval || r.error == NoMem
      ensures r.Ok? ==> r.id == startId + |old(offs)|
    {
      hide Starts, Encode, Appended;
      if !named || byteSz !in {2, 4, 8, 12, 16} {
        return Err(Inval);
      }
      r := NewType(Type(Float, false, 0, 0, byteSz, [], []), env, true);
    }

    method AddVar(named: bool, linkage: nat, ty: int, env: Env) returns (r: Outcome)
      requires Valid() && Sane(env)
      modifies this
      ensures Valid() && (r.Err? ==> Types() == old(Types()) && offs == old(offs))
      ensures r == Err(Inval) <==> !named || linkage > 2 || ty < 0 || ty > MAX_TYPES
      ensures r.Ok? ==>
        env.name.Some? && Appended(old(Types()), old(offs), Type(Var, false, 0, env.name.value, ty, [linkage], []),
        Types(), offs)
      ensures old(Room(env, NEW_BYTES)) ==> r != Err(NoMem)
      ensures r.Err? ==> r.error == Inval || r.error == NoMem
      ensures r.Ok? ==> r.id == startId + |old(offs)|
    {
      hide Starts, Encode, Appended;
      if !named || linkage > 2 || ty < 0 || ty > MAX_TYPES {
        return Err(Inval);
      }
      r := NewType(Type(Var, false, 0, 0, ty, [linkage], []), env, true);
    }

    /** A section, of data or of locations, that has no entries yet. */
    method AddSection(kind: Kind, named: bool, byteSz: nat, env: Env) returns (r: Outcome)
      requires Valid() && Sane(env) && byteSz < WORD_LIMIT && (kind.Datasec? || (kind.Locsec? && byteSz == 0))
      modifies this
      ensures Valid() && (r.Err? ==> Types() == old(Types()) && offs == old(offs))
      ensures r == Err(Inval) <==> !named
      ensures r.Ok? ==>
        env.name.Some? && Appended(old(Types()), old(offs), Type(kind, false, 0, env.name.value, byteSz, [], []),
        Types(), offs)
      ensures old(Room(env, NEW_BYTES)) ==> r != Err(NoMem)
      ensures r.Err? ==> r.error == Inval || r.error == NoMem
      ensures r.Ok? ==> r.id == startId + |old(offs)|
    {
      hide Starts, Encode, Appended;
      if !named {
        return Err(Inval);
      }
      r := NewType(Type(kind, false, 0, 0, byteSz, [], []), env, true);
    }

    method AddDatasecVarInfo(ty: int, offset: nat, size: nat, env: Env) returns (r: Outcome)
      requires Valid() && Sane(env) && offset < WORD_LIMIT && size < WORD_LIMIT
      modifies this
      ensures Valid() && offs == old(offs) && (r.Err? ==> Types() == old(Types()))
      ensures r == Err(Inval) <==> ty < 0 || ty > MAX_TYPES || !old(offs != [] && KindOf(KindCode(LastInfo())).Datasec?)
      ensures r.Ok? ==> ElemAdded(old(Types()), offs, [ty, offset, size], false, Types())
      ensures old(Room(env, ELEM_BYTES)) ==> r != Err(NoMem)
      ensures r.Err? ==> r.error == Inval || r.error == NoMem || (r.error == NoSpace && old(Full()))
    {
      hide Starts, Encode, ElemAdded, KindCode, Vlen;
      if offs == [] || !KindOf(KindCode(LastInfo())).Datasec? || ty < 0 || ty > MAX_TYPES {
        return Err(Inval);
      }
      r := NewElem([ty, offset, size], false, env, false);
    }

    /** A tag on a declaration, or with the flag an attribute of it; component -1 is the declaration itself. */
    method AddDeclTag(named: bool, ref: int, component: int, kflag: bool, env: Env) returns (r: Outcome)
      requires Valid() && Sane(env) && component < 0x8000_0000
      modifies this
      ensures Valid() && (r.Err? ==> Types() == old(Types()) && offs == old(offs))
      ensures r == Err(Inval) <==> !named || component < -1 || ref < 0 || ref > MAX_TYPES
      ensures r.Ok? ==> env.name.Some? && Appended(old(Types()), old(offs),
        Type(DeclTag, kflag, 0, env.name.value, ref, [component % WORD_LIMIT], []), Types(), offs)
      ensures old(Room(env, NEW_BYTES)) ==> r != Err(NoMem)
      ensures r.Err? ==> r.error == Inval || r.error == NoMem
      ensures r.Ok? ==> r.id == startId + |old(offs)|
    {
      hide Starts, Encode, Appended;
      if !named || component < -1 || ref < 0 || ref > MAX_TYPES {
        return Err(Inval);
      }
      r := NewType(Type(DeclTag, kflag, 0, 0, ref, [component % WORD_LIMIT], []), env, true);
    }

    method AddLocParam(byteSz: nat, flags: nat, env: Env) returns (r: Outcome)
      requires Valid() && Sane(env) && flags < WORD_LIMIT
      modifies this
      ensures Valid() && (r.Err? ==> Types() == old(Types()) && offs == old(offs))
      ensures r == Err(Inval) <==> byteSz == 0 || byteSz > 16
      ensures r.Ok? ==>
        Appended(old(Types()), old(offs), Type(LocParam, false, 0, 0, byteSz, [flags], []), Types(), offs)
      ensures old(Room(env, NEW_BYTES)) ==> r != Err(NoMem)
      ensures r.Err? ==> r.error == Inval || r.error == NoMem
      ensures r.Ok? ==> r.id == startId + |old(offs)|
    {
      hide Starts, Encode, Appended;
      if byteSz == 0 || byteSz > 16 {
        return Err(Inval);
      }
      r := NewType(Type(LocParam, false, 0, 0, byteSz, [flags], []), env, false);
    }

    method AddLocParamValue(value: nat, env: Env) returns (r: Outcome)
      requires Valid() && Sane(env) && value < WORD_LIMIT
      modifies this
      ensures Valid() && offs == old(offs) && (r.Err? ==> Types() == old(Types()))
      ensures r == Err(Inval) <==> !old(offs != [] && KindOf(KindCode(LastInfo())).LocParam?)
      ensures r.Ok? ==> ElemAdded(old(Types()), offs, [value], false, Types())
      ensures old(Room(env, ELEM_BYTES)) ==> r != Err(NoMem)
      ensures r.Err? ==> r.error == Inval || r.error == NoMem || (r.error == NoSpace && old(Full()))
    {
      hide Starts, Encode, ElemAdded, KindCode, Vlen;
      if offs == [] || !KindOf(KindCode(LastInfo())).LocParam? {
        return Err(Inval);
      }
      r := NewElem([value], false, env, false);
    }

    method AddLocProto(env: Env) returns (r: Outcome)
      requires Valid() && Sane(env)
      modifies this
      ensures Valid() && (r.Err? ==> r.error == NoMem && Types() == old(Types()) && offs == old(offs))
      ensures r.Ok? ==> Appended(old(Types()), old(offs), Type(LocProto, false, 0, 0, 0, [], []), Types(), offs)
      ensures old(Room(env, NEW_BYTES)) ==> r != Err(NoMem)
      ensures r.Err? ==> r.error == Inval || r.error == NoMem
      ensures r.Ok? ==> r.id == startId + |old(offs)|
    {
      hide Starts, Encode, Appended;
      r := NewType(Type(LocProto, false, 0, 0, 0, [], []), env, false);
    }

    method AddLocProtoParam(id: nat, env: Env) returns (r: Outcome)
      requires Valid() && Sane(env)
      modifies this
      ensures Valid() && offs == old(offs) && (r.Err? ==> Types() == old(Types()))
      ensures r == Err(Inval) <==> id > MAX_TYPES || !old(offs != [] && KindOf(KindCode(LastInfo())).LocProto?)
      ensures r.Ok? ==> ElemAdded(old(Types()), offs, [id], false, Types())
      ensures old(Room(env, ELEM_BYTES)) ==> r != Err(NoMem)
      ensures r.Err? ==> r.error == Inval || r.error == NoMem || (r.error == NoSpace && old(Full()))
    {
      hide Starts, Encode, ElemAdded, KindCode, Vlen;
      if id > MAX_TYPES || offs == [] || !KindOf(KindCode(LastInfo())).LocProto? {
        return Err(Inval);
      }
      r := NewElem([id], false, env, false);
    }

    method AddLocsecLoc(func: nat, proto: nat, offset: nat, env: Env) returns (r: Outcome)
      requires Valid() && Sane(env) && offset < WORD_LIMIT
      modifies this
      ensures Valid() && offs == old(offs) && (r.Err? ==> Types() == old(Types()))
      ensures r == Err(Inval) <==>
        func > MAX_TYPES || proto > MAX_TYPES || !old(offs != [] && KindOf(KindCode(LastInfo())).Locsec?)
      ensures r.Ok? ==> ElemAdded(old(Types()), offs, [func, proto, offset], false, Types())
      ensures old(Room(env, ELEM_BYTES)) ==> r != Err(NoMem)
      ensures r.Err? ==> r.error == Inval || r.error == NoMem || (r.error == NoSpace && old(Full()))
    {
      hide Starts, Encode, ElemAdded, KindCode, Vlen;
      if func > MAX_TYPES || proto > MAX_TYPES || offs == [] || !KindOf(KindCode(LastInfo())).Locsec? {
        return Err(Inval);
      }
      r := NewElem([func, proto, offset], false, env, false);
    }

    /** A copy of a type of another object, which has its strings here by now. The kind may turn out not to be
        known after the bytes have been copied. */
    method AddType(t: Type, known: bool, env: Env) returns (r: Outcome)
      requires Valid() && Sane(env) && Writable(t)
      modifies this
      ensures Valid() && (r.Err? ==> Types() == old(Types()) && offs == old(offs))
      ensures r == Err(Inval) ==> !known
      ensures r.Ok? ==>
        known && env.name.Some? && r.id == startId + |old(offs)| && Appended(old(Types()), old(offs), t, Types(), offs)
      ensures known && old(Room(env, |Encode(t)|)) ==> r.Ok?
    {
      hide Starts, Encode, Writable;
      EncodeSize(t, lay);
      var rec := Encode(t);
      var got := AddTypeMem(|rec|, env.typeMem);
      if !got {
        return Err(NoMem);
      }
      mem := mem[..typeLen] + rec + mem[typeLen + |rec|..];
      assert mem[..typeLen] == old(Types());
      if !known {
        return Err(Inval);
      }
      if env.name.None? {
        return Err(NoMem);
      }
      r := CommitType(|rec|, env.idxMem, t);
    }

    /** Copies of all types of another object. They are brought in together and then rewritten one by one; the
        one at `stop`, if any, cannot be. */
    method AddAll(bytes: seq<Byte>, ts: seq<Type>, stop: nat, env: Env) returns (r: Outcome)
      requires Valid() && Sane(env) && AllWritable(ts) && |bytes| == |EncodeAll(ts)|
      modifies this
      ensures Valid() && (r.Err? ==> Types() == old(Types()) && offs == old(offs))
      ensures r.Ok? ==>
        |ts| <= stop && r.id == startId + |old(offs)| && |offs| == |old(offs)| + |ts| &&
        Types() == old(Types()) + EncodeAll(ts)
      ensures old(offs) <= offs && forall k :: |old(offs)| <= k < |offs| ==> offs[k] >= old(typeLen)
      ensures |ts| <= stop && old(RoomFor(env, |bytes|, |ts|)) ==> r.Ok?
    {
      hide Starts, Encode, EncodeAll, AllWritable, Builder.Written;
      var got := Reserve(|bytes|, |ts|, env.typeMem, env.idxMem);
      if !got {
        return Err(NoMem);
      }
      Fill(bytes);
      var i, at := 0, 0;
      NoneWritten();
      NoneEncoded();
      assert ts[..0] == [];
      while i < |ts|
        invariant 0 <= i <= |ts| && i <= stop && Valid() && Types() == old(Types()) && offs == old(offs)
        invariant typeLen + |bytes| <= |mem| && |ts| <= |spare|
        invariant AllWritable(ts[..i]) && at == |EncodeAll(ts[..i])| <= |bytes| && Written(ts[..i], at)
      {
        if i == stop {
          ClearBehind(|bytes|);
          return Err(NoMem);
        }
        EncodedNext(ts, i);
        assert ts[..i + 1] == ts[..i] + [ts[i]];
        at := Write(ts[..i], at, i, ts[i]);
        i := i + 1;
      }
      assert ts[..i] == ts;
      var id := startId + |offs|;
      CommitAll(|bytes|, |ts|, ts);
      r := Ok(id);
    }
  }

  lemma SmallType(t: Type)
    requires Writable(t) && t.elems == []
    ensures |Encode(t)| <= NEW_BYTES
  {
    hide Encode, KindOf, KindCode, Kflag, Vlen;
    DecodeEncode([], t, []);
    RestSplit(InfoOf(t), 0);
  }

  /** One more type at the end. */
  ghost predicate Appended(was: seq<Byte>, offs: seq<nat>, t: Type, now: seq<Byte>, offs': seq<nat>) {
    Writable(t) && now == was + Encode(t) && offs' == offs + [|was|]
  }

  lemma Renamed(t: Type, t': Type)
    requires Writable(t) && t'.name < WORD_LIMIT && t' == t.(name := t'.name)
    ensures Writable(t') && |Encode(t')| == |Encode(t)|
  {
  }

  /** The last type has one more element. */
  ghost predicate ElemAdded(was: seq<Byte>, offs: seq<nat>, e: seq<nat>, flag: bool, now: seq<Byte>) {
    && offs != [] && Decodable(was, offs[|offs| - 1])
    && var at := offs[|offs| - 1];
       var t := Grown(TypeAt(was, at), e, flag);
       Writable(t) && now == was[..at] + Encode(t)
  }

  lemma Fitting(e: seq<nat>, e': seq<nat>)
    requires FitWords(e) && |e'| == |e| && (e' == e || (e != [] && e'[0] < WORD_LIMIT && e' == e[0 := e'[0]]))
    ensures FitWords(e')
  {
  }

  /** A descriptor that fills the rest of a section. */
  ghost predicate IsLast(d: seq<Byte>, at: nat) {
    && Decodable(d, at) && Writable(TypeAt(d, at)) && d == d[..at] + Encode(TypeAt(d, at))
    && var info, t := Load(d, at + INFO_OFF), TypeAt(d, at);
      t.kind == KindOf(KindCode(info)) && t.vlen == Vlen(info) && t.kflag == Kflag(info)
  }

  /** The bytes of an element behind the last type, and a new second header word, make it one element longer. */
  lemma GrownBytes(mem: seq<Byte>, lay: Option<seq<Layout>>, offs: seq<nat>, typeLen: nat, e: seq<nat>, flag: bool)
    requires typeLen + 4 * |e| <= |mem| && Starts(mem[..typeLen], lay, 0, typeLen, 0) == Some(offs) && offs != []
    requires FitWords(e) && mem[typeLen..typeLen + 4 * |e|] == Bytes(e) && offs[|offs| - 1] + HEADER_SIZE <= typeLen
    requires var info := Load(mem[..typeLen], offs[|offs| - 1] + INFO_OFF);
      Known(info) && Vlen(info) < MAX_VLEN && |e| == ElemWords(KindOf(KindCode(info))) > 0
    ensures var at := offs[|offs| - 1]; var info := Load(mem[..typeLen], at + INFO_OFF);
      var now := mem[..at + INFO_OFF] + Word(MakeInfo(KindCode(info), Vlen(info) + 1, Kflag(info) ||
        flag)) + mem[at + INFO_OFF + 4..];
      var end := typeLen + 4 * |e|;
      |now| == |mem| && Starts(now[..end], lay, 0, end, 0) == Some(offs) &&
        ElemAdded(mem[..typeLen], offs, e, flag, now[..end])
  {
    hide Starts, Encode, Load, KindOf, KindCode, Vlen, Kflag, Word, Writable, FitWords, Decodable, TypeAt, Known, Flat,
      Bytes;
    var was, at := mem[..typeLen], offs[|offs| - 1];
    var info := Load(was, at + INFO_OFF);
    LastType(was, lay, offs);
    var t := TypeAt(was, at);
    var t' := Grown(t, e, flag);
    EncodeGrown(t, e, flag);
    EncodeSize(t', lay);
    var info' := MakeInfo(KindCode(info), Vlen(info) + 1, Kflag(info) || flag);
    InfoBack(info', t');
    StartsReplaced(was, lay, offs, Encode(t'));
    assert mem[at..typeLen] == Encode(t);
    PatchedInfo(mem, at, typeLen, Bytes(e), info');
    assert was[..at] == mem[..at];
  }

  /** The last type of a section, when it is of a known kind. */
  lemma LastType(d: seq<Byte>, lay: Option<seq<Layout>>, offs: seq<nat>)
    requires Starts(d, lay, 0, |d|, 0) == Some(offs) && offs != []
    ensures offs[|offs| - 1] + HEADER_SIZE <= |d|
    ensures Known(Load(d, offs[|offs| - 1] + INFO_OFF)) ==> IsLast(d, offs[|offs| - 1])
  {
    hide Starts, Encode, Load, KindOf, KindCode, Vlen, Kflag, Writable, Known, Chunks, RestWords;
    StartsDropped(d, lay, 0, offs);
    var at := offs[|offs| - 1];
    KnownSize(Load(d, at + INFO_OFF), lay);
    if Known(Load(d, at + INFO_OFF)) {
      EncodeDecode(d, at);
      assert d[at..] == d[at..|d|];
    }
  }

  /** Changing the second header word of the last type, with more bytes behind it. */
  lemma PatchedInfo(mem: seq<Byte>, at: nat, end: nat, more: seq<Byte>, info: nat)
    requires at + HEADER_SIZE <= end && end + |more| <= |mem| && mem[end..end + |more|] == more && info < WORD_LIMIT
    ensures (mem[..at + INFO_OFF] + Word(info) + mem[at + INFO_OFF + 4..])[..end + |more|] ==
      mem[..at] + (WithInfo(mem[at..end], info) + more)
  {
    hide Word;
  }

  predicate Sane(env: Env) {
    env.name.Some? ==> env.name.value < WORD_LIMIT
  }

  predicate IsBitfield(bitOff: nat, bitSize: nat) {
    bitSize != 0 || bitOff % 8 != 0
  }

  /** Bit-fields have a size and an offset that share one word. */
  predicate IsBitfieldOk(bitOff: nat, bitSize: nat) {
    IsBitfield(bitOff, bitSize) ==> 0 < bitSize <= 255 && bitOff <= 0xff_ffff
  }

  /** A field that the last type can take, or could if it were not full. */
  predicate FieldFits(info: nat, ty: int, bitOff: nat, bitSize: nat) {
    var k := KindOf(KindCode(info));
    && (k.Struct? || k.Union?)
    && (Vlen(info) == MAX_VLEN || (0 <= ty <= MAX_TYPES && IsBitfieldOk(bitOff, bitSize) && (k.Union? ==> bitOff == 0)))
  }

  lemma InfoRead(was: seq<Byte>, t: Type)
    requires Writable(t)
    ensures |Encode(t)| >= HEADER_SIZE && Load(was + Encode(t), |was| + INFO_OFF) == InfoOf(t)
  {
    hide Load, Encode, Writable, KindOf, KindCode, Vlen, Kflag, MakeInfo, CodeOf;
    InfoWritten(t);
    var d := was + Encode(t);
    LoadWithin(d, |was|, |d|, |was| + INFO_OFF);
    assert d[|was|..|d|] == Encode(t);
  }

  lemma Reflagged(was: seq<Byte>, lay: Option<seq<Layout>>, offs: seq<nat>, t: Type, vlen: nat, kflag: bool, info: nat)
    requires Writable(t) && ElemWords(t.kind) == 0 && vlen < VLENS && offs != [] && offs[|offs| - 1] == |was|
    requires Starts(was + Encode(t), lay, 0, |was + Encode(t)|, 0) == Some(offs)
    requires info < WORD_LIMIT && KindOf(KindCode(info)) == t.kind && Vlen(info) == vlen && Kflag(info) == kflag
    ensures var t' := t.(vlen := vlen, kflag := kflag);
      |Encode(t)| >= HEADER_SIZE && Writable(t') && WithInfo(Encode(t), info) == Encode(t')
      && Starts(was + Encode(t'), lay, 0, |was + Encode(t')|, 0) == Some(offs)
  {
    hide Starts, Encode, Load, KindOf, KindCode, Vlen, Kflag, Word, FitWords, Bytes, Flat;
    var t' := t.(vlen := vlen, kflag := kflag);
    InfoBack(info, t');
    EncodeParts(t, info);
    WrittenAs(t');
    EncodeSize(t', lay);
    StartsReplaced(was + Encode(t), lay, offs, Encode(t'));
    assert (was + Encode(t))[..|was|] == was;
  }

  // ----- runs -----

  datatype Op =
    | OpInt(named: bool, size: nat, encoding: nat)
    | OpRef(kind: Kind, named: bool, ref: int, kflag: bool)
    | OpFwd(named: bool, isUnion: bool)
    | OpFunc(named: bool, linkage: nat, ref: int)
    | OpArray(index: int, elem: int, count: nat)
    | OpComposite(kind: Kind, named: bool, size: nat)
    | OpField(named: bool, ref: int, bitOff: nat, bitSize: nat)
    | OpEnum(kind: Kind, named: bool, size: nat, signed: bool)
    | OpEnumValue(named: bool, value: int)
    | OpEnum64Value(named: bool, value64: nat)
    | OpFuncProto(ref: int)
    | OpFuncParam(named: bool, ref: int)
    | OpFloat(named: bool, size: nat)
    | OpVar(named: bool, linkage: nat, ref: int)
    | OpSection(kind: Kind, named: bool, size: nat)
    | OpDatasecVarInfo(ref: int, offset: nat, size: nat)
    | OpDeclTag(named: bool, ref: int, component: int, kflag: bool)
    | OpLocParam(size: nat, flags: nat)
    | OpLocParamValue(word: nat)
    | OpLocProto
    | OpLocProtoParam(id: nat)
    | OpLocsecLoc(func: nat, proto: nat, offset: nat)
    | OpAddType(t: Type, known: bool)
    | OpAddBtf(bytes: seq<Byte>, ts: seq<Type>, stop: nat)

  /** Arguments that the types of the parameters allow. */
  ghost predicate Proper(op: Op) {
    match op
    case OpRef(kind, _, _, _) => RefInHeader(kind) && InfoWords(kind) == 0 == ElemWords(kind)
    case OpArray(_, _, count) => count < WORD_LIMIT
    case OpComposite(kind, _, size) => (kind.Struct? || kind.Union?) && size < WORD_LIMIT
    case OpField(_, _, bitOff, bitSize) => bitOff < WORD_LIMIT && bitSize < WORD_LIMIT
    case OpEnum(kind, _, _, _) => kind.Enum? || kind.Enum64?
    case OpEnum64Value(_, value) => value < WORD_LIMIT * WORD_LIMIT
    case OpSection(kind, _, size) => size < WORD_LIMIT && (kind.Datasec? || (kind.Locsec? && size == 0))
    case OpDatasecVarInfo(_, offset, size) => offset < WORD_LIMIT && size < WORD_LIMIT
    case OpDeclTag(_, _, component, _) => component < 0x8000_0000
    case OpLocParam(_, flags) => flags < WORD_LIMIT
    case OpLocParamValue(word) => word < WORD_LIMIT
    case OpLocsecLoc(_, _, offset) => offset < WORD_LIMIT
    case OpAddType(t, _) => Writable(t)
    case OpAddBtf(bytes, ts, _) => AllWritable(ts) && |bytes| == |EncodeAll(ts)|
    case _ => true
  }

  function LastStart(offs: seq<nat>): nat {
    if offs == [] then 0 else offs[|offs| - 1]
  }

  /** All types but the last are as they were, and no type has moved. */
  ghost predicate Keeps(was: seq<Byte>, offs: seq<nat>, now: seq<Byte>, offs': seq<nat>) {
    && offs <= offs' && LastStart(offs) <= LastStart(offs') && LastStart(offs) <= |was| && LastStart(offs) <= |now|
    && now[..LastStart(offs)] == was[..LastStart(offs)]
  }

  lemma KeepsMore(a: seq<Byte>, oa: seq<nat>, b: seq<Byte>, ob: seq<nat>, c: seq<Byte>, oc: seq<nat>)
    requires Keeps(a, oa, b, ob) && Keeps(b, ob, c, oc)
    ensures Keeps(a, oa, c, oc)
  {
    var n := LastStart(oa);
    assert c[..n] == c[..LastStart(ob)][..n] == b[..LastStart(ob)][..n] == b[..n];
  }

  lemma AppendedKeeps(was: seq<Byte>, offs: seq<nat>, t: Type, now: seq<Byte>, offs': seq<nat>,
                      lay: Option<seq<Layout>>)
    requires Starts(was, lay, 0, |was|, 0) == Some(offs) && Appended(was, offs, t, now, offs')
    ensures Keeps(was, offs, now, offs')
  {
    hide Starts, Encode;
    if offs != [] {
      StartsDropped(was, lay, 0, offs);
    }
  }

  lemma ElemKeeps(was: seq<Byte>, offs: seq<nat>, e: seq<nat>, flag: bool, now: seq<Byte>)
    requires ElemAdded(was, offs, e, flag, now)
    ensures Keeps(was, offs, now, offs)
  {
    hide Encode, TypeAt, Writable;
  }

  lemma NothingKeeps(was: seq<Byte>, offs: seq<nat>, lay: Option<seq<Layout>>)
    requires Starts(was, lay, 0, |was|, 0) == Some(offs)
    ensures Keeps(was, offs, was, offs)
  {
    hide Starts;
    if offs != [] {
      StartsDropped(was, lay, 0, offs);
    }
  }

  /** Calls that append a type that refers to others. */
  predicate MakesReference(op: Op) {
    op.OpRef? || op.OpFwd? || op.OpFunc? || op.OpArray? || op.OpFuncProto? || op.OpVar? || op.OpDeclTag?
  }

  method NewReferenceCall(b: Builder, op: Op, env: Env) returns (r: Outcome)
    requires b.Valid() && Sane(env) && Proper(op) && MakesReference(op)
    modifies b
    ensures b.Valid() && Keeps(old(b.Types()), old(b.offs), b.Types(), b.offs)
    ensures |b.offs| == |old(b.offs)| + if r.Ok? then 1 else 0
  {
    hide Starts, Appended, Keeps, Writable, Sane, InfoWords, ElemWords, RefInHeader, AllWritable, EncodeAll;
    ghost var was, offs := b.Types(), b.offs;
    NothingKeeps(was, offs, b.lay);
    match op {
      case OpRef(kind, named, ref, kflag) => r := b.AddRefKind(kind, named, ref, kflag, env);
      case OpFwd(named, isUnion) => r := b.AddFwd(named, isUnion, env);
      case OpFunc(named, linkage, ref) => r := b.AddFunc(named, linkage, ref, env);
      case OpArray(index, elem, count) => r := b.AddArray(index, elem, count, env);
      case OpFuncProto(ref) => r := b.AddFuncProto(ref, env);
      case OpVar(named, linkage, ref) => r := b.AddVar(named, linkage, ref, env);
      case OpDeclTag(named, ref, component, kflag) => r := b.AddDeclTag(named, ref, component, kflag, env);
    }
    if r.Ok? {
      ghost var t :| Appended(was, offs, t, b.Types(), b.offs);
      AppendedKeeps(was, offs, t, b.Types(), b.offs, b.lay);
      AppendedOne(was, offs, t, b.Types(), b.offs);
    }
  }

  /** Calls that append any other type. */
  predicate MakesType(op: Op) {
    op.OpInt? || op.OpComposite? || op.OpEnum? || op.OpFloat? || op.OpSection? || op.OpLocParam? || op.OpLocProto? ||
      op.OpAddType?
  }

  method NewTypeCall(b: Builder, op: Op, env: Env) returns (r: Outcome)
    requires b.Valid() && Sane(env) && Proper(op) && MakesType(op)
    modifies b
    ensures b.Valid() && Keeps(old(b.Types()), old(b.offs), b.Types(), b.offs)
    ensures |b.offs| == |old(b.offs)| + if r.Ok? then 1 else 0
  {
    hide Starts, Appended, Keeps, Writable, Sane, InfoWords, ElemWords, RefInHeader, AllWritable, EncodeAll;
    ghost var was, offs := b.Types(), b.offs;
    NothingKeeps(was, offs, b.lay);
    match op {
      case OpInt(named, size, encoding) => r := b.AddInt(named, size, encoding, env);
      case OpComposite(kind, named, size) => r := b.AddComposite(kind, named, size, env);
      case OpEnum(kind, named, size, signed) => r := b.AddEnumCommon(kind, named, size, signed, env);
      case OpFloat(named, size) => r := b.AddFloat(named, size, env);
      case OpSection(kind, named, size) => r := b.AddSection(kind, named, size, env);
      case OpLocParam(size, flags) => r := b.AddLocParam(size, flags, env);
      case OpLocProto => r := b.AddLocProto(env);
      case OpAddType(t, known) => r := b.AddType(t, known, env);
    }
    if r.Ok? {
      ghost var t :| Appended(was, offs, t, b.Types(), b.offs);
      AppendedKeeps(was, offs, t, b.Types(), b.offs, b.lay);
      AppendedOne(was, offs, t, b.Types(), b.offs);
    }
  }

  lemma AppendedOne(was: seq<Byte>, offs: seq<nat>, t: Type, now: seq<Byte>, offs': seq<nat>)
    requires Appended(was, offs, t, now, offs')
    ensures |offs'| == |offs| + 1
  {
  }

  /** Calls that append an element to the last type. */
  predicate GrowsType(op: Op) {
    op.OpField? || op.OpEnumValue? || op.OpEnum64Value? || op.OpFuncParam? || op.OpDatasecVarInfo? ||
      op.OpLocParamValue?
    || op.OpLocProtoParam? || op.OpLocsecLoc?
  }

  method NewElemCall(b: Builder, op: Op, env: Env) returns (r: Outcome)
    requires b.Valid() && Sane(env) && Proper(op) && GrowsType(op)
    modifies b
    ensures b.Valid() && Keeps(old(b.Types()), old(b.offs), b.Types(), b.offs) && b.offs == old(b.offs)
  {
    hide Starts, ElemAdded, Keeps;
    ghost var was, offs := b.Types(), b.offs;
    NothingKeeps(was, offs, b.lay);
    match op {
      case OpField(named, ref, bitOff, bitSize) => r := b.AddField(named, ref, bitOff, bitSize, env);
      case OpEnumValue(named, value) => r := b.AddEnumValue(named, value, env);
      case OpEnum64Value(named, value) => r := b.AddEnum64Value(named, value, env);
      case OpFuncParam(named, ref) => r := b.AddFuncParam(named, ref, env);
      case OpDatasecVarInfo(ref, offset, size) => r := b.AddDatasecVarInfo(ref, offset, size, env);
      case OpLocParamValue(word) => r := b.AddLocParamValue(word, env);
      case OpLocProtoParam(id) => r := b.AddLocProtoParam(id, env);
      case OpLocsecLoc(func, proto, offset) => r := b.AddLocsecLoc(func, proto, offset, env);
    }
    if r.Ok? {
      ghost var e, flag :| ElemAdded(was, offs, e, flag, b.Types());
      ElemKeeps(was, offs, e, flag, b.Types());
    }
  }

  method Call(b: Builder, op: Op, env: Env) returns (r: Outcome)
    requires b.Valid() && Sane(env) && Proper(op)
    modifies b
    ensures b.Valid() && Keeps(old(b.Types()), old(b.offs), b.Types(), b.offs)
  {
    hide Starts, Keeps, AllWritable, EncodeAll;
    if MakesReference(op) {
      r := NewReferenceCall(b, op, env);
    } else if MakesType(op) {
      r := NewTypeCall(b, op, env);
    } else if GrowsType(op) {
      r := NewElemCall(b, op, env);
    } else {
      ghost var was, offs := b.Types(), b.offs;
      r := b.AddAll(op.bytes, op.ts, op.stop, env);
      AllKeeps(was, offs, b.Types(), b.offs, b.lay);
    }
  }

  lemma AllKeeps(was: seq<Byte>, offs: seq<nat>, now: seq<Byte>, offs': seq<nat>, lay: Option<seq<Layout>>)
    requires Starts(was, lay, 0, |was|, 0) == Some(offs) && was <= now && offs <= offs'
    requires forall k :: |offs| <= k < |offs'| ==> offs'[k] >= |was|
    ensures Keeps(was, offs, now, offs')
  {
    hide Starts;
    if offs != [] {
      StartsDropped(was, lay, 0, offs);
    }
  }

  /** After any calls, successful or not, reading the type bytes afresh gives the index of starts. */
  method Run(b: Builder, calls: seq<(Op, Env)>) returns (parsed: Option<seq<nat>>)
    requires b.Valid() && forall i :: 0 <= i < |calls| ==> Sane(calls[i].1) && Proper(calls[i].0)
    modifies b
    ensures b.Valid() && parsed == Some(b.offs) == Starts(b.Types(), b.lay, 0, |b.Types()|, 0)
    ensures Keeps(old(b.Types()), old(b.offs), b.Types(), b.offs)
  {
    hide Starts, Keeps;
    NothingKeeps(b.Types(), b.offs, b.lay);
    var i := 0;
    while i < |calls|
      invariant 0 <= i <= |calls| && b.Valid() && Keeps(old(b.Types()), old(b.offs), b.Types(), b.offs)
    {
      ghost var was, offs := b.Types(), b.offs;
      var _ := Call(b, calls[i].0, calls[i].1);
      KeepsMore(old(b.Types()), old(b.offs), was, offs, b.Types(), b.offs);
      i := i + 1;
    }
    var a := new Byte[b.typeLen](j requires 0 <= j < b.typeLen reads b => if j < |b.mem| then b.mem[j] else 0);
    assert a[..] == b.Types();
    parsed := ParseNative(a, 0, b.typeLen, b.lay);
  }

  // ----- several types -----

  lemma BehindGrows(mem: seq<Byte>, mem': seq<Byte>, len: nat, at: nat, rec: seq<Byte>)
    requires len + at + |rec| <= |mem| && mem' == mem[..len + at] + rec + mem[len + at + |rec|..]
    ensures |mem'| == |mem| && mem'[len..len + at + |rec|] == mem[len..len + at] + rec
  {
  }

}
