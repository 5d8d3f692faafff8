/** Loader code that loads programs, with the symbols that they refer to. */
module LoaderProgs {
  import opened Options
  import opened Memory
  import opened LoaderVm
  import opened LoaderFlow
  import opened LoaderCleanup
  import opened LoaderGen
  import opened LoaderEmit
  import opened LoaderMaps

  /** Layout of an instruction in the blob. */
  const INSN_SIZE := 8
  const INSN_REG := 1
  const INSN_OFF := 2
  const INSN_IMM := 4
  const INT16_MAX := 0x7fff
  const ENOENT := 2

  // ----- symbols -----

  function TakesSlot(k: Ksym): nat {
    if !k.isLd64 && k.off < MAX_FD_ARRAY_SZ then 1 else 0
  }

  function Kfuncs(ks: seq<Ksym>): nat {
    if ks == [] then 0 else TakesSlot(ks[0]) + Kfuncs(ks[1..])
  }

  lemma {:induction false} KfuncsSnoc(ks: seq<Ksym>, k: Ksym)
    ensures Kfuncs(ks + [k]) == Kfuncs(ks) + TakesSlot(k)
  {
    if ks == [] {
      assert ks + [k] == [k] && [k][1..] == [];
    } else {
      assert (ks + [k])[1..] == ks[1..] + [k];
      KfuncsSnoc(ks[1..], k);
    }
  }

  /** Find a symbol again, or make it known, if there is memory; the last result is its index. */
  method GetKsym(gen: Gen, relo: Relo) returns (ok: bool, k: nat)
    modifies gen`ksyms, gen`error
    ensures if ok then k < |gen.ksyms| && gen.error == old(gen.error)
      else gen.error == Some(NoMemory) && gen.ksyms == old(gen.ksyms)
    ensures ok && gen.ksyms[k].ref == 1 ==>
      k == |old(gen.ksyms)| && gen.ksyms == old(gen.ksyms) + [Ksym(relo.name, relo.kind, 1, 0, false, 0, relo.isLd64)]
    ensures ok && gen.ksyms[k].ref > 1 ==> Kfuncs(gen.ksyms) == Kfuncs(old(gen.ksyms))
  {
    ok, k := true, 0;
    while k < |gen.ksyms|
      invariant 0 <= k <= |gen.ksyms| && gen.ksyms == old(gen.ksyms) && ok && gen.error == old(gen.error)
    {
      var d := gen.ksyms[k];
      if d.kind == relo.kind && d.isLd64 == relo.isLd64 && d.name == relo.name {
        KfuncsSame(gen.ksyms, k, d.(ref := d.ref + 1));
        gen.ksyms := gen.ksyms[k := d.(ref := d.ref + 1)];
        return;
      }
      k := k + 1;
    }
    ok := Ask(false);
    if !ok {
      gen.GiveUp(NoMemory);
      return;
    }
    gen.ksyms := gen.ksyms + [Ksym(relo.name, relo.kind, 1, 0, false, 0, relo.isLd64)];
  }

  lemma {:induction false} KfuncsSame(ks: seq<Ksym>, i: nat, k: Ksym)
    requires i < |ks| && TakesSlot(k) == TakesSlot(ks[i])
    ensures Kfuncs(ks[i := k]) == Kfuncs(ks)
  {
    if i == 0 {
      assert ks[0 := k][1..] == ks[1..];
    } else {
      assert ks[i := k][1..] == ks[1..][i - 1 := k];
      KfuncsSame(ks[1..], i - 1, k);
    }
  }

  /** A place for the descriptor of a module: behind the map slots, or in new data. */
  method AddKfuncBtfFd(gen: Gen) returns (idx: int)
    requires gen.Valid()
    modifies gen`nrFdArray, gen`dataLen, gen`error
    ensures gen.Valid() && gen.dataLen >= old(gen.dataLen) && (gen.error.None? ==> old(gen.error).None?)
    ensures gen.error.None? && 0 <= old(gen.nrFdArray) <= MAX_KFUNC_DESCS ==>
      idx >= MAX_USED_MAPS && gen.nrFdArray == old(gen.nrFdArray) + (if idx < MAX_FD_ARRAY_SZ then 1 else 0) &&
        gen.nrFdArray <= MAX_KFUNC_DESCS
  {
    if gen.nrFdArray == MAX_KFUNC_DESCS {
      var cur := gen.AddData(4);
      idx := (cur - FD_ARRAY) / 4;
      return;
    }
    idx := MAX_USED_MAPS + gen.nrFdArray;
    gen.nrFdArray := gen.nrFdArray + 1;
  }

  // ----- looking up -----

  method EmitFindByNameKind(gen: Gen, nameLen: nat, kind: nat, textLen: nat)
    requires gen.Valid() && (gen.error.None? ==> gen.flow.live && gen.flow.pending == map[])
    modifies gen`insns, gen`error, gen`flow, gen`dataLen
    ensures gen.Valid() && gen.dataLen >= old(gen.dataLen) && (gen.error.None? ==> old(gen.error).None?)
    ensures gen.error.None? ==>
      gen.flow == old(gen.flow).(env := gen.flow.env) && SameAt(old(gen.flow).env, gen.flow.env, 8)
    ensures gen.error.None? ==> 7 in gen.flow.env && gen.flow.env[7] == SomeNum
  {
    hide Gen.Valid, Good, IsCleanup, Lands;
    var name := gen.AddData(nameLen);
    EmitFindArgs(gen, name, nameLen, kind);
    gen.EmitCall(FindByNameKind);
    gen.Emit(Mov(7, 0));
    DebugRet(gen, textLen);
  }

  method EmitFindArgs(gen: Gen, name: int, nameLen: nat, kind: nat)
    requires gen.Valid() && (gen.error.None? ==> gen.flow.live && gen.flow.pending == map[])
    modifies gen`insns, gen`error, gen`flow
    ensures gen.Valid() && (gen.error.None? ==> old(gen.error).None? && Straight(old(gen.flow), gen.flow))
  {
    hide Gen.Valid, Good, IsCleanup, Lands;
    gen.EmitAddr(1, name);
    gen.Emit(MovImm(2, nameLen));
    gen.Emit(MovImm(3, kind));
    gen.Emit(MovImm(4, 0));
  }

  method EmitKallsymsLookup(gen: Gen, nameLen: nat, textLen: nat)
    requires gen.Valid() && (gen.error.None? ==> gen.flow.live && gen.flow.pending == map[])
    modifies gen`insns, gen`error, gen`flow, gen`dataLen
    ensures gen.Valid() && gen.dataLen >= old(gen.dataLen) && (gen.error.None? ==> old(gen.error).None?)
    ensures gen.error.None? ==>
      gen.flow == old(gen.flow).(env := gen.flow.env) && SameAt(old(gen.flow).env, gen.flow.env, 8)
    ensures gen.error.None? ==> 7 in gen.flow.env && gen.flow.env[7] == SomeNum
  {
    hide Good, IsCleanup, Lands;
    var name := gen.AddData(nameLen);
    var res := gen.AddData(8);
    gen.EmitAddr(1, name);
    gen.Emit(MovImm(2, nameLen));
    gen.Emit(MovImm(3, 0));
    gen.EmitAddr(4, res);
    EmitKallsymsCall(gen, res);
    DebugRet(gen, textLen);
  }

  /** The call itself: the address goes to R9, the outcome to R7. */
  method EmitKallsymsCall(gen: Gen, ghost res: int)
    requires gen.Valid() && (gen.error.None? ==>
      gen.flow.live && gen.flow.pending == map[] && Outside(FD_ARRAY, res, 8))
    requires gen.error.None? ==> 4 in gen.flow.env && gen.flow.env[4] == Is(Ptr(Blob, res))
    modifies gen`insns, gen`error, gen`flow
    ensures gen.Valid() && (gen.error.None? ==> old(gen.error).None?)
    ensures gen.error.None? ==>
      gen.flow == old(gen.flow).(env := gen.flow.env) && SameAt(old(gen.flow).env, gen.flow.env, 8)
    ensures gen.error.None? ==> 7 in gen.flow.env && gen.flow.env[7] == SomeNum
  {
    hide Good, IsCleanup, Lands;
    gen.Emit(Mov(7, 4));
    gen.EmitCall(KallsymsLookup);
    gen.Emit(Load(DW, 9, 7, 0));
    gen.Emit(Mov(7, 0));
  }

  /** The code of a relocation works on the instruction that R8 points to. */
  ghost predicate AtInsn(gen: Gen, insn: int)
    reads gen
  {
    && insn >= 4 * MAX_FD_ARRAY_SZ && gen.flow.live && gen.flow.pending == map[] &&
      gen.flow.spec.checked == gen.flow.spec.Count()
    && 8 in gen.flow.env && gen.flow.env[8] == Is(Ptr(Blob, insn))
  }

  /** R8 points to the instruction, here and at the one place that runs have jumped to. */
  ghost predicate AtInsnWith(gen: Gen, insn: int, t: int)
    reads gen
  {
    && insn >= 4 * MAX_FD_ARRAY_SZ && gen.flow.live && gen.flow.pending.Keys == {t} &&
      gen.flow.spec.checked == gen.flow.spec.Count()
    && 8 in gen.flow.env && gen.flow.env[8] == Is(Ptr(Blob, insn))
    && 8 in gen.flow.pending[t] && gen.flow.pending[t][8] == Is(Ptr(Blob, insn))
  }

  predicate IsResult(env: Env) {
    7 in env && env[7] == SomeNum
  }

  /** If a lookup has failed, clear two fields of the instruction and skip what follows. */
  method EmitNotFound(gen: Gen, insn: int, size: Size, off: nat, skip: nat)
    requires gen.Valid() && 0 < skip < 0x8000 && (gen.error.None? ==> AtInsn(gen, insn) && IsResult(gen.flow.env))
    modifies gen`insns, gen`error, gen`flow
    ensures gen.Valid() && (gen.error.None? ==>
      old(gen.error).None? && AtInsnWith(gen, insn, |gen.insns| + skip) && IsResult(gen.flow.env))
    ensures gen.error.None? ==> gen.flow == old(gen.flow).(env := gen.flow.env, pending := gen.flow.pending)
  {
    hide Good, IsCleanup, Lands;
    gen.EmitJump(Sge, 7, 0, 3);
    gen.Emit(StoreImm(W, 8, INSN_IMM, 0));
    gen.Emit(StoreImm(size, 8, off, 0));
    gen.EmitJa(skip);
    gen.LandHere();
  }

  /** Store the number of a function, and the descriptor of its module in its place. */
  method EmitFoundKfunc(gen: Gen, insn: int, idx: int, ghost t: int)
    requires gen.Valid() && (gen.error.None? ==>
      AtInsnWith(gen, insn, t) && t >= |gen.insns| + 6 && idx >= MAX_USED_MAPS && IsResult(gen.flow.env))
    modifies gen`insns, gen`error, gen`flow
    ensures gen.Valid() && (gen.error.None? ==>
      old(gen.error).None? && AtInsnWith(gen, insn, t) && |gen.insns| == |old(gen.insns)| + 6)
    ensures gen.error.None? ==>
      gen.flow == old(gen.flow).(env := gen.flow.env) && 9 in gen.flow.env && gen.flow.env[9] == SomeNum
  {
    hide Good, IsCleanup, Lands;
    gen.Emit(Store(W, 8, 7, INSN_IMM));
    gen.Emit(Mov(9, 7));
    gen.Emit(Rsh32(9));
    gen.EmitAddr(0, SlotOff(idx));
    gen.Emit(Store(W, 0, 9, 0));
  }

  /** Say where the module is, unless it is the kernel itself. */
  method EmitModule(gen: Gen, insn: int, idx: int)
    requires gen.Valid() && (gen.error.None? ==>
      AtInsnWith(gen, insn, |gen.insns| + 4) && 9 in gen.flow.env && gen.flow.env[9] == SomeNum)
    modifies gen`insns, gen`error, gen`flow
    ensures gen.Valid() && (gen.error.None? ==> old(gen.error).None? && AtInsn(gen, insn))
    ensures gen.error.None? ==> gen.flow == old(gen.flow).(env := gen.flow.env, pending := map[])
  {
    hide Gen.Valid, Good, IsCleanup, Lands;
    gen.EmitJump(Ne, 9, 0, 2);
    gen.Emit(StoreImm(H, 8, INSN_OFF, 0));
    gen.EmitJa(1);
    gen.LandHere();
    gen.Emit(StoreImm(H, 8, INSN_OFF, idx));
    gen.LandHere();
  }

  // ----- relocations -----

  /** What a relocation keeps: it is at the instruction, and all runs are as before. */
  twostate predicate Relocating(gen: Gen, insn: int)
    reads gen
  {
    && gen.Valid() && gen.dataLen >= old(gen.dataLen) && (gen.error.None? ==> old(gen.error).None?)
    && (gen.error.None? ==> AtInsn(gen, insn))
    && (gen.error.None? ==>
      gen.flow == old(gen.flow).(env := gen.flow.env, spec := gen.flow.spec) &&
      SameButSettled(old(gen.flow).spec, gen.flow.spec))
  }

  ghost predicate SameButSettled(a: Spec, b: Spec) {
    b == a.(settled := b.settled)
  }

  /** Copy two fields of an instruction that refers to the same symbol. */
  method EmitCopyFields(gen: Gen, insn: int, from: int, size: Size, off1: nat, size2: Size, off2: nat)
    requires gen.Valid() && (gen.error.None? ==> AtInsn(gen, insn))
    modifies gen`insns, gen`error, gen`flow
    ensures gen.Valid() && (gen.error.None? ==>
      old(gen.error).None? && AtInsn(gen, insn) && gen.flow == old(gen.flow).(env := gen.flow.env))
    ensures gen.error.None? ==> 0 in gen.flow.env && gen.flow.env[0] == SomeNum
  {
    hide Good, IsCleanup, Lands;
    MoveBlob2Blob(gen, insn + off1, size, from + off1);
    MoveBlob2Blob(gen, insn + off2, size2, from + off2);
  }

  /** Look up a symbol by name and kind; unless it is weak, a failure is final. */
  method EmitLookup(gen: Gen, relo: Relo, insn: int, textLen: nat)
    requires gen.Valid() && (gen.error.None? ==> AtInsn(gen, insn))
    modifies gen`insns, gen`error, gen`flow, gen`dataLen
    ensures Relocating(gen, insn) && (gen.error.None? ==> IsResult(gen.flow.env))
  {
    hide Good, IsCleanup, Lands;
    EmitFindByNameKind(gen, |relo.name| + 1, relo.kind, textLen);
    if !relo.isWeak {
      gen.EmitCheckErr();
    }
  }

  method EmitReloKfunc(gen: Gen, relo: Relo, insn: nat, textLen: nat)
    requires gen.Valid() && !relo.isLd64 && (gen.error.None? ==>
      AtInsn(gen, insn) && gen.nrFdArray == Kfuncs(gen.ksyms) <= MAX_KFUNC_DESCS)
    modifies gen`insns, gen`error, gen`flow, gen`dataLen, gen`ksyms, gen`nrFdArray
    ensures Relocating(gen, insn) && (gen.error.None? ==> gen.nrFdArray == Kfuncs(gen.ksyms) <= MAX_KFUNC_DESCS)
  {
    hide Good, IsCleanup, Lands, Kfuncs;
    var ok, k := GetKsym(gen, relo);
    if !ok {
      return;
    }
    if gen.ksyms[k].ref > 1 {
      EmitCopyFields(gen, insn, gen.ksyms[k].insn, W, INSN_IMM, H, INSN_OFF);
    } else {
      KfuncsSnoc(old(gen.ksyms), Ksym(relo.name, relo.kind, 1, 0, false, 0, relo.isLd64));
      EmitLookup(gen, relo, insn, textLen);
      var idx := AddKfuncBtfFd(gen);
      if idx > INT16_MAX {
        gen.GiveUp(TooBig);
        return;
      }
      var d := gen.ksyms[k].(off := idx, insn := insn);
      KfuncsSnoc(old(gen.ksyms), d);
      assert gen.ksyms[k := d] == old(gen.ksyms) + [d];
      gen.ksyms := gen.ksyms[k := d];
      EmitNotFound(gen, insn, H, INSN_OFF, 10);
      EmitFoundKfunc(gen, insn, idx, |gen.insns| + 10);
      EmitModule(gen, insn, idx);
    }
    if gen.log {
      EmitKfuncLog(gen, insn, gen.ksyms[k].off, textLen);
    }
  }

  method EmitKfuncLog(gen: Gen, insn: int, off: int, textLen: nat)
    requires gen.Valid() && (gen.error.None? ==> AtInsn(gen, insn))
    modifies gen`insns, gen`error, gen`flow, gen`dataLen
    ensures Relocating(gen, insn)
  {
    hide Good, IsCleanup, Lands;
    gen.Emit(Load(W, 7, 8, INSN_IMM));
    gen.Emit(Load(H, 9, 8, INSN_OFF));
    EmitDebug(gen, 7, 9, textLen);
    gen.EmitAddr(0, SlotOff(off));
    gen.Emit(Load(W, 9, 0, 0));
    EmitDebug(gen, 9, -1, textLen);
  }

  method EmitKsymLog(gen: Gen, insn: int, textLen: nat)
    requires gen.Valid() && (gen.error.None? ==> AtInsn(gen, insn))
    modifies gen`insns, gen`error, gen`flow, gen`dataLen
    ensures Relocating(gen, insn)
  {
    hide Good, IsCleanup, Lands;
    if !gen.log {
      return;
    }
    gen.Emit(Load(W, 7, 8, INSN_IMM));
    gen.Emit(Load(H, 9, 8, INSN_SIZE + INSN_IMM));
    EmitDebug(gen, 7, 9, textLen);
    gen.Emit(Load(B, 9, 8, INSN_REG));
    EmitDebug(gen, 9, -1, textLen);
  }

  method EmitReloKsymTypeless(gen: Gen, relo: Relo, insn: nat, textLen: nat)
    requires gen.Valid() && relo.isLd64 && (gen.error.None? ==> AtInsn(gen, insn) && gen.nrFdArray == Kfuncs(gen.ksyms))
    modifies gen`insns, gen`error, gen`flow, gen`dataLen, gen`ksyms
    ensures Relocating(gen, insn) && (gen.error.None? ==> gen.nrFdArray == Kfuncs(gen.ksyms))
  {
    hide Good, IsCleanup, Lands, Kfuncs;
    var ok, k := GetKsym(gen, relo);
    if !ok {
      return;
    }
    if gen.ksyms[k].ref > 1 {
      EmitCopyFields(gen, insn, gen.ksyms[k].insn, W, INSN_IMM, W, INSN_SIZE + INSN_IMM);
    } else {
      var d := gen.ksyms[k].(typeless := true, insn := insn);
      KfuncsSnoc(old(gen.ksyms), d);
      assert gen.ksyms[k := d] == old(gen.ksyms) + [d];
      gen.ksyms := gen.ksyms[k := d];
      EmitKallsymsLookup(gen, |relo.name| + 1, textLen);
      EmitStoreAddress(gen, insn);
    }
    EmitKsymLog(gen, insn, textLen);
  }

  /** Store an address; a symbol that does not exist has address 0, any other failure is final. */
  method EmitStoreAddress(gen: Gen, insn: int)
    requires gen.Valid() && (gen.error.None? ==> AtInsn(gen, insn) && IsResult(gen.flow.env))
    modifies gen`insns, gen`error, gen`flow
    ensures Relocating(gen, insn)
  {
    hide Good, IsCleanup, Lands;
    gen.EmitJump(Eq, 7, -ENOENT, 1);
    gen.EmitCheckErr();
    gen.LandHere();
    gen.Emit(Store(W, 8, 9, INSN_IMM));
    gen.Emit(Rsh32(9));
    gen.Emit(Store(W, 8, 9, INSN_SIZE + INSN_IMM));
  }

  /** Make the instruction an ordinary load of a number; runs that found the symbol jump past. */
  method EmitClearSrcReg(gen: Gen, insn: int, mask: int)
    requires gen.Valid() && (gen.error.None? ==> AtInsnWith(gen, insn, |gen.insns| + 3))
    modifies gen`insns, gen`error, gen`flow
    ensures gen.Valid() && (gen.error.None? ==>
      old(gen.error).None? && AtInsn(gen, insn) && gen.flow == old(gen.flow).(env := gen.flow.env, pending := map[]))
  {
    hide Good, IsCleanup, Lands;
    gen.Emit(Load(B, 9, 8, INSN_REG));
    gen.Emit(AndImm(9, mask));
    gen.Emit(Store(B, 8, 9, INSN_REG));
    gen.LandHere();
  }

  /** Store the type and the module of a symbol that has been found. */
  method EmitFoundKsym(gen: Gen, insn: int)
    requires gen.Valid() && (gen.error.None? ==> AtInsnWith(gen, insn, |gen.insns| + 4) && IsResult(gen.flow.env))
    modifies gen`insns, gen`error, gen`flow
    ensures gen.Valid() && (gen.error.None? ==> old(gen.error).None? && AtInsnWith(gen, insn, |gen.insns| + 3))
    ensures gen.error.None? ==> gen.flow == old(gen.flow).(env := gen.flow.env, pending := gen.flow.pending)
  {
    hide Good, IsCleanup, Lands;
    gen.Emit(Store(W, 8, 7, INSN_IMM));
    gen.Emit(Rsh32(7));
    gen.Emit(Store(W, 8, 7, INSN_SIZE + INSN_IMM));
    gen.EmitJa(3);
    gen.LandHere();
  }

  method EmitReloKsymBtf(gen: Gen, relo: Relo, insn: nat, mask: int, textLen: nat)
    requires gen.Valid() && relo.isLd64 && (gen.error.None? ==> AtInsn(gen, insn) && gen.nrFdArray == Kfuncs(gen.ksyms))
    modifies gen`insns, gen`error, gen`flow, gen`dataLen, gen`ksyms
    ensures Relocating(gen, insn) && (gen.error.None? ==> gen.nrFdArray == Kfuncs(gen.ksyms))
  {
    hide Good, IsCleanup, Lands, Kfuncs;
    var ok, k := GetKsym(gen, relo);
    if !ok {
      return;
    }
    if gen.ksyms[k].ref > 1 {
      EmitCopyFields(gen, insn, gen.ksyms[k].insn, W, INSN_SIZE + INSN_IMM, W, INSN_IMM);
      gen.EmitJump(Ne, 0, 0, 3);
    } else {
      var d := gen.ksyms[k].(insn := insn);
      KfuncsSnoc(old(gen.ksyms), d);
      assert gen.ksyms[k := d] == old(gen.ksyms) + [d];
      gen.ksyms := gen.ksyms[k := d];
      EmitLookup(gen, relo, insn, textLen);
      EmitNotFound(gen, insn, W, INSN_SIZE + INSN_IMM, 4);
      EmitFoundKsym(gen, insn);
    }
    EmitClearSrcReg(gen, insn, mask);
    EmitKsymLog(gen, insn, textLen);
  }

  /** What holds between relocations. */
  ghost predicate Counted(gen: Gen)
    reads gen
  {
    gen.nrFdArray == Kfuncs(gen.ksyms) <= MAX_KFUNC_DESCS
  }

  method EmitRelo(gen: Gen, relo: Relo, insns: nat, mask: int, textLen: nat)
    requires Ready(gen) && (gen.error.None? ==> insns >= 4 * MAX_FD_ARRAY_SZ && Counted(gen))
    modifies gen`insns, gen`error, gen`flow, gen`dataLen, gen`ksyms, gen`nrFdArray
    ensures Ready(gen) && gen.dataLen >= old(gen.dataLen) && (gen.error.None? ==> old(gen.error).None? && Counted(gen))
  {
    hide Good, IsCleanup, Lands, Kfuncs, Recorded;
    ghost var spec := gen.flow.spec;
    var insn := insns + INSN_SIZE * relo.insnIdx;
    gen.EmitAddr(8, insn);
    if !relo.isLd64 {
      EmitReloKfunc(gen, relo, insn, textLen);
    } else if relo.isTypeless {
      EmitReloKsymTypeless(gen, relo, insn, textLen);
    } else {
      EmitReloKsymBtf(gen, relo, insn, mask, textLen);
    }
    if gen.error.None? {
      StillRecorded(spec, gen.flow.spec, gen.issued, gen.nrMaps, gen.nrProgs, gen.nrObjMaps, gen.nrFuncPtrMaps);
    }
  }

  lemma StillRecorded(spec: Spec, spec': Spec, issued: seq<Command>, nrMaps: nat, nrProgs: nat, first: nat,
                      nrFuncPtrMaps: nat)
    requires Recorded(spec, issued, nrMaps, nrProgs, first, nrFuncPtrMaps) && SameButSettled(spec, spec')
    ensures Recorded(spec', issued, nrMaps, nrProgs, first, nrFuncPtrMaps)
  {
  }

  method EmitRelos(gen: Gen, insns: nat, mask: int, textLen: nat)
    requires Ready(gen) && (gen.error.None? ==> insns >= 4 * MAX_FD_ARRAY_SZ && Counted(gen))
    modifies gen`insns, gen`error, gen`flow, gen`dataLen, gen`ksyms, gen`nrFdArray
    ensures Ready(gen) && gen.dataLen >= old(gen.dataLen) && (gen.error.None? ==> old(gen.error).None? && Counted(gen))
  {
    hide Good, IsCleanup, Lands, Kfuncs, Recorded;
    var i := 0;
    while i < |gen.relos|
      invariant 0 <= i <= |gen.relos| && Ready(gen) && gen.dataLen >= old(gen.dataLen)
      invariant gen.error.None? ==> old(gen.error).None? && Counted(gen)
    {
      EmitRelo(gen, gen.relos[i], insns, mask, textLen);
      i := i + 1;
    }
  }

  /** Close the modules of the symbols, and forget the symbols. */
  method CleanupRelos(gen: Gen)
    requires gen.Valid() && (gen.error.None? ==> gen.flow.live && gen.flow.pending == map[] && Counted(gen))
    modifies gen`insns, gen`error, gen`flow, gen`dataLen, gen`ksyms, gen`nrFdArray, gen`relos
    ensures gen.Valid() && gen.dataLen >= old(gen.dataLen) && gen.ksyms == [] && gen.relos == []
    ensures gen.error.None? ==> old(gen.error).None? && Straight(old(gen.flow), gen.flow) && gen.nrFdArray == 0
  {
    hide Good, IsCleanup, Lands, Recorded;
    var i := 0;
    while i < |gen.ksyms|
      invariant 0 <= i <= |gen.ksyms| && gen.ksyms == old(gen.ksyms) && gen.Valid() && gen.dataLen >= old(gen.dataLen)
      invariant gen.error.None? ==>
        old(gen.error).None? && Straight(old(gen.flow), gen.flow) && gen.nrFdArray == Kfuncs(gen.ksyms[i..])
    {
      var d := gen.ksyms[i];
      if d.isLd64 && !d.typeless {
        EmitSysCloseBlob(gen, d.insn + INSN_SIZE + INSN_IMM);
      } else if !d.isLd64 {
        EmitSysCloseBlob(gen, SlotOff(d.off));
        if d.off < MAX_FD_ARRAY_SZ {
          gen.nrFdArray := gen.nrFdArray - 1;
        }
      }
      assert gen.ksyms[i..][1..] == gen.ksyms[i + 1..];
      i := i + 1;
    }
    assert gen.ksyms[|gen.ksyms|..] == [];
    gen.ksyms, gen.relos := [], [];
  }

  /** Note down a symbol that the next program refers to, if there is memory. */
  method RecordExtern(gen: Gen, relo: Relo)
    requires Ready(gen)
    modifies gen`relos, gen`error
    ensures Ready(gen) && (gen.error == old(gen.error) || gen.error == Some(NoMemory))
    ensures gen.relos == old(gen.relos) + [relo] || (gen.relos == old(gen.relos) && gen.error == Some(NoMemory))
  {
    var got := Ask(false);
    if !got {
      gen.GiveUp(NoMemory);
      return;
    }
    gen.relos := gen.relos + [relo];
  }

  method RecordAttachTarget(gen: Gen, kind: nat, nameLen: nat)
    requires Ready(gen)
    modifies gen`attachKind, gen`attachLen, gen`error
    ensures Ready(gen) && (gen.error.None? ==> old(gen.error).None?)
  {
    gen.attachKind, gen.attachLen := kind, nameLen;
    if nameLen >= 128 {
      gen.GiveUp(NoSpace);
    }
  }

  /** The pointers and settings in the attribute of a program. */
  method EmitProgAttr(gen: Gen, attr: int, insns: int, license: int, funcInfo: int, lineInfo: int, coreRelos: int)
    requires gen.Valid() && (gen.error.None? ==>
      attr >= 4 * MAX_FD_ARRAY_SZ && gen.flow.live && gen.flow.pending == map[])
    modifies gen`insns, gen`error, gen`flow
    ensures gen.Valid() && (gen.error.None? ==> old(gen.error).None? && Straight(old(gen.flow), gen.flow))
  {
    hide Good, IsCleanup, Lands;
    EmitRelStore(gen, attr + 16, license);
    EmitRelStore(gen, attr + 8, insns);
    EmitRelStore(gen, attr + 80, funcInfo);
    EmitRelStore(gen, attr + 96, lineInfo);
    EmitRelStore(gen, attr + 128, coreRelos);
    EmitRelStore(gen, attr + 120, FD_ARRAY);
    MoveCtx2Blob(gen, attr + 24, W, CTX_LOG_LEVEL, false);
    MoveCtx2Blob(gen, attr + 28, W, CTX_LOG_SIZE, false);
    MoveCtx2Blob(gen, attr + 32, DW, CTX_LOG_BUF, false);
    MoveStack2Blob(gen, attr + 72, W, BTF_FD_OFF);
  }

  /** Look up what a program attaches to; a failure is final. */
  method EmitAttachTarget(gen: Gen, attr: int, textLen: nat)
    requires Ready(gen) && (gen.error.None? ==> attr >= 4 * MAX_FD_ARRAY_SZ)
    modifies gen`insns, gen`error, gen`flow, gen`dataLen
    ensures Ready(gen) && gen.dataLen >= old(gen.dataLen) && (gen.error.None? ==> old(gen.error).None?)
  {
    hide Good, IsCleanup, Lands, Recorded;
    ghost var spec := gen.flow.spec;
    EmitFindByNameKind(gen, gen.attachLen + 1, gen.attachKind, textLen);
    gen.EmitCheckErr();
    gen.EmitAddr(0, attr);
    gen.Emit(Store(W, 0, 7, 108));
    gen.Emit(Rsh32(7));
    gen.Emit(Store(W, 0, 7, 112));
    if gen.error.None? {
      StillRecorded(spec, gen.flow.spec, gen.issued, gen.nrMaps, gen.nrProgs, gen.nrObjMaps, gen.nrFuncPtrMaps);
    }
  }

  /** Load a program. */
  method ProgLoad(gen: Gen, licenseLen: nat, insnCnt: nat, funcInfoSize: nat, lineInfoSize: nat, coreReloSize: nat,
                  mask: int, textLen: nat)
    requires Ready(gen) && (gen.error.None? ==> gen.ksyms == [] && gen.nrFdArray == 0)
    modifies gen
    ensures Ready(gen) && (gen.error.None? ==> old(gen.error).None? && gen.ksyms == [] && gen.nrFdArray == 0)
    ensures gen.nrMaps == old(gen.nrMaps) && gen.nrFuncPtrMaps == old(gen.nrFuncPtrMaps)
    ensures gen.error.None? ==> gen.nrProgs == old(gen.nrProgs) + 1
    ensures gen.error.None? ==> gen.issued == old(gen.issued) + [LoadProg(old(gen.nrProgs))]
  {
    hide Good, IsCleanup, Lands, Recorded, Gen.Valid;
    var license := gen.AddData(licenseLen);
    var insns := gen.AddData(insnCnt * INSN_SIZE);
    var funcInfo := gen.AddData(funcInfoSize);
    var lineInfo := gen.AddData(lineInfoSize);
    var coreRelos := gen.AddData(coreReloSize);
    var attr := gen.AddData(140);
    EmitProgAttr(gen, attr, insns, license, funcInfo, lineInfo, coreRelos);
    if gen.attachKind != 0 {
      EmitAttachTarget(gen, attr, textLen);
    }
    EmitRelos(gen, insns, mask, textLen);
    EmitProgCommand(gen, attr, textLen);
  }

  /** The command itself; whatever its outcome, the modules are closed before it is checked. */
  method EmitProgCommand(gen: Gen, attr: int, textLen: nat)
    requires Ready(gen) && (gen.error.None? ==> attr >= 4 * MAX_FD_ARRAY_SZ && Counted(gen))
    modifies gen
    ensures Ready(gen) && (gen.error.None? ==> old(gen.error).None? && gen.ksyms == [] && gen.nrFdArray == 0)
    ensures gen.nrMaps == old(gen.nrMaps) && gen.nrFuncPtrMaps == old(gen.nrFuncPtrMaps)
    ensures gen.error.None? ==> gen.nrProgs == old(gen.nrProgs) + 1
    ensures gen.error.None? ==> gen.issued == old(gen.issued) + [LoadProg(old(gen.nrProgs))]
  {
    hide Good, IsCleanup, Lands, Recorded, Kfuncs;
    EmitProgChecked(gen, attr, textLen);
    if gen.nrProgs == MAX_USED_PROGS {
      gen.GiveUp(TooBig);
      return;
    }
    if gen.error.None? {
      RecordedStack(gen.flow.spec, gen.issued, ProgFdOff(gen.nrProgs), gen.nrMaps, gen.nrProgs, gen.nrObjMaps,
        gen.nrFuncPtrMaps);
    }
    gen.EmitStackRecord(ProgFdOff(gen.nrProgs));
    gen.nrProgs := gen.nrProgs + 1;
  }

  /** The command, its report, and what is undone before its outcome is checked. */
  method EmitProgChecked(gen: Gen, attr: int, textLen: nat)
    requires Ready(gen) && (gen.error.None? ==> attr >= 4 * MAX_FD_ARRAY_SZ && Counted(gen))
    modifies gen`insns, gen`error, gen`flow, gen`issued, gen`dataLen, gen`ksyms, gen`nrFdArray, gen`relos,
      gen`attachKind
    ensures Ready(gen) && (gen.error.None? ==> old(gen.error).None? && gen.ksyms == [] && gen.nrFdArray == 0)
    ensures gen.error.None? ==> HasOutcome(gen.flow) && gen.issued == old(gen.issued) + [LoadProg(gen.nrProgs)]
  {
    hide Good, IsCleanup, Lands, Recorded, Kfuncs;
    ghost var f, issued := gen.flow, gen.issued;
    EmitSysBpf(gen, BPF_PROG_LOAD, attr, 140, LoadProg(gen.nrProgs));
    DebugRet(gen, textLen);
    CleanupRelos(gen);
    if gen.attachKind != 0 {
      EmitSysCloseBlob(gen, attr + 112);
      gen.attachKind := 0;
    }
    gen.EmitCheckErr();
    if gen.error.None? {
      RecordedMore(f, gen.flow, issued, LoadProg(gen.nrProgs), gen.nrMaps, gen.nrProgs, gen.nrObjMaps,
        gen.nrFuncPtrMaps);
    }
  }
}
