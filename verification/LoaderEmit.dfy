/** Short pieces of loader code. */
module LoaderEmit {
  import opened LoaderVm
  import opened LoaderFlow
  import opened LoaderCleanup
  import opened LoaderGen

  /** No jump lands within the next `n` slots, except where the code starts. */
  ghost predicate Clear(f: Flow, len: nat, n: nat) {
    forall t :: t in f.pending ==> t >= len + n
  }

  /** Code that comes out where it ends, with R7 and R8 as before. */
  ghost predicate Straight(f: Flow, f': Flow) {
    f' == f.(env := f'.env) && SameAt(f.env, f'.env, 7) && SameAt(f.env, f'.env, 8)
  }

  ghost predicate SameAt(env: Env, env': Env, r: Reg) {
    r in env ==> r in env' && env'[r] == env[r]
  }

  /** Store the address of a piece of data. */
  method EmitRelStore(gen: Gen, off: int, data: int)
    requires gen.Valid() && (gen.error.None? ==>
      Outside(FD_ARRAY, off, 8) && gen.flow.live && Clear(gen.flow, |gen.insns|, 5))
    modifies gen`insns, gen`error, gen`flow
    ensures gen.Valid() && (gen.error.None? ==> old(gen.error).None? && Straight(old(gen.flow), gen.flow))
    ensures gen.error.None? ==> |gen.insns| == |old(gen.insns)| + 5
  {
    hide Gen.Valid, Good, IsCleanup, Lands;
    gen.EmitAddr(0, data);
    gen.EmitAddr(1, off);
    gen.Emit(Store(DW, 1, 0, 0));
  }

  method MoveBlob2Blob(gen: Gen, off: int, size: Size, from: int)
    requires gen.Valid()
    requires gen.error.None? ==> Outside(FD_ARRAY, off, Bytes(size)) && gen.flow.live && Clear(gen.flow, |gen.insns|, 6)
    modifies gen`insns, gen`error, gen`flow
    ensures gen.Valid() && (gen.error.None? ==> old(gen.error).None? && Straight(old(gen.flow), gen.flow))
    ensures gen.error.None? ==> |gen.insns| == |old(gen.insns)| + 6 && 0 in gen.flow.env && gen.flow.env[0] == SomeNum
  {
    hide Gen.Valid, Good, IsCleanup, Lands;
    gen.EmitAddr(2, from);
    gen.Emit(Load(size, 0, 2, 0));
    gen.EmitAddr(1, off);
    gen.Emit(Store(size, 1, 0, 0));
  }

  /** Copy a word of the context; a zero is left alone if the caller says so. */
  method MoveCtx2Blob(gen: Gen, off: int, size: Size, ctxOff: int, checkNonZero: bool)
    requires gen.Valid()
    requires gen.error.None? ==> Outside(FD_ARRAY, off, Bytes(size)) && gen.flow.live && gen.flow.pending == map[]
    modifies gen`insns, gen`error, gen`flow
    ensures gen.Valid() && (gen.error.None? ==> old(gen.error).None? && Straight(old(gen.flow), gen.flow))
  {
    hide Gen.Valid, Good, IsCleanup, Lands;
    gen.Emit(Load(size, 0, 6, ctxOff));
    if checkNonZero {
      gen.EmitJump(Eq, 0, 0, 3);
    }
    EmitStore(gen, off, size);
    if checkNonZero {
      gen.LandHere();
    }
  }

  /** Store R0 at a place in the blob. */
  method EmitStore(gen: Gen, off: int, size: Size)
    requires gen.Valid()
    requires gen.error.None? ==> Outside(FD_ARRAY, off, Bytes(size)) && gen.flow.live && Clear(gen.flow, |gen.insns|, 3)
    modifies gen`insns, gen`error, gen`flow
    ensures gen.Valid() && (gen.error.None? ==> old(gen.error).None? && |gen.insns| == |old(gen.insns)| + 3)
    ensures gen.error.None? ==> gen.flow == old(gen.flow).(env := old(gen.flow).env[1 := Is(Ptr(Blob, off))])
  {
    hide Gen.Valid, Good, IsCleanup, Lands;
    gen.EmitAddr(1, off);
    gen.Emit(Store(size, 1, 0, 0));
  }

  method MoveStack2Blob(gen: Gen, off: int, size: Size, stackOff: int)
    requires gen.Valid()
    requires gen.error.None? ==> Outside(FD_ARRAY, off, Bytes(size)) && gen.flow.live && gen.flow.pending == map[]
    modifies gen`insns, gen`error, gen`flow
    ensures gen.Valid() && (gen.error.None? ==> old(gen.error).None? && Straight(old(gen.flow), gen.flow))
  {
    hide Gen.Valid, Good, IsCleanup, Lands;
    gen.Emit(Load(size, 0, 10, stackOff));
    gen.EmitAddr(1, off);
    gen.Emit(Store(size, 1, 0, 0));
  }

  /** Issue a command; its outcome goes to R7. */
  method EmitSysBpf(gen: Gen, cmd: nat, attr: int, size: nat, ghost what: Command)
    requires cmd == Number(what) && gen.Valid() && (gen.error.None? ==> Outside(FD_ARRAY, attr, size))
    requires gen.error.None? ==>
      gen.flow.live && gen.flow.pending == map[] && gen.flow.spec.checked == gen.flow.spec.Count()
    modifies gen`insns, gen`error, gen`flow, gen`issued
    ensures gen.Valid() && (gen.error.None? ==> old(gen.error).None? && gen.issued == old(gen.issued) + [what])
    ensures gen.error.None? ==> var f := old(gen.flow);
      gen.flow == f.(env := gen.flow.env, spec := f.spec.(cmds := f.spec.cmds + [cmd], settled := true))
      && 7 in gen.flow.env && gen.flow.env[7] == LastResult
  {
    hide Gen.Valid, Good, IsCleanup, Lands;
    gen.Emit(MovImm(1, cmd));
    gen.EmitAddr(2, attr);
    gen.Emit(MovImm(3, size));
    gen.EmitCommand(what);
    gen.Emit(Mov(7, 0));
  }

  /** Report registers, if there is a log. */
  method EmitDebug(gen: Gen, reg1: Reg, reg2: int, len: nat)
    requires gen.Valid() && IsFree(reg1) && -1 <= reg2 <= 9 && reg2 != 6
    requires gen.error.None? && gen.log ==> gen.flow.live && Clear(gen.flow, |gen.insns|, 6)
    modifies gen`insns, gen`error, gen`flow, gen`dataLen
    ensures gen.Valid() && (gen.error.None? ==> old(gen.error).None? && Straight(old(gen.flow), gen.flow))
    ensures gen.error.None? ==> |gen.insns| == |old(gen.insns)| + if !gen.log then 0 else if reg2 >= 0 then 6 else 5
    ensures gen.dataLen >= old(gen.dataLen)
  {
    hide Gen.Valid, Good, IsCleanup, Lands;
    if !gen.log {
      return;
    }
    EmitDebugText(gen, reg1, len);
    if reg2 >= 0 {
      gen.Emit(Mov(4, reg2));
    }
    gen.EmitCall(TracePrintk);
  }

  /** The text of a report, and the first register to go with it. */
  method EmitDebugText(gen: Gen, reg1: Reg, len: nat)
    requires gen.Valid() && IsFree(reg1) && (gen.error.None? ==> gen.flow.live && Clear(gen.flow, |gen.insns|, 6))
    modifies gen`insns, gen`error, gen`flow, gen`dataLen
    ensures gen.Valid() && (gen.error.None? ==> old(gen.error).None? && Straight(old(gen.flow), gen.flow))
    ensures gen.error.None? ==> |gen.insns| == |old(gen.insns)| + 4 && Clear(gen.flow, |gen.insns|, 2)
    ensures gen.dataLen >= old(gen.dataLen)
  {
    hide Gen.Valid, Good, IsCleanup, Lands;
    var addr := gen.AddData(len);
    gen.EmitAddr(1, addr);
    gen.Emit(MovImm(2, len));
    gen.Emit(Mov(3, reg1));
  }

  /** Report the last outcome. */
  method DebugRet(gen: Gen, len: nat)
    requires gen.Valid() && (gen.error.None? ==> gen.flow.live && gen.flow.pending == map[])
    modifies gen`insns, gen`error, gen`flow, gen`dataLen
    ensures gen.Valid() && (gen.error.None? ==> old(gen.error).None? && Straight(old(gen.flow), gen.flow)) &&
      gen.dataLen >= old(gen.dataLen)
  {
    EmitDebug(gen, 7, -1, len);
  }

  /** Close what R1 holds, unless it is zero. */
  method EmitSysClose(gen: Gen)
    requires gen.Valid() && (gen.error.None? ==>
      gen.flow.live && gen.flow.pending == map[] && 1 in gen.flow.env && gen.flow.env[1] == SomeNum)
    modifies gen`insns, gen`error, gen`flow, gen`dataLen
    ensures gen.Valid() && (gen.error.None? ==> old(gen.error).None? && Straight(old(gen.flow), gen.flow)) &&
      gen.dataLen >= old(gen.dataLen)
  {
    hide Gen.Valid, Good, IsCleanup, Lands;
    gen.EmitJump(Sle, 1, 0, 2 + if gen.log then 6 else 0);
    gen.Emit(Mov(9, 1));
    gen.EmitCall(SysClose);
    EmitDebug(gen, 9, 0, CLOSE_TEXT);
    gen.LandHere();
  }

  method EmitSysCloseStack(gen: Gen, stackOff: int)
    requires gen.Valid() && (gen.error.None? ==> gen.flow.live && gen.flow.pending == map[])
    modifies gen`insns, gen`error, gen`flow, gen`dataLen
    ensures gen.Valid() && (gen.error.None? ==> old(gen.error).None? && Straight(old(gen.flow), gen.flow)) &&
      gen.dataLen >= old(gen.dataLen)
  {
    hide Gen.Valid, Good, IsCleanup, Lands;
    gen.Emit(Load(W, 1, 10, stackOff));
    EmitSysClose(gen);
  }

  method EmitSysCloseBlob(gen: Gen, blobOff: int)
    requires gen.Valid() && (gen.error.None? ==> gen.flow.live && gen.flow.pending == map[])
    modifies gen`insns, gen`error, gen`flow, gen`dataLen
    ensures gen.Valid() && (gen.error.None? ==> old(gen.error).None? && Straight(old(gen.flow), gen.flow)) &&
      gen.dataLen >= old(gen.dataLen)
  {
    hide Gen.Valid, Good, IsCleanup, Lands;
    gen.EmitAddr(0, blobOff);
    gen.Emit(Load(W, 1, 0, 0));
    EmitSysClose(gen);
  }
}
