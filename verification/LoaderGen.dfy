/** The generator of loader programs: instructions are appended one by one, and what is known of all runs so
    far is kept up to date. */
module LoaderGen {
  import opened Options
  import opened Memory
  import opened LoaderVm
  import opened LoaderFlow
  import opened LoaderCleanup

  datatype Errno = OutOfRange | TooBig | Domain | Mismatch | NoSpace | NoMemory

  const MAX_USED_MAPS := 64
  const MAX_USED_PROGS := 32
  const MAX_KFUNC_DESCS := 256
  const MAX_FD_ARRAY_SZ := MAX_USED_MAPS + MAX_KFUNC_DESCS
  const INT32_MAX := 0x7fff_ffff

  /** The array of descriptors is the first thing in the blob, and cleanup follows the seven slots of the prologue. */
  const FD_ARRAY := 0
  const CLEANUP := 7

  /** The length of the text that reports a close: "close(%d) = %d". */
  const CLOSE_TEXT := 15

  const BTF_FD_OFF := -STACK_SIZE
  const INNER_MAP_FD_OFF := -STACK_SIZE + 4

  function ProgFdOff(i: nat): int {
    -STACK_SIZE + 8 + 4 * i
  }

  function SlotOff(i: int): int {
    FD_ARRAY + 4 * i
  }

  /** A symbol that a program refers to, and where. */
  datatype Relo = Relo(name: string, kind: nat, insnIdx: nat, isWeak: bool, isTypeless: bool, isLd64: bool)

  type Uses = n: nat | n > 0 witness 1

  /** A symbol that has been looked up. */
  datatype Ksym = Ksym(name: string, kind: nat, ref: Uses, off: int, typeless: bool, insn: nat, isLd64: bool)

  /** What a command of the finished program is for. */
  datatype Command = BtfLoad | CreateInner | CreateMap(slot: nat) | LoadProg(index: nat) | UpdateElem | Freeze

  /** The number by which the machine knows it. */
  function Number(c: Command): nat {
    match c
    case BtfLoad => 18
    case CreateInner => 0
    case CreateMap(_) => 0
    case LoadProg(_) => 5
    case UpdateElem => 2
    case Freeze => 22
  }

  ghost predicate Numbered(issued: seq<Command>, cmds: seq<int>) {
    |cmds| == |issued| && forall j :: 0 <= j < |issued| ==> cmds[j] == Number(issued[j])
  }

  predicate IsJump(i: Insn) {
    i.Ja? || i.JumpIf?
  }

  /** The field for the distance of a jump has 16 bits. */
  predicate Fits16(jump: int) {
    -0x8000 <= jump < 0x8000
  }

  /** Every jump has a distance that fits, and lands on an instruction, or at the end of the code so far, or
      at a place still to come. */
  ghost predicate Lands(p: seq<Insn>, pending: map<int, Env>) {
    forall i :: 0 <= i < |p| && IsJump(p[i]) ==> Fits16(p[i].jump) && LandsAt(p, pending, i + 1 + p[i].jump)
  }

  ghost predicate LandsAt(p: seq<Insn>, pending: map<int, Env>, t: int) {
    (0 <= t < |p| && !p[t].Wide?) || t == |p| || (t > |p| && t in pending)
  }

  lemma CleanupKept(p: seq<Insn>, q: seq<Insn>, at: nat, n: nat, m: nat, fd: int, log: bool)
    requires IsCleanup(p, at, n, m, fd, log)
    ensures IsCleanup(p + q, at, n, m, fd, log)
  {
    hide StackClose, BlobClose;
    forall a: nat, code | CodeAt(p, a, code)
      ensures CodeAt(p + q, a, code)
    {
      assert (p + q)[a..a + |code|] == p[a..a + |code|];
    }
    forall j | 0 <= j < m
      ensures HasBlobClose(p + q, MapClose(at, n, j, log), fd + 4 * j, log)
    {
      assert HasBlobClose(p, MapClose(at, n, j, log), fd + 4 * j, log);
    }
  }

  // ----- the prologue -----

  function Prologue(jump: nat): seq<Insn> {
    [Mov(6, 1), Mov(1, 10), AddImm(1, -STACK_SIZE), MovImm(2, STACK_SIZE), MovImm(3, 0), Call(ProbeReadKernel),
      Ja(jump)]
  }

  const NOTHING_YET := Spec([], 0, true, map[], map[], map[])

  function AfterPrologue(jump: nat): Flow {
    Flow(FD_ARRAY, CLEANUP, map[], false, map[CLEANUP + jump := map[]], NOTHING_YET)
  }

  /** The state before the call that clears the stack. */
  function BeforeClear(s: State): (s': State)
    requires Machine(s)
    ensures Machine(s')
  {
    var regs := s.regs[6 := Ptr(Ctx, 0)][1 := Ptr(Stack, -STACK_SIZE)][2 := Num(STACK_SIZE)][3 := Num(0)];
    s.(pc := 5, regs := regs)
  }

  lemma PrologueStart(p: seq<Insn>, w: World, s: State, jump: nat)
    requires Starts(FD_ARRAY, s) && p == Prologue(jump)
    ensures Runs(p, w, s, BeforeClear(s), 5)
  {
    hide Word, Fill;
    var s1 := s.(pc := 1, regs := s.regs[6 := Ptr(Ctx, 0)]);
    var s2 := s1.(pc := 2, regs := s1.regs[1 := Ptr(Stack, 0)]);
    var s3 := s2.(pc := 3, regs := s2.regs[1 := Ptr(Stack, -STACK_SIZE)]);
    var s4 := s3.(pc := 4, regs := s3.regs[2 := Num(STACK_SIZE)]);
    var s5 := s4.(pc := 5, regs := s4.regs[3 := Num(0)]);
    assert Step(p, w, s) == s1 && Step(p, w, s1) == s2 && Step(p, w, s2) == s3 && Step(p, w, s3) == s4 &&
      Step(p, w, s4) == s5;
    FiveRuns(p, w, s, s1, s2, s3, s4, s5);
    assert s5.regs == BeforeClear(s).regs;
  }

  lemma FiveRuns(p: seq<Insn>, w: World, s: State, s1: State, s2: State, s3: State, s4: State, s5: State)
    requires Machine(s) && Machine(s1) && Machine(s2) && Machine(s3) && Machine(s4)
    requires forall x :: x in [s, s1, s2, s3, s4] ==> x.outcome.Running? && 0 <= x.pc < |p|
    requires Step(p, w, s) == s1 && Step(p, w, s1) == s2 && Step(p, w, s2) == s3 && Step(p, w, s3) == s4 &&
      Step(p, w, s4) == s5
    ensures Runs(p, w, s, s5, 5)
  {
    hide Step;
    assert s in [s, s1, s2, s3, s4] && s1 in [s, s1, s2, s3, s4] && s2 in [s, s1, s2, s3, s4];
    assert s3 in [s, s1, s2, s3, s4] && s4 in [s, s1, s2, s3, s4];
    assert Runs(p, w, s5, s5, 0);
    assert Runs(p, w, s4, s5, 1);
    assert Runs(p, w, s3, s5, 2);
    assert Runs(p, w, s2, s5, 3);
    assert Runs(p, w, s1, s5, 4);
  }

  /** The call that clears the stack, and the jump past the cleanup code. */
  lemma PrologueEnd(p: seq<Insn>, w: World, s: State, s5: State, jump: nat)
    requires Starts(FD_ARRAY, s) && s5 == BeforeClear(s) && p == Prologue(jump)
    ensures exists s7 :: Runs(p, w, s5, s7, 2) && Arrived(AfterPrologue(jump), 7, s7)
  {
    hide Word, Fill, Agree;
    var s6 := Step(p, w, s5);
    assert s6.stack == Fill(s.stack, -STACK_SIZE, STACK_SIZE, map[]) && s6.blob == s.blob;
    assert s6.regs[6] == Ptr(Ctx, 0) && s6.regs[10] == Ptr(Stack, 0) && s6.pc == 6;
    var s7 := Step(p, w, s6);
    ZeroFilled(s.stack, s7.stack);
    EmptyAgrees(s7);
    assert Runs(p, w, s7, s7, 0);
    assert Runs(p, w, s6, s7, 1);
    assert Runs(p, w, s5, s7, 2);
  }

  lemma PrologueSteps(p: seq<Insn>, w: World, s: State, jump: nat)
    requires Starts(FD_ARRAY, s) && p == Prologue(jump)
    ensures exists s' :: Runs(p, w, s, s', 7) && Arrived(AfterPrologue(jump), 7, s')
  {
    hide Runs, Word, Step, Arrived;
    var s5 := BeforeClear(s);
    PrologueStart(p, w, s, jump);
    PrologueEnd(p, w, s, s5, jump);
    var s7 :| Runs(p, w, s5, s7, 2) && Arrived(AfterPrologue(jump), 7, s7);
    RunsOn(p, w, s, s5, s7, 5, 2);
  }

  lemma EmptyAgrees(s: State)
    requires Machine(s)
    ensures Agree(map[], s)
  {
  }

  lemma ZeroFilled(m: Mem, m': Mem)
    requires m' == Fill(m, -STACK_SIZE, STACK_SIZE, map[])
    ensures forall a :: IsStackSlot(a) ==> Word(m', a) == 0
  {
    forall a | IsStackSlot(a)
      ensures Word(m', a) == 0
    {
      WordParts(m', a);
      assert ByteAt(m', a) == 0 && ByteAt(m', a + 1) == 0 && ByteAt(m', a + 2) == 0 && ByteAt(m', a + 3) == 0;
    }
  }

  lemma GoodPrologue(jump: nat)
    ensures Good(Prologue(jump), AfterPrologue(jump))
  {
    hide Runs, Arrived;
    var p := Prologue(jump);
    forall w, s | Starts(FD_ARRAY, s)
      ensures Arrives(p, AfterPrologue(jump), w, s)
    {
      PrologueSteps(p, w, s, jump);
    }
  }

  // ----- emitting -----

  class Gen {
    const log: bool
    const hash: bool
    const nrSlots: nat
    const nrObjMaps: nat
    const maxFuncPtrMaps: nat
    var insns: seq<Insn>
    var dataLen: nat
    var error: Option<Errno>
    var nrProgs: nat
    var nrMaps: nat
    var nrFuncPtrMaps: nat
    var nrFdArray: int
    var attachKind: nat
    var attachLen: nat
    var relos: seq<Relo>
    var ksyms: seq<Ksym>
    ghost var flow: Flow
    ghost var issued: seq<Command>

    /** As long as there is no error, the code is good, all its jumps land, and the cleanup code is in place. */
    ghost predicate Valid()
      reads this
    {
      error.None? ==>
        && Good(insns, flow) && flow.fd == FD_ARRAY && flow.cleanup == CLEANUP < |insns| &&
          Numbered(issued, flow.spec.cmds)
        && Lands(insns, flow.pending) && dataLen >= FD_ARRAY + 4 * MAX_FD_ARRAY_SZ
        && IsCleanup(insns, CLEANUP, nrSlots, nrObjMaps + maxFuncPtrMaps, FD_ARRAY, log)
        && nrObjMaps + maxFuncPtrMaps <= MAX_USED_MAPS
    }

    /** Start a loader: the prologue, and the cleanup code that all failures go to. */
    constructor (log: bool, hash: bool, maxProgs: nat, nrObjMaps: nat, maxFuncPtrMaps: nat)
      ensures Valid() && issued == [] && nrProgs == nrMaps == nrFuncPtrMaps == nrFdArray == attachKind == 0 &&
        relos == [] && ksyms == []
      ensures this.log == log && this.hash == hash && this.nrObjMaps == nrObjMaps &&
        this.maxFuncPtrMaps == maxFuncPtrMaps
      ensures nrSlots == 2 + if maxProgs < MAX_USED_PROGS then maxProgs else MAX_USED_PROGS
      ensures error == Some(TooBig) <==> nrObjMaps + maxFuncPtrMaps > MAX_USED_MAPS
      ensures error.None? ==> flow == Flow(FD_ARRAY, CLEANUP, map[], true, map[], NOTHING_YET)
      ensures error.None? ==>
        insns[CLEANUP - 1] == Ja(|insns| - CLEANUP) && |insns| ==
          CLEANUP + 3 * nrSlots + (nrObjMaps + maxFuncPtrMaps) * BlobCloseSize(log) + 2
    {
      this.log, this.hash, this.nrObjMaps, this.maxFuncPtrMaps := log, hash, nrObjMaps, maxFuncPtrMaps;
      nrSlots := 2 + if maxProgs < MAX_USED_PROGS then maxProgs else MAX_USED_PROGS;
      insns, dataLen, issued := [], 4 * MAX_FD_ARRAY_SZ, [];
      nrProgs, nrMaps, nrFuncPtrMaps, nrFdArray, attachKind, attachLen, relos, ksyms := 0, 0, 0, 0, 0, 0, [], [];
      error := if nrObjMaps + maxFuncPtrMaps > MAX_USED_MAPS then Some(TooBig) else None;
      flow := Flow(FD_ARRAY, CLEANUP, map[], true, map[], NOTHING_YET);
      new;
      if error.Some? {
        return;
      }
      EmitStart();
    }

    /** Everything up to the end of the cleanup code. */
    method EmitStart()
      requires error.None? && insns == [] && dataLen == 4 * MAX_FD_ARRAY_SZ && issued == [] &&
        nrObjMaps + maxFuncPtrMaps <= MAX_USED_MAPS
      requires nrSlots <= 2 + MAX_USED_PROGS
      requires flow == Flow(FD_ARRAY, CLEANUP, map[], true, map[], NOTHING_YET)
      modifies this`insns, this`error, this`dataLen
      ensures Valid() && error != Some(TooBig)
      ensures error.None? ==>
        insns[CLEANUP - 1] == Ja(|insns| - CLEANUP) && |insns| ==
          CLEANUP + 3 * nrSlots + (nrObjMaps + maxFuncPtrMaps) * BlobCloseSize(log) + 2
    {
      hide Good, StackStage, MapStage, BlobClose, StackClose;
      var nrMaps := nrObjMaps + maxFuncPtrMaps;
      var jump := nrSlots * 3 + 2 + nrMaps * (6 + if log then 6 else 0);
      EmitPrologue(jump);
      var i := 0;
      while i < nrSlots
        invariant 0 <= i <= nrSlots && error != Some(TooBig) && dataLen == 4 * MAX_FD_ARRAY_SZ
        invariant error.None? ==> StackStage(insns, jump, i)
      {
        ghost var p := insns;
        EmitStackClose(i);
        if error.None? {
          StackStageNext(p, jump, i, nrSlots);
        }
        i := i + 1;
      }
      if error.None? {
        MapStageFirst(insns, jump, nrSlots, log);
      }
      var j := 0;
      while j < nrMaps
        invariant 0 <= j <= nrMaps && error != Some(TooBig) && dataLen >= 4 * MAX_FD_ARRAY_SZ
        invariant error.None? ==> MapStage(insns, jump, nrSlots, j, log)
      {
        ghost var p := insns;
        ghost var addr, len := EmitBlobClose(SlotOff(j));
        if error.None? {
          MapStageNext(p, jump, nrSlots, j, nrMaps, log, addr, len);
        }
        j := j + 1;
      }
      ghost var p := insns;
      Append(Mov(0, 7));
      Append(Exit);
      if error.None? {
        assert insns == p + [Mov(0, 7), Exit];
        FinishStart(p, jump, nrSlots, nrMaps, log);
      }
    }

    method EmitPrologue(jump: nat)
      requires error.None? && insns == [] && jump < 0x8000
      modifies this`insns, this`error
      ensures error != Some(TooBig) && (error.None? ==> StackStage(insns, jump, 0))
    {
      Append(Mov(6, 1));
      Append(Mov(1, 10));
      Append(AddImm(1, -STACK_SIZE));
      Append(MovImm(2, STACK_SIZE));
      Append(MovImm(3, 0));
      Append(Call(ProbeReadKernel));
      Append(Ja(jump));
    }

    method EmitStackClose(i: nat)
      modifies this`insns, this`error
      ensures error == Some(TooBig) ==> old(error) == Some(TooBig)
      ensures error.None? ==> old(error).None? && insns == old(insns) + StackClose(i)
    {
      Append(Load(W, 1, 10, -STACK_SIZE + 4 * i));
      Append(JumpIf(Sle, 1, 0, 1));
      Append(Call(SysClose));
    }

    method EmitBlobClose(a: int) returns (addr: int, len: int)
      modifies this`insns, this`error, this`dataLen
      ensures dataLen >= old(dataLen) && (error == Some(TooBig) ==> old(error) == Some(TooBig))
      ensures error.None? ==> old(error).None? && insns == old(insns) + BlobClose(a, log, addr, len)
    {
      addr, len := 0, 0;
      Append(LdBlob(0, a));
      Append(Wide);
      Append(Load(W, 1, 0, 0));
      Append(JumpIf(Sle, 1, 0, 2 + if log then 6 else 0));
      Append(Mov(9, 1));
      Append(Call(SysClose));
      if log {
        len := CLOSE_TEXT;
        addr := Reserve(CLOSE_TEXT);
        EmitReport(addr, len);
      }
    }

    method EmitReport(addr: int, len: int)
      modifies this`insns, this`error
      ensures error == Some(TooBig) ==> old(error) == Some(TooBig)
      ensures error.None? ==> old(error).None? && insns == old(insns) + Report(addr, len)
    {
      Append(LdBlob(1, addr));
      Append(Wide);
      Append(MovImm(2, len));
      Append(Mov(3, 9));
      Append(Mov(4, 0));
      Append(Call(TracePrintk));
    }

    /** Room for one more instruction. */
    method Append(i: Insn)
      modifies this`insns, this`error
      ensures error.None? ==> old(error).None? && insns == old(insns) + [i]
      ensures old(error).Some? ==> error == old(error)
      ensures error == Some(TooBig) ==> old(error) == Some(TooBig)
    {
      if error.Some? {
        return;
      }
      if |insns| * 8 + 8 > INT32_MAX {
        error := Some(OutOfRange);
        return;
      }
      var got := Ask(false);
      if !got {
        error := Some(NoMemory);
        return;
      }
      insns := insns + [i];
    }

    /** Room for more data, in steps of 8 bytes; where it starts. */
    method AddData(size: nat) returns (off: nat)
      requires Valid()
      modifies this`dataLen, this`error
      ensures Valid() && (error.None? ==> old(error).None? && off == old(dataLen) && dataLen >= off + size)
      ensures dataLen >= old(dataLen) && (old(error).Some? ==> error.Some?)
    {
      off := Reserve(size);
    }

    method Reserve(size: nat) returns (off: nat)
      modifies this`dataLen, this`error
      ensures dataLen >= old(dataLen) && (error.None? ==>
        old(error).None? && off == old(dataLen) && dataLen >= off + size)
      ensures old(error).Some? ==> error.Some?
      ensures error == Some(TooBig) ==> old(error) == Some(TooBig)
    {
      off := 0;
      if size > INT32_MAX {
        error := Some(OutOfRange);
        return;
      }
      var size8 := (size + 7) / 8 * 8;
      if error.Some? {
        return;
      }
      if dataLen + size8 > INT32_MAX {
        error := Some(OutOfRange);
        return;
      }
      var got := Ask(false);
      if !got {
        error := Some(NoMemory);
        return;
      }
      off := dataLen;
      dataLen := dataLen + size8;
    }

    /** The generator gives up. */
    method GiveUp(e: Errno)
      modifies this`error
      ensures Valid() && error == Some(e)
    {
      error := Some(e);
    }

    /** An instruction that neither jumps nor calls. */
    method Emit(i: Insn)
      requires Valid()
      requires error.None? ==>
        |insns| !in flow.pending && (flow.live ==> IsPlain(FD_ARRAY, flow.env, i)) && !i.Wide? && !IsJump(i)
      modifies this`insns, this`error, this`flow
      ensures Valid() && (error.None? ==> old(error).None? && |insns| == |old(insns)| + 1)
      ensures error.None? ==> flow == old(flow).(env := AfterPlain(old(flow).env, i))
    {
      hide Good, IsPlain, AfterPlain, IsCleanup;
      if error.None? {
        ExtendPlain(insns, flow, i);
        CleanupKept(insns, [i], CLEANUP, nrSlots, nrObjMaps + maxFuncPtrMaps, FD_ARRAY, log);
        LandsOn(insns, flow.pending, i);
      }
      Append(i);
      if error.None? {
        flow := flow.(env := AfterPlain(flow.env, i));
      }
    }

    /** The address of a place in the blob. */
    method EmitAddr(dst: Reg, off: int)
      requires Valid() && IsFree(dst)
      requires error.None? ==> |insns| !in flow.pending && |insns| + 1 !in flow.pending
      modifies this`insns, this`error, this`flow
      ensures Valid() && (error.None? ==> old(error).None? && |insns| == |old(insns)| + 2)
      ensures error.None? ==> flow == old(flow).(env := old(flow).env[dst := Is(Ptr(Blob, off))])
    {
      hide Good, IsCleanup;
      ghost var p := insns;
      if error.None? {
        ExtendWide(insns, flow, dst, off);
        CleanupKept(insns, [LdBlob(dst, off), Wide], CLEANUP, nrSlots, nrObjMaps + maxFuncPtrMaps, FD_ARRAY, log);
        LandsOn(insns, flow.pending, LdBlob(dst, off));
        LandsOnWide(insns + [LdBlob(dst, off)], flow.pending);
      }
      Append(LdBlob(dst, off));
      Append(Wide);
      if error.None? {
        assert insns == p + [LdBlob(dst, off), Wide];
        flow := flow.(env := flow.env[dst := Is(Ptr(Blob, off))]);
      }
    }

    /** A conditional jump forward. */
    method EmitJump(c: Cond, r: Reg, imm: int, jump: nat)
      requires jump < 0x8000 && !IsCheck(c, r, imm)
      requires Valid() && (error.None? ==>
        |insns| !in flow.pending && flow.live && r in flow.env && IsNumber(flow.env[r]))
      modifies this`insns, this`error, this`flow
      ensures Valid() && (error.None? ==> old(error).None? && |insns| == |old(insns)| + 1)
      ensures error.None? ==> flow == Park(old(flow), |insns| + jump)
    {
      hide Good, IsCleanup, Park;
      var i := JumpIf(c, r, imm, jump);
      if error.None? {
        ExtendJump(insns, flow, c, r, imm, jump);
        CleanupKept(insns, [i], CLEANUP, nrSlots, nrObjMaps + maxFuncPtrMaps, FD_ARRAY, log);
        LandsOnJump(insns, flow, i);
        ParkFields(flow, |insns| + 1 + jump);
      }
      Append(i);
      if error.None? {
        flow := Park(flow, |insns| + jump);
      }
    }

    /** A jump forward. */
    method EmitJa(jump: nat)
      requires jump < 0x8000 && Valid() && (error.None? ==> |insns| !in flow.pending && flow.live)
      modifies this`insns, this`error, this`flow
      ensures Valid() && (error.None? ==> old(error).None? && |insns| == |old(insns)| + 1)
      ensures error.None? ==> flow == Park(old(flow), |insns| + jump).(live := false)
    {
      hide Good, IsCleanup, Park;
      var i := Ja(jump);
      if error.None? {
        ExtendJa(insns, flow, jump);
        CleanupKept(insns, [i], CLEANUP, nrSlots, nrObjMaps + maxFuncPtrMaps, FD_ARRAY, log);
        LandsOnJump(insns, flow, i);
        ParkFields(flow, |insns| + 1 + jump);
      }
      Append(i);
      if error.None? {
        flow := Park(flow, |insns| + jump).(live := false);
      }
    }

    /** This is where an earlier jump lands. */
    ghost method LandHere()
      requires Valid() && (error.None? ==> |insns| in flow.pending)
      modifies this`flow
      ensures Valid() && (error.None? ==> flow == Landed(old(flow), |insns|))
    {
      hide Good, IsCleanup;
      if error.None? {
        Land(insns, flow);
        flow := Landed(flow, |insns|);
      }
    }

    /** If the last outcome is negative, go to cleanup. */
    method EmitCheckErr()
      requires Valid()
      requires error.None? ==> |insns| !in flow.pending && flow.live && 7 in flow.env && IsNumber(flow.env[7])
      requires error.None? ==>
        if flow.env[7].LastResult? then flow.pending == map[] && flow.spec.checked + 1 == flow.spec.Count()
        else flow.spec.checked == flow.spec.Count()
      modifies this`insns, this`error, this`flow
      ensures Valid() && (error.None? ==> old(error).None? && |insns| == |old(insns)| + 1 && flow == Checked(old(flow)))
      ensures error.None? ==>
        old(insns) < insns && insns[|insns| - 1].JumpIf? && |insns| + insns[|insns| - 1].jump == CLEANUP
    {
      hide Good, IsCleanup;
      var off := CLEANUP - |insns| - 1;
      if Fits16(off) {
        var i := JumpIf(Slt, 7, 0, off);
        if error.None? {
          ExtendCheck(insns, flow, off);
          CleanupKept(insns, [i], CLEANUP, nrSlots, nrObjMaps + maxFuncPtrMaps, FD_ARRAY, log);
          CleanupEntry(insns, nrSlots, nrObjMaps + maxFuncPtrMaps, FD_ARRAY, log);
          LandsOnCheck(insns, flow, i);
        }
        Append(i);
        if error.None? {
          flow := Checked(flow);
        }
      } else {
        error := Some(OutOfRange);
      }
    }

    /** A helper call other than a command. */
    method EmitCall(h: Helper)
      requires Valid() && (error.None? ==> |insns| !in flow.pending && flow.live && IsHarmless(FD_ARRAY, flow.env, h))
      modifies this`insns, this`error, this`flow
      ensures Valid() && (error.None? ==> old(error).None? && |insns| == |old(insns)| + 1)
      ensures error.None? ==> flow == old(flow).(env := AfterHelper(old(flow).env))
    {
      hide Good, IsCleanup, AfterHelper, IsHarmless;
      if error.None? {
        ExtendCall(insns, flow, h);
        CleanupKept(insns, [Call(h)], CLEANUP, nrSlots, nrObjMaps + maxFuncPtrMaps, FD_ARRAY, log);
        LandsOn(insns, flow.pending, Call(h));
      }
      Append(Call(h));
      if error.None? {
        flow := flow.(env := AfterHelper(flow.env));
      }
    }

    /** A command; its arguments are in R1, R2 and R3. */
    method EmitCommand(ghost what: Command)
      requires Valid() && (error.None? ==> flow.live && flow.pending == map[] && flow.spec.checked == flow.spec.Count())
      requires error.None? ==> IsNum(flow.env, 3) && PointsClear(FD_ARRAY, flow.env, 2, flow.env[3].v.n)
      requires error.None? ==> 1 in flow.env && flow.env[1] == Is(Num(Number(what)))
      modifies this`insns, this`error, this`flow, this`issued
      ensures Valid() && (error.None? ==> old(error).None? && |insns| == |old(insns)| + 1)
      ensures error.None? ==> flow == Commanded(old(flow)) && issued == old(issued) + [what]
    {
      hide Good, IsCleanup;
      if error.None? {
        ExtendCommand(insns, flow);
        CleanupKept(insns, [Call(SysBpf)], CLEANUP, nrSlots, nrObjMaps + maxFuncPtrMaps, FD_ARRAY, log);
        LandsOn(insns, flow.pending, Call(SysBpf));
      }
      Append(Call(SysBpf));
      if error.None? {
        flow := Commanded(flow);
        issued := issued + [what];
      }
    }

    /** Read back an outcome into R0. */
    method EmitRead(i: Insn, ghost idx: nat)
      requires Valid() && (error.None? ==> |insns| !in flow.pending && flow.live && ReadsOutcome(flow, i, idx))
      modifies this`insns, this`error, this`flow
      ensures Valid() && (error.None? ==> old(error).None? && |insns| == |old(insns)| + 1)
      ensures error.None? ==> flow == old(flow).(env := old(flow).env[0 := ResultAt(idx)])
    {
      hide Good, IsCleanup;
      if error.None? {
        ExtendRead(insns, flow, i, idx);
        CleanupKept(insns, [i], CLEANUP, nrSlots, nrObjMaps + maxFuncPtrMaps, FD_ARRAY, log);
        LandsOn(insns, flow.pending, i);
      }
      Append(i);
      if error.None? {
        flow := flow.(env := flow.env[0 := ResultAt(idx)]);
      }
    }

    /** Hand out the outcome in R0 through the context. */
    method EmitCtxRecord(off: int, ghost idx: nat)
      requires Valid() && off % 4 == 0
      requires error.None? ==> flow.live && flow.pending == map[] && 0 in flow.env && flow.env[0] == ResultAt(idx)
      modifies this`insns, this`error, this`flow
      ensures Valid() && (error.None? ==> old(error).None? && |insns| == |old(insns)| + 1)
      ensures error.None? ==> flow == CtxRecorded(old(flow), off, idx)
    {
      hide Good, IsCleanup;
      var i := Store(W, 6, 0, off);
      if error.None? {
        ExtendCtxRecord(insns, flow, off, idx);
        CleanupKept(insns, [i], CLEANUP, nrSlots, nrObjMaps + maxFuncPtrMaps, FD_ARRAY, log);
        LandsOn(insns, flow.pending, i);
      }
      Append(i);
      if error.None? {
        flow := CtxRecorded(flow, off, idx);
      }
    }

    /** Remember the outcome of the last command on the stack. */
    method EmitStackRecord(off: int)
      requires Valid() && IsStackSlot(off) && (error.None? ==> HasOutcome(flow))
      modifies this`insns, this`error, this`flow
      ensures Valid() && (error.None? ==>
        old(error).None? && |insns| == |old(insns)| + 1 && flow == StackRecorded(old(flow), off))
    {
      hide Good, IsCleanup;
      var i := Store(W, 10, 7, off);
      if error.None? {
        ExtendStackRecord(insns, flow, off);
        CleanupKept(insns, [i], CLEANUP, nrSlots, nrObjMaps + maxFuncPtrMaps, FD_ARRAY, log);
        LandsOn(insns, flow.pending, i);
      }
      Append(i);
      if error.None? {
        flow := StackRecorded(flow, off);
      }
    }

    /** Remember the outcome of the last command in a map slot, whose address is in R1. */
    method EmitSlotRecord(slot: nat)
      requires Valid() && (error.None? ==> slot < NR_MAP_SLOTS)
      requires error.None? ==> HasOutcome(flow) && 1 in flow.env && flow.env[1] == Is(Ptr(Blob, SlotOff(slot)))
      modifies this`insns, this`error, this`flow
      ensures Valid() && (error.None? ==>
        old(error).None? && |insns| == |old(insns)| + 1 && flow == BlobRecorded(old(flow), SlotOff(slot)))
    {
      hide Good, IsCleanup;
      var i := Store(W, 1, 7, 0);
      if error.None? {
        ExtendBlobRecord(insns, flow, SlotOff(slot));
        CleanupKept(insns, [i], CLEANUP, nrSlots, nrObjMaps + maxFuncPtrMaps, FD_ARRAY, log);
        LandsOn(insns, flow.pending, i);
      }
      Append(i);
      if error.None? {
        flow := BlobRecorded(flow, SlotOff(slot));
      }
    }
  }

  lemma CodeKept(p: seq<Insn>, q: seq<Insn>)
    ensures forall a: nat, code :: CodeAt(p, a, code) ==> CodeAt(p + q, a, code)
    ensures forall at: nat, a, log :: HasBlobClose(p, at, a, log) ==> HasBlobClose(p + q, at, a, log)
    ensures CodeAt(p + q, |p|, q)
  {
    hide BlobClose;
    forall a: nat, code | CodeAt(p, a, code)
      ensures CodeAt(p + q, a, code)
    {
      assert (p + q)[a..a + |code|] == p[a..a + |code|];
    }
  }

  /** Code whose jumps stay within it, or go to its end. */
  ghost predicate SelfContained(code: seq<Insn>) {
    && (code != [] ==> !code[0].Wide?)
    && (forall k :: 0 <= k < |code| && IsJump(code[k]) ==> Fits16(code[k].jump) && StaysIn(code, k + 1 + code[k].jump))
  }

  ghost predicate StaysIn(code: seq<Insn>, t: int) {
    0 <= t <= |code| && (t < |code| ==> !code[t].Wide?)
  }

  lemma SelfContainedClose(i: nat, a: int, log: bool, addr: int, len: int)
    ensures SelfContained(StackClose(i)) && SelfContained(BlobClose(a, log, addr, len))
  {
    var code := StackClose(i);
    forall k | 0 <= k < 3 && IsJump(code[k])
      ensures k == 1
    {
      assert k == 0 || k == 1 || k == 2;
    }
    var code' := BlobClose(a, log, addr, len);
    forall k | 0 <= k < |code'| && IsJump(code'[k])
      ensures k == 3
    {
      assert k < 6 || k == 6 || k == 7 || k == 8 || k == 9 || k == 10 || k == 11;
    }
  }

  lemma SelfContainedReturn()
    ensures SelfContained([Mov(0, 7), Exit])
  {
    var code := [Mov(0, 7), Exit];
    forall k | 0 <= k < |code|
      ensures !IsJump(code[k])
    {
      assert k == 0 || k == 1;
    }
  }

  lemma LandsBlock(p: seq<Insn>, pending: map<int, Env>, code: seq<Insn>)
    requires Lands(p, pending) && SelfContained(code) && forall t :: t in pending ==> |p| + |code| <= t
    ensures Lands(p + code, pending)
  {
    var p' := p + code;
    forall k | 0 <= k < |p'| && IsJump(p'[k])
      ensures Fits16(p'[k].jump) && LandsAt(p', pending, k + 1 + p'[k].jump)
    {
      if k < |p| {
        assert LandsAt(p, pending, k + 1 + p[k].jump);
        assert code != [] ==> p'[|p|] == code[0];
      } else {
        var i := k - |p|;
        assert p'[k] == code[i] && IsJump(code[i]);
        var t := i + 1 + code[i].jump;
        assert StaysIn(code, t);
        assert t < |code| ==> p'[|p| + t] == code[t] && !code[t].Wide?;
      }
    }
  }

  /** The cleanup code under way. */
  ghost predicate StackStage(p: seq<Insn>, jump: nat, i: nat) {
    && Prologue(jump) <= p && |p| == CLEANUP + 3 * i && Lands(p, map[CLEANUP + jump := map[]])
    && (forall k :: 0 <= k < i ==> CodeAt(p, CLEANUP + 3 * k, StackClose(k)))
  }

  ghost predicate MapStage(p: seq<Insn>, jump: nat, n: nat, j: nat, log: bool) {
    && Prologue(jump) <= p && |p| == MapClose(CLEANUP, n, j, log) && Lands(p, map[CLEANUP + jump := map[]])
    && (forall k :: 0 <= k < n ==> CodeAt(p, CLEANUP + 3 * k, StackClose(k)))
    && (forall k :: 0 <= k < j ==> HasBlobClose(p, MapClose(CLEANUP, n, k, log), FD_ARRAY + 4 * k, log))
  }

  lemma StackStageNext(p: seq<Insn>, jump: nat, i: nat, n: nat)
    requires StackStage(p, jump, i) && i < n && 3 * n <= jump
    ensures StackStage(p + StackClose(i), jump, i + 1)
  {
    hide StackClose, BlobClose;
    CodeKept(p, StackClose(i));
    SelfContainedClose(i, 0, false, 0, 0);
    LandsBlock(p, map[CLEANUP + jump := map[]], StackClose(i));
  }

  lemma MapStageFirst(p: seq<Insn>, jump: nat, n: nat, log: bool)
    requires StackStage(p, jump, n)
    ensures MapStage(p, jump, n, 0, log)
  {
  }

  lemma MapStageNext(p: seq<Insn>, jump: nat, n: nat, j: nat, m: nat, log: bool, addr: int, len: int)
    requires MapStage(p, jump, n, j, log) && j < m && CLEANUP + jump == MapClose(CLEANUP, n, m, log) + 2
    ensures MapStage(p + BlobClose(SlotOff(j), log, addr, len), jump, n, j + 1, log)
  {
    hide StackClose, BlobClose, CodeAt;
    var code := BlobClose(SlotOff(j), log, addr, len);
    CodeKept(p, code);
    SelfContainedClose(0, SlotOff(j), log, addr, len);
    CloseFits(n, j, m, log);
    LandsBlock(p, map[CLEANUP + jump := map[]], code);
    assert HasBlobClose(p + code, MapClose(CLEANUP, n, j, log), FD_ARRAY + 4 * j, log);
  }

  lemma CloseFits(n: nat, j: nat, m: nat, log: bool)
    requires j < m
    ensures MapClose(CLEANUP, n, j, log) + BlobCloseSize(log) <= MapClose(CLEANUP, n, m, log)
  {
  }

  /** All runs are past the cleanup code when it is complete. */
  lemma FinishStart(p: seq<Insn>, jump: nat, n: nat, m: nat, log: bool)
    requires MapStage(p, jump, n, m, log) && CLEANUP + jump == MapClose(CLEANUP, n, m, log) + 2
    ensures var p' := p + [Mov(0, 7), Exit];
      && IsCleanup(p', CLEANUP, n, m, FD_ARRAY, log) && Lands(p', map[]) && p'[CLEANUP - 1] == Ja(jump)
      && |p'| == MapClose(CLEANUP, n, m, log) + 2
      && Good(p', Flow(FD_ARRAY, CLEANUP, map[], true, map[], NOTHING_YET))
  {
    hide Good, StackClose, BlobClose, LandsAt;
    var p', head := p + [Mov(0, 7), Exit], Prologue(jump);
    CodeKept(p, [Mov(0, 7), Exit]);
    GoodPrologue(jump);
    assert head + p'[|head|..] == p';
    ExtendDead(head, AfterPrologue(jump), p'[|head|..]);
    Land(p', AfterPrologue(jump));
    var parked: map<int, Env> := map[CLEANUP + jump := map[]];
    assert parked - {|p'|} == map[];
    SelfContainedReturn();
    LandsBlock(p, parked, [Mov(0, 7), Exit]);
    LandsReached(p', parked);
  }

  lemma LandsReached(p: seq<Insn>, pending: map<int, Env>)
    requires Lands(p, pending) && forall t :: t in pending ==> t == |p|
    ensures Lands(p, map[])
  {
    forall k | 0 <= k < |p| && IsJump(p[k])
      ensures Fits16(p[k].jump) && LandsAt(p, map[], k + 1 + p[k].jump)
    {
      assert LandsAt(p, pending, k + 1 + p[k].jump);
    }
  }

  lemma LandsOn(p: seq<Insn>, pending: map<int, Env>, i: Insn)
    requires Lands(p, pending) && |p| !in pending && !i.Wide? && !IsJump(i)
    ensures Lands(p + [i], pending)
  {
    var p' := p + [i];
    forall k | 0 <= k < |p'| && IsJump(p'[k])
      ensures Fits16(p'[k].jump) && LandsAt(p', pending, k + 1 + p'[k].jump)
    {
      assert LandsAt(p, pending, k + 1 + p[k].jump);
    }
  }

  lemma LandsOnWide(p: seq<Insn>, pending: map<int, Env>)
    requires Lands(p, pending) && |p| > 0 && forall k :: 0 <= k < |p| && IsJump(p[k]) ==> k + 1 + p[k].jump != |p|
    ensures Lands(p + [Wide], pending)
  {
    var p' := p + [Wide];
    forall k | 0 <= k < |p'| && IsJump(p'[k])
      ensures Fits16(p'[k].jump) && LandsAt(p', pending, k + 1 + p'[k].jump)
    {
      assert LandsAt(p, pending, k + 1 + p[k].jump);
    }
  }

  lemma LandsOnJump(p: seq<Insn>, f: Flow, i: Insn)
    requires Lands(p, f.pending) && |p| !in f.pending && IsJump(i) && 0 <= i.jump < 0x8000
    ensures Lands(p + [i], Park(f, |p| + 1 + i.jump).pending)
  {
    var p', t := p + [i], |p| + 1 + i.jump;
    forall k | 0 <= k < |p'| && IsJump(p'[k])
      ensures Fits16(p'[k].jump) && LandsAt(p', Park(f, t).pending, k + 1 + p'[k].jump)
    {
      assert k < |p| ==> LandsAt(p, f.pending, k + 1 + p[k].jump);
    }
  }

  lemma ParkFields(f: Flow, t: int)
    ensures var f' := Park(f, t);
      f'.fd == f.fd && f'.cleanup == f.cleanup && f'.spec == f.spec && f'.env == f.env && f'.live == f.live
  {
  }

  /** Cleanup starts with an instruction. */
  lemma CleanupEntry(p: seq<Insn>, n: nat, m: nat, fd: int, log: bool)
    requires IsCleanup(p, CLEANUP, n, m, fd, log)
    ensures CLEANUP < |p| && !p[CLEANUP].Wide?
  {
    if n > 0 {
      assert CodeAt(p, CLEANUP + 3 * 0, StackClose(0));
      assert p[CLEANUP] == p[CLEANUP..CLEANUP + 3][0];
    } else if m > 0 {
      assert HasBlobClose(p, MapClose(CLEANUP, n, 0, log), fd + 4 * 0, log);
      var addr, len :| CodeAt(p, CLEANUP, BlobClose(fd, log, addr, len));
      assert p[CLEANUP] == p[CLEANUP..CLEANUP + |BlobClose(fd, log, addr, len)|][0];
    } else {
      assert p[CLEANUP] == p[CLEANUP..CLEANUP + 2][0];
    }
  }

  lemma LandsOnCheck(p: seq<Insn>, f: Flow, i: Insn)
    requires Lands(p, f.pending) && |p| !in f.pending && i.JumpIf? && Fits16(i.jump) &&
      |p| + 1 + i.jump == CLEANUP < |p| && !p[CLEANUP].Wide?
    ensures Lands(p + [i], f.pending)
  {
    var p' := p + [i];
    forall k | 0 <= k < |p'| && IsJump(p'[k])
      ensures Fits16(p'[k].jump) && LandsAt(p', f.pending, k + 1 + p'[k].jump)
    {
      assert k < |p| ==> LandsAt(p, f.pending, k + 1 + p[k].jump);
    }
  }
}
