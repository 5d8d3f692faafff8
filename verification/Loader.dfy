/** Finished loaders, and what all their runs do. */
module Loader {
  import opened LoaderVm
  import opened LoaderFlow
  import opened LoaderCleanup
  import opened LoaderGen
  import opened LoaderEmit
  import opened LoaderMaps

  function MapFdOff(i: nat): int {
    CTX_SIZE + MAP_DESC_SIZE * i
  }

  function CtxProgFdOff(nrMaps: nat, i: nat): int {
    CTX_SIZE + MAP_DESC_SIZE * nrMaps + 4 * i
  }

  // ----- the end of a run -----

  /** The run has worked: every command has succeeded, and the context has the outcomes. */
  ghost predicate Worked(spec: Spec, s: State) {
    && s.outcome == Exited(0) && AllPass(s.checks) && Accounted(s.results, |s.results|, s.checks) &&
      s.commands == spec.cmds
    && |s.results| == spec.Count() && (forall j :: 0 <= j < spec.Count() ==> s.results[j] >= 0)
    && Holding(spec.ctxAt, s.ctx, s.results)
  }

  /** The run has failed: it returns a negative number after closing exactly what the slots held. Of the
      outcomes that were to be kept, those of commands that succeeded were in their slots, and nothing but
      outcomes of commands that succeeded was in any slot. */
  ghost predicate GaveUp(fd: int, spec: Spec, n: nat, m: nat, s: State) {
    && s.outcome.Exited? && FailsWith(s.checks, s.outcome.value) && Orderly(s.results, s.checks)
    && |s.results| == |s.commands| && s.commands <= spec.cmds
    && (exists before :: s.closed == before + (StackFds(s.stack, n) + BlobFds(s.blob, fd, m)))
    && HoldingSome(spec.stackAt, s.stack, s.results) && HoldingSome(spec.blobAt, s.blob, s.results) && SlotsOwned(fd, s)
  }

  ghost predicate Ends(p: seq<Insn>, w: World, s: State, fd: int, spec: Spec, n: nat, m: nat)
    requires Machine(s)
  {
    exists s', k :: Runs(p, w, s, s', k) && (Worked(spec, s') || GaveUp(fd, spec, n, m, s'))
  }

  /** Code that ends with an exit, where all commands are known to have succeeded and R0 is 0. */
  lemma ExitEnds(p: seq<Insn>, f: Flow, n: nat, m: nat, log: bool, w: World, s: State)
    requires Good(p, f) && f.live && f.pending == map[] && f.spec.checked == f.spec.Count()
    requires 0 in f.env && f.env[0] == Is(Num(0)) && f.cleanup >= 0 && IsCleanup(p, f.cleanup, n, m, f.fd, log)
    requires Starts(f.fd, s)
    ensures Ends(p + [Exit], w, s, f.fd, f.spec, n, m)
  {
    hide Runs, Word, Step, IsCleanup, SlotsOwned, Starts;
    StartsMachine(f.fd, s);
    assert Arrives(p, f, w, s);
    var s1, k1: nat :| Runs(p, w, s, s1, k1) && Arrived(f, |p|, s1);
    var p' := p + [Exit];
    RunsInLonger(p, p', w, s, s1, k1);
    if s1.pc == |p| && Agree(f.env, s1) && Through(f.fd, f.spec, s1) {
      ExitStep(p', w, s1, f);
      var s2 := Step(p', w, s1);
      OneRun(p', w, s1);
      RunsOn(p', w, s, s1, s2, k1, 1);
    } else {
      CleanupKept(p, [Exit], f.cleanup, n, m, f.fd, log);
      CleanupRuns(p', w, s1, f.cleanup, n, m, f.fd, log);
      FailureEnds(p', w, s, s1, k1, f, n, m);
    }
  }

  lemma StartsMachine(fd: int, s: State)
    requires Starts(fd, s)
    ensures Machine(s)
  {
  }

  lemma OneRun(p: seq<Insn>, w: World, s: State)
    requires Machine(s) && s.outcome.Running? && 0 <= s.pc < |p|
    ensures Runs(p, w, s, Step(p, w, s), 1)
  {
    hide Step;
    var s1 := Step(p, w, s);
    assert Runs(p, w, s1, s1, 0);
  }

  lemma ExitStep(p: seq<Insn>, w: World, s: State, f: Flow)
    requires Base(s) && 0 <= s.pc < |p| && p[s.pc] == Exit && Agree(f.env, s) && Through(f.fd, f.spec, s)
    requires 0 in f.env && f.env[0] == Is(Num(0)) && f.spec.checked == f.spec.Count()
    ensures Worked(f.spec, Step(p, w, s))
  {
    hide Word, SlotsOwned;
    assert Fits(f.env[0], s.regs[0], s.results);
  }

  lemma FailureEnds(p: seq<Insn>, w: World, s: State, s1: State, k1: nat, f: Flow, n: nat, m: nat)
    requires Machine(s) && Machine(s1) && Runs(p, w, s, s1, k1) && Failed(f.fd, f.spec, s1) &&
      CleansUp(p, w, s1, n, m, f.fd)
    ensures Ends(p, w, s, f.fd, f.spec, n, m)
  {
    hide Runs, Word, StackFds, BlobFds, Owned;
    var s2, k2: nat :| Runs(p, w, s1, s2, k2) && Machine(s2) && s2.outcome == Exited(NumOf(s1.regs[7]))
      && s2.closed == s1.closed + (StackFds(s1.stack, n) + BlobFds(s1.blob, f.fd, m))
      && s2.commands == s1.commands && s2.results == s1.results && s2.checks == s1.checks
      && s2.stack == s1.stack && s2.blob == s1.blob && s2.ctx == s1.ctx;
    RunsOn(p, w, s, s1, s2, k1, k2);
    assert s2.closed == s1.closed + (StackFds(s2.stack, n) + BlobFds(s2.blob, f.fd, m));
    assert GaveUp(f.fd, f.spec, n, m, s2);
  }

  // ----- finishing -----

  /** Every jump has a distance that fits its field, and lands on an instruction of the program. */
  ghost predicate AllLand(p: seq<Insn>) {
    forall i :: 0 <= i < |p| && IsJump(p[i]) ==> Fits16(p[i].jump) && IsInsn(p, i + 1 + p[i].jump)
  }

  ghost predicate IsInsn(p: seq<Insn>, t: int) {
    0 <= t < |p| && !p[t].Wide?
  }

  lemma LandsAtExit(p: seq<Insn>)
    requires Lands(p, map[])
    ensures AllLand(p + [Exit])
  {
    var p' := p + [Exit];
    forall i | 0 <= i < |p'| && IsJump(p'[i])
      ensures Fits16(p'[i].jump) && IsInsn(p', i + 1 + p'[i].jump)
    {
      assert LandsAt(p, map[], i + 1 + p[i].jump);
    }
  }

  /** The context has what the slots have, for the first programs and maps. */
  ghost predicate Copied(spec: Spec, nrMaps: nat, progs: nat, maps: nat) {
    && (forall i :: 0 <= i < progs ==> HandsOut(spec, CtxProgFdOff(nrMaps, i), spec.stackAt, ProgFdOff(i)))
    && (forall i :: 0 <= i < maps ==> HandsOut(spec, MapFdOff(i), spec.blobAt, SlotOff(i)))
  }

  ghost predicate HandsOut(spec: Spec, a: int, at: map<int, nat>, b: int) {
    a in spec.ctxAt && b in at && spec.ctxAt[a] == at[b]
  }

  lemma CopiedProg(spec: Spec, nrMaps: nat, i: nat)
    requires Copied(spec, nrMaps, i, 0) && ProgFdOff(i) in spec.stackAt
    ensures Copied(spec.(ctxAt := spec.ctxAt[CtxProgFdOff(nrMaps, i) := spec.stackAt[ProgFdOff(i)]]), nrMaps, i + 1, 0)
  {
  }

  lemma CopiedMap(spec: Spec, nrMaps: nat, progs: nat, i: nat)
    requires Copied(spec, nrMaps, progs, i) && SlotOff(i) in spec.blobAt && i < nrMaps
    ensures Copied(spec.(ctxAt := spec.ctxAt[MapFdOff(i) := spec.blobAt[SlotOff(i)]]), nrMaps, progs, i + 1)
  {
  }

  /** Slots and counters, apart from what the context has. */
  ghost predicate Settled(gen: Gen)
    reads gen
  {
    && gen.Valid() && (gen.error.None? ==>
      && gen.flow.live && gen.flow.pending == map[] && gen.flow.spec.checked == gen.flow.spec.Count()
      && Recorded(gen.flow.spec, gen.issued, gen.nrMaps, gen.nrProgs, gen.nrObjMaps, gen.nrFuncPtrMaps))
  }

  lemma RecordedCtx(spec: Spec, ctxAt: map<int, nat>, issued: seq<Command>, nrMaps: nat, nrProgs: nat, first: nat,
                    nrFuncPtrMaps: nat)
    requires Recorded(spec, issued, nrMaps, nrProgs, first, nrFuncPtrMaps)
    ensures Recorded(spec.(ctxAt := ctxAt), issued, nrMaps, nrProgs, first, nrFuncPtrMaps)
  {
  }

  /** Close what is no longer needed: the BTF, and the maps with function pointers. */
  method EmitCloseRest(gen: Gen)
    requires Ready(gen)
    modifies gen`insns, gen`error, gen`flow, gen`dataLen
    ensures Ready(gen) && (gen.error.None? ==> old(gen.error).None?)
  {
    hide Good, IsCleanup, Lands, Recorded;
    EmitSysCloseStack(gen, BTF_FD_OFF);
    var i := 0;
    while i < gen.nrFuncPtrMaps
      invariant 0 <= i <= gen.nrFuncPtrMaps && Ready(gen) && (gen.error.None? ==> old(gen.error).None?)
    {
      EmitSysCloseBlob(gen, SlotOff(gen.nrObjMaps + i));
      i := i + 1;
    }
  }

  /** Hand out the descriptors of all programs. */
  method EmitProgFds(gen: Gen)
    requires Ready(gen)
    modifies gen`insns, gen`error, gen`flow
    ensures Settled(gen) && (gen.error.None? ==>
      old(gen.error).None? && Copied(gen.flow.spec, gen.nrMaps, gen.nrProgs, 0))
  {
    hide Good, IsCleanup, Lands, Recorded, Copied;
    NothingCopied(gen.flow.spec, gen.nrMaps);
    var i := 0;
    while i < gen.nrProgs
      invariant 0 <= i <= gen.nrProgs && Settled(gen)
      invariant gen.error.None? ==> old(gen.error).None? && Copied(gen.flow.spec, gen.nrMaps, i, 0)
    {
      ghost var idx := 0;
      if gen.error.None? {
        ProgRecorded(gen.flow.spec, gen.issued, gen.nrMaps, gen.nrProgs, gen.nrObjMaps, gen.nrFuncPtrMaps, i);
        idx := gen.flow.spec.stackAt[ProgFdOff(i)];
        CopiedProg(gen.flow.spec, gen.nrMaps, i);
        RecordedCtx(gen.flow.spec, gen.flow.spec.ctxAt[CtxProgFdOff(gen.nrMaps, i) := idx], gen.issued, gen.nrMaps,
          gen.nrProgs, gen.nrObjMaps, gen.nrFuncPtrMaps);
      }
      gen.EmitRead(Load(W, 0, 10, ProgFdOff(i)), idx);
      gen.EmitCtxRecord(CtxProgFdOff(gen.nrMaps, i), idx);
      i := i + 1;
    }
  }

  /** Hand out the descriptors of all maps. */
  method EmitMapFds(gen: Gen)
    requires Settled(gen) && (gen.error.None? ==> Copied(gen.flow.spec, gen.nrMaps, gen.nrProgs, 0))
    modifies gen`insns, gen`error, gen`flow
    ensures Settled(gen) && (gen.error.None? ==>
      old(gen.error).None? && Copied(gen.flow.spec, gen.nrMaps, gen.nrProgs, gen.nrMaps))
  {
    hide Good, IsCleanup, Lands, Recorded, Copied;
    var i := 0;
    while i < gen.nrMaps
      invariant 0 <= i <= gen.nrMaps && Settled(gen)
      invariant gen.error.None? ==> old(gen.error).None? && Copied(gen.flow.spec, gen.nrMaps, gen.nrProgs, i)
    {
      ghost var idx := 0;
      if gen.error.None? {
        MapRecorded(gen.flow.spec, gen.issued, gen.nrMaps, gen.nrProgs, gen.nrObjMaps, gen.nrFuncPtrMaps, i);
        idx := gen.flow.spec.blobAt[SlotOff(i)];
        CopiedMap(gen.flow.spec, gen.nrMaps, gen.nrProgs, i);
        RecordedCtx(gen.flow.spec, gen.flow.spec.ctxAt[MapFdOff(i) := idx], gen.issued, gen.nrMaps, gen.nrProgs,
          gen.nrObjMaps, gen.nrFuncPtrMaps);
      }
      gen.EmitAddr(1, SlotOff(i));
      gen.EmitRead(Load(W, 0, 1, 0), idx);
      gen.EmitCtxRecord(MapFdOff(i), idx);
      i := i + 1;
    }
  }

  lemma NothingCopied(spec: Spec, nrMaps: nat)
    ensures Copied(spec, nrMaps, 0, 0)
  {
  }

  lemma ProgRecorded(spec: Spec, issued: seq<Command>, nrMaps: nat, nrProgs: nat, first: nat, nrFuncPtrMaps: nat,
                     i: nat)
    requires Recorded(spec, issued, nrMaps, nrProgs, first, nrFuncPtrMaps) && i < nrProgs
    ensures FilledBy(spec.stackAt, issued, ProgFdOff(i), LoadProg(i))
  {
  }

  lemma MapRecorded(spec: Spec, issued: seq<Command>, nrMaps: nat, nrProgs: nat, first: nat, nrFuncPtrMaps: nat, i: nat)
    requires Recorded(spec, issued, nrMaps, nrProgs, first, nrFuncPtrMaps) && i < nrMaps
    ensures FilledBy(spec.blobAt, issued, SlotOff(i), CreateMap(i))
  {
  }

  // ----- what the finished program does -----

  /** A descriptor that a command has returned: one with the number for its purpose. */
  ghost predicate Returned(s: State, issued: seq<Command>, what: Command, word: int) {
    exists j :: 0 <= j < |s.results| == |s.commands| == |issued| && issued[j] == what && s.commands[j] == Number(what)
      && s.results[j] >= 0 && word == Low32(s.results[j])
  }

  /** A run that works returns 0 after issuing all commands, none of which has failed, and hands out what the
      commands for each map and each program returned. */
  ghost predicate Succeeds(s: State, issued: seq<Command>, nrMaps: nat, nrProgs: nat) {
    && s.outcome == Exited(0) && Numbered(issued, s.commands) && |s.results| == |issued| && AllPass(s.results)
    && Accounted(s.results, |s.results|, s.checks)
    && (forall i :: 0 <= i < nrMaps ==> Returned(s, issued, CreateMap(i), Word(s.ctx, MapFdOff(i))))
    && (forall i :: 0 <= i < nrProgs ==> Returned(s, issued, LoadProg(i), Word(s.ctx, CtxProgFdOff(nrMaps, i))))
  }

  /** A run that fails returns the negative value that an error check has seen, the only one; it has issued no
      command after one that failed. Every descriptor in a slot has been closed, in particular that of every
      map and every program, if the last command for it has succeeded. */
  ghost predicate Fails(s: State, issued: seq<Command>, spec: Spec, nrMaps: nat, nrProgs: nat, n: nat, m: nat) {
    && s.outcome.Exited? && FailsWith(s.checks, s.outcome.value) && Orderly(s.results, s.checks)
    && |s.results| == |s.commands| <= |issued| && Numbered(issued[..|s.commands|], s.commands)
    && (forall i :: 0 <= i < n && Word(s.stack, -STACK_SIZE + 4 * i) > 0 ==>
          Word(s.stack, -STACK_SIZE + 4 * i) in s.closed)
    && (forall i :: 0 <= i < m && Word(s.blob, SlotOff(i)) > 0 ==> Word(s.blob, SlotOff(i)) in s.closed)
    && (forall i :: 0 <= i < nrMaps ==> ClosedIfCreated(s, spec.blobAt, SlotOff(i)))
    && (forall i :: 0 <= i < nrProgs ==> ClosedIfCreated(s, spec.stackAt, ProgFdOff(i)))
  }

  ghost predicate ClosedIfCreated(s: State, at: map<int, nat>, a: int) {
    a in at && (at[a] < |s.results| && Low32(s.results[at[a]]) > 0 && s.results[at[a]] >= 0 ==>
      Low32(s.results[at[a]]) in s.closed)
  }

  /** The run works exactly if no error check has seen a negative value, and otherwise it fails. */
  ghost predicate Delivers(p: seq<Insn>, w: World, s: State, issued: seq<Command>, spec: Spec, nrMaps: nat,
                           nrProgs: nat, n: nat, m: nat)
    requires Machine(s)
  {
    exists s', k :: Runs(p, w, s, s', k) &&
      if AllPass(s'.checks) then Succeeds(s', issued, nrMaps, nrProgs)
      else Fails(s', issued, spec, nrMaps, nrProgs, n, m)
  }

  /** Every run, whatever the helpers do and whatever the context and the stack hold at first. */
  ghost predicate AlwaysDelivers(p: seq<Insn>, issued: seq<Command>, spec: Spec, nrMaps: nat, nrProgs: nat, n: nat,
                                 m: nat) {
    forall w, s :: Starts(FD_ARRAY, s) ==> Delivers(p, w, s, issued, spec, nrMaps, nrProgs, n, m)
  }

  /** What a delivered run returns is 0 or the value that was negative, and it is 0 exactly if none was. */
  lemma ExitValue(p: seq<Insn>, w: World, s: State, issued: seq<Command>, spec: Spec, nrMaps: nat, nrProgs: nat,
                  n: nat, m: nat, s': State, k: nat)
    requires Machine(s) && Delivers(p, w, s, issued, spec, nrMaps, nrProgs, n, m) && Runs(p, w, s, s', k) &&
      s'.outcome.Exited?
    ensures s'.outcome.value == 0 <==> AllPass(s'.checks)
    ensures !AllPass(s'.checks) ==> FailsWith(s'.checks, s'.outcome.value)
    ensures s'.outcome.value == 0 ==> Succeeds(s', issued, nrMaps, nrProgs)
    ensures s'.outcome.value != 0 ==> Fails(s', issued, spec, nrMaps, nrProgs, n, m)
  {
    hide Runs, Word, Returned, ClosedIfCreated;
    var s1, k1: nat :| Runs(p, w, s, s1, k1) &&
      if AllPass(s1.checks) then Succeeds(s1, issued, nrMaps, nrProgs)
      else Fails(s1, issued, spec, nrMaps, nrProgs, n, m);
    OneEnd(p, w, s, s', k, s1, k1);
  }

  lemma {:induction false} InStackFds(stack: Mem, n: nat, i: nat)
    requires i < n && Word(stack, -STACK_SIZE + 4 * i) > 0
    ensures Word(stack, -STACK_SIZE + 4 * i) in StackFds(stack, n)
    decreases n
  {
    hide Word;
    if i < n - 1 {
      InStackFds(stack, n - 1, i);
    }
  }

  lemma {:induction false} InBlobFds(blob: Mem, fd: int, m: nat, i: nat)
    requires i < m && Word(blob, fd + 4 * i) > 0
    ensures Word(blob, fd + 4 * i) in BlobFds(blob, fd, m)
    decreases m
  {
    hide Word;
    if i < m - 1 {
      InBlobFds(blob, fd, m - 1, i);
    }
  }

  lemma WorkedSucceeds(s: State, spec: Spec, issued: seq<Command>, nrMaps: nat, nrProgs: nat, first: nat,
                       nrFuncPtrMaps: nat)
    requires Worked(spec, s) && Recorded(spec, issued, nrMaps, nrProgs, first, nrFuncPtrMaps) &&
      Copied(spec, nrMaps, nrProgs, nrMaps)
    requires Numbered(issued, spec.cmds)
    ensures AllPass(s.checks) && Succeeds(s, issued, nrMaps, nrProgs)
  {
    hide Word;
    forall i | 0 <= i < nrMaps
      ensures Returned(s, issued, CreateMap(i), Word(s.ctx, MapFdOff(i)))
    {
      assert FilledBy(spec.blobAt, issued, SlotOff(i), CreateMap(i)) &&
        HandsOut(spec, MapFdOff(i), spec.blobAt, SlotOff(i));
    }
    forall i | 0 <= i < nrProgs
      ensures Returned(s, issued, LoadProg(i), Word(s.ctx, CtxProgFdOff(nrMaps, i)))
    {
      assert FilledBy(spec.stackAt, issued, ProgFdOff(i), LoadProg(i)) &&
        HandsOut(spec, CtxProgFdOff(nrMaps, i), spec.stackAt, ProgFdOff(i));
    }
  }

  lemma GaveUpFails(s: State, spec: Spec, issued: seq<Command>, nrMaps: nat, nrProgs: nat, first: nat,
                    nrFuncPtrMaps: nat, n: nat, m: nat)
    requires GaveUp(FD_ARRAY, spec, n, m, s) && Recorded(spec, issued, nrMaps, nrProgs, first, nrFuncPtrMaps)
    requires nrMaps <= m && nrProgs + 2 <= n && Numbered(issued, spec.cmds)
    ensures !AllPass(s.checks) && Fails(s, issued, spec, nrMaps, nrProgs, n, m)
  {
    hide Word, SlotsOwned;
    assert s.checks[|s.checks| - 1] < 0;
    forall i | 0 <= i < n && Word(s.stack, -STACK_SIZE + 4 * i) > 0
      ensures Word(s.stack, -STACK_SIZE + 4 * i) in s.closed
    {
      InStackFds(s.stack, n, i);
    }
    forall i | 0 <= i < m && Word(s.blob, SlotOff(i)) > 0
      ensures Word(s.blob, SlotOff(i)) in s.closed
    {
      InBlobFds(s.blob, FD_ARRAY, m, i);
    }
    forall i | 0 <= i < nrMaps
      ensures ClosedIfCreated(s, spec.blobAt, SlotOff(i))
    {
      assert FilledBy(spec.blobAt, issued, SlotOff(i), CreateMap(i));
    }
    forall i | 0 <= i < nrProgs
      ensures ClosedIfCreated(s, spec.stackAt, ProgFdOff(i))
    {
      assert FilledBy(spec.stackAt, issued, ProgFdOff(i), LoadProg(i));
      assert ProgFdOff(i) == -STACK_SIZE + 4 * (i + 2);
    }
  }

  lemma EndsDelivers(p: seq<Insn>, w: World, s: State, spec: Spec, issued: seq<Command>, nrMaps: nat, nrProgs: nat,
                     first: nat, nrFuncPtrMaps: nat, n: nat, m: nat)
    requires Machine(s) && Ends(p, w, s, FD_ARRAY, spec, n, m) && nrMaps <= m && nrProgs + 2 <= n
    requires Recorded(spec, issued, nrMaps, nrProgs, first, nrFuncPtrMaps) && Copied(spec, nrMaps, nrProgs, nrMaps) &&
      Numbered(issued, spec.cmds)
    ensures Delivers(p, w, s, issued, spec, nrMaps, nrProgs, n, m)
  {
    hide Runs, Word, Worked, GaveUp, Recorded, Copied, Succeeds, Fails, AllPass;
    var s', k: nat :| Runs(p, w, s, s', k) && (Worked(spec, s') || GaveUp(FD_ARRAY, spec, n, m, s'));
    if Worked(spec, s') {
      WorkedSucceeds(s', spec, issued, nrMaps, nrProgs, first, nrFuncPtrMaps);
    } else {
      GaveUpFails(s', spec, issued, nrMaps, nrProgs, first, nrFuncPtrMaps, n, m);
    }
  }

  /** Finish a loader. If there is no error, and there are no more programs and maps than it was started for,
      then all its jumps land on instructions, and every run, whatever the helpers do, works or cleans up. */
  method Finish(gen: Gen, nrProgs: nat, nrMaps: nat)
    requires Ready(gen)
    modifies gen`insns, gen`error, gen`flow, gen`dataLen
    ensures gen.error.None? ==> old(gen.error).None? && gen.nrProgs <= nrProgs && gen.nrMaps == nrMaps
    ensures gen.error.None? ==> AllLand(gen.insns) && Numbered(gen.issued, gen.flow.spec.cmds)
    ensures gen.error.None? && nrMaps <= gen.nrObjMaps && gen.nrProgs + 2 <= gen.nrSlots ==>
      AlwaysDelivers(gen.insns, gen.issued, gen.flow.spec, nrMaps, gen.nrProgs, gen.nrSlots,
        gen.nrObjMaps + gen.maxFuncPtrMaps)
  {
    hide Good, IsCleanup, Lands, Recorded, Copied, AllLand, Ends, Delivers;
    if nrProgs < gen.nrProgs || nrMaps != gen.nrMaps {
      gen.GiveUp(Mismatch);
      return;
    }
    EmitCloseRest(gen);
    EmitProgFds(gen);
    EmitMapFds(gen);
    gen.Emit(MovImm(0, 0));
    ghost var p := gen.insns;
    gen.Append(Exit);
    if gen.error.None? {
      LandsAtExit(p);
      if nrMaps <= gen.nrObjMaps && gen.nrProgs + 2 <= gen.nrSlots {
        var n, m := gen.nrSlots, gen.nrObjMaps + gen.maxFuncPtrMaps;
        forall w, s | Starts(FD_ARRAY, s)
          ensures Delivers(gen.insns, w, s, gen.issued, gen.flow.spec, nrMaps, gen.nrProgs, n, m)
        {
          ExitEnds(p, gen.flow, n, m, gen.log, w, s);
          EndsDelivers(gen.insns, w, s, gen.flow.spec, gen.issued, nrMaps, gen.nrProgs, gen.nrObjMaps,
            gen.nrFuncPtrMaps, n, m);
        }
      }
    }
  }
}
