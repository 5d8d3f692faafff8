/** Loader code that loads BTF and creates and fills maps. */
module LoaderMaps {
  import opened LoaderVm
  import opened LoaderFlow
  import opened LoaderCleanup
  import opened LoaderGen
  import opened LoaderEmit

  /** Layout of the context: a header, a descriptor per map, a descriptor per program. */
  const CTX_SIZE := 24
  const CTX_FLAGS := 4
  const CTX_LOG_LEVEL := 8
  const CTX_LOG_SIZE := 12
  const CTX_LOG_BUF := 16
  const MAP_DESC_SIZE := 16
  const MAP_DESC_MAX_ENTRIES := 4
  const MAP_DESC_INITIAL_VALUE := 8

  /** Commands. */
  const BPF_MAP_CREATE: nat := 0
  const BPF_MAP_UPDATE_ELEM: nat := 2
  const BPF_PROG_LOAD: nat := 5
  const BPF_BTF_LOAD: nat := 18
  const BPF_MAP_FREEZE: nat := 22

  /** Which command filled which slot. */
  ghost predicate Recorded(spec: Spec, issued: seq<Command>, nrMaps: nat, nrProgs: nat, firstFuncPtr: nat,
                           nrFuncPtrMaps: nat) {
    && |issued| == spec.Count()
    && (forall i :: 0 <= i < nrMaps ==> FilledBy(spec.blobAt, issued, SlotOff(i), CreateMap(i)))
    && (forall i :: firstFuncPtr <= i < firstFuncPtr + nrFuncPtrMaps ==>
          FilledBy(spec.blobAt, issued, SlotOff(i), CreateMap(i)))
    && (forall i :: 0 <= i < nrProgs ==> FilledBy(spec.stackAt, issued, ProgFdOff(i), LoadProg(i)))
  }

  lemma RecordedSlot(spec: Spec, issued: seq<Command>, slot: nat, nrMaps: nat, nrProgs: nat, first: nat,
                     nrFuncPtrMaps: nat)
    requires Recorded(spec, issued, nrMaps, nrProgs, first, nrFuncPtrMaps) && |issued| > 0 &&
      issued[|issued| - 1] == CreateMap(slot)
    ensures var spec' := spec.(blobAt := spec.blobAt[SlotOff(slot) := spec.Count() - 1]);
      && Recorded(spec', issued, nrMaps, nrProgs, first, nrFuncPtrMaps)
      && FilledBy(spec'.blobAt, issued, SlotOff(slot), CreateMap(slot))
      && (slot == nrMaps ==> Recorded(spec', issued, nrMaps + 1, nrProgs, first, nrFuncPtrMaps))
      && (slot == first + nrFuncPtrMaps ==> Recorded(spec', issued, nrMaps, nrProgs, first, nrFuncPtrMaps + 1))
  {
  }

  /** Slots of the stack other than those for programs. */
  lemma RecordedStack(spec: Spec, issued: seq<Command>, off: int, nrMaps: nat, nrProgs: nat, first: nat,
                      nrFuncPtrMaps: nat)
    requires Recorded(spec, issued, nrMaps, nrProgs, first, nrFuncPtrMaps) && |issued| > 0
    requires off < ProgFdOff(0) || (off == ProgFdOff(nrProgs) && issued[|issued| - 1] == LoadProg(nrProgs))
    ensures var spec' := spec.(stackAt := spec.stackAt[off := spec.Count() - 1]);
      && Recorded(spec', issued, nrMaps, nrProgs, first, nrFuncPtrMaps)
      && FilledBy(spec'.stackAt, issued, off, issued[|issued| - 1])
      && (off == ProgFdOff(nrProgs) ==> Recorded(spec', issued, nrMaps, nrProgs + 1, first, nrFuncPtrMaps))
  {
  }

  ghost predicate FilledBy(at: map<int, nat>, issued: seq<Command>, a: int, what: Command) {
    a in at && at[a] < |issued| && issued[at[a]] == what
  }

  /** Between two calls: all runs are at the end of the code with all commands having succeeded, or in cleanup. */
  ghost predicate Steady(f: Flow) {
    f.live && f.pending == map[] && f.spec.checked == f.spec.Count() && f.spec.ctxAt == map[]
  }

  ghost predicate Ready(gen: Gen)
    reads gen
  {
    && gen.Valid() && gen.nrMaps <= MAX_USED_MAPS && gen.nrProgs <= MAX_USED_PROGS &&
      gen.nrFuncPtrMaps <= gen.maxFuncPtrMaps
    && (gen.error.None? ==>
          Steady(gen.flow) && Recorded(gen.flow.spec, gen.issued, gen.nrMaps, gen.nrProgs, gen.nrObjMaps,
            gen.nrFuncPtrMaps))
  }

  lemma RecordedMore(f: Flow, f': Flow, issued: seq<Command>, what: Command, nrMaps: nat, nrProgs: nat, first: nat,
                     nrFuncPtrMaps: nat)
    requires Recorded(f.spec, issued, nrMaps, nrProgs, first, nrFuncPtrMaps)
    requires f'.spec.Count() == f.spec.Count() + 1 && f'.spec.blobAt == f.spec.blobAt &&
      f'.spec.stackAt == f.spec.stackAt
    ensures Recorded(f'.spec, issued + [what], nrMaps, nrProgs, first, nrFuncPtrMaps)
  {
  }

  /** A command, its report and its check: all runs go on with its outcome, or fail. */
  method EmitChecked(gen: Gen, cmd: nat, attr: int, size: nat, textLen: nat, ghost what: Command)
    requires cmd == Number(what) && Ready(gen) && (gen.error.None? ==> Outside(FD_ARRAY, attr, size))
    modifies gen`insns, gen`error, gen`flow, gen`issued, gen`dataLen
    ensures Ready(gen) && gen.dataLen >= old(gen.dataLen)
    ensures gen.error.None? ==> old(gen.error).None? && HasOutcome(gen.flow) && gen.issued == old(gen.issued) + [what]
  {
    hide Good, IsCleanup, Lands, Recorded;
    ghost var f, issued := gen.flow, gen.issued;
    EmitSysBpf(gen, cmd, attr, size, what);
    DebugRet(gen, textLen);
    gen.EmitCheckErr();
    if gen.error.None? {
      RecordedMore(f, gen.flow, issued, what, gen.nrMaps, gen.nrProgs, gen.nrObjMaps, gen.nrFuncPtrMaps);
    }
  }

  method LoadBtf(gen: Gen, rawSize: nat, textLen: nat)
    requires Ready(gen)
    modifies gen`insns, gen`error, gen`flow, gen`issued, gen`dataLen
    ensures Ready(gen) && (gen.error.None? ==> old(gen.error).None? && gen.issued == old(gen.issued) + [BtfLoad])
    ensures gen.error.None? ==> FilledBy(gen.flow.spec.stackAt, gen.issued, BTF_FD_OFF, BtfLoad)
  {
    hide Good, IsCleanup, Lands, Recorded;
    var data := gen.AddData(rawSize);
    var attr := gen.AddData(28);
    MoveCtx2Blob(gen, attr + 24, W, CTX_LOG_LEVEL, false);
    MoveCtx2Blob(gen, attr + 20, W, CTX_LOG_SIZE, false);
    MoveCtx2Blob(gen, attr + 8, DW, CTX_LOG_BUF, false);
    EmitRelStore(gen, attr, data);
    EmitChecked(gen, BPF_BTF_LOAD, attr, 28, textLen, BtfLoad);
    if gen.error.None? {
      RecordedStack(gen.flow.spec, gen.issued, BTF_FD_OFF, gen.nrMaps, gen.nrProgs, gen.nrObjMaps, gen.nrFuncPtrMaps);
    }
    gen.EmitStackRecord(BTF_FD_OFF);
  }

  /** Remember the outcome of the command that created the map of a slot. */
  method RecordMap(gen: Gen, slot: nat)
    requires Ready(gen) && (gen.error.None? ==> slot < NR_MAP_SLOTS)
    requires gen.error.None? ==> HasOutcome(gen.flow) && gen.issued[|gen.issued| - 1] == CreateMap(slot)
    modifies gen`insns, gen`error, gen`flow
    ensures Ready(gen) && (gen.error.None? ==> old(gen.error).None?)
    ensures gen.error.None? && slot == gen.nrMaps ==>
      Recorded(gen.flow.spec, gen.issued, gen.nrMaps + 1, gen.nrProgs, gen.nrObjMaps, gen.nrFuncPtrMaps)
    ensures gen.error.None? && slot == gen.nrObjMaps + gen.nrFuncPtrMaps ==>
      Recorded(gen.flow.spec, gen.issued, gen.nrMaps, gen.nrProgs, gen.nrObjMaps, gen.nrFuncPtrMaps + 1)
  {
    hide Good, IsCleanup, Lands, Recorded;
    gen.EmitAddr(1, SlotOff(slot));
    if gen.error.None? {
      RecordedSlot(gen.flow.spec, gen.issued, slot, gen.nrMaps, gen.nrProgs, gen.nrObjMaps, gen.nrFuncPtrMaps);
    }
    gen.EmitSlotRecord(slot);
  }

  /** What the attribute of a map needs from elsewhere: the BTF, the inner map, the size that the context sets. */
  method EmitMapAttr(gen: Gen, attr: int, hasValueType: bool, isMapOfMaps: bool, mapIdx: int)
    requires gen.Valid() && (gen.error.None? ==>
      attr >= 4 * MAX_FD_ARRAY_SZ && gen.flow.live && gen.flow.pending == map[])
    modifies gen`insns, gen`error, gen`flow
    ensures gen.Valid() && (gen.error.None? ==> old(gen.error).None? && Straight(old(gen.flow), gen.flow))
  {
    hide Good, IsCleanup, Lands;
    if hasValueType {
      MoveStack2Blob(gen, attr + 48, W, BTF_FD_OFF);
    }
    if isMapOfMaps {
      MoveStack2Blob(gen, attr + 20, W, INNER_MAP_FD_OFF);
    }
    if mapIdx >= 0 && !gen.hash {
      MoveCtx2Blob(gen, attr + 12, W, CTX_SIZE + MAP_DESC_SIZE * mapIdx + MAP_DESC_MAX_ENTRIES, true);
    }
  }

  /** Create a map: one of the object, in the next slot, or, for a negative index, an inner map. */
  method MapCreate(gen: Gen, hasValueType: bool, isMapOfMaps: bool, mapIdx: int, textLen: nat)
    requires Ready(gen)
    modifies gen`insns, gen`error, gen`flow, gen`issued, gen`dataLen, gen`nrMaps
    ensures Ready(gen) && (gen.error.None? ==> old(gen.error).None?)
    ensures gen.error.None? ==>
      gen.nrMaps == old(gen.nrMaps) + (if mapIdx < 0 then 0 else 1) && (mapIdx >= 0 ==> mapIdx == old(gen.nrMaps))
    ensures gen.error.None? && mapIdx < 0 && !isMapOfMaps ==>
      FilledBy(gen.flow.spec.stackAt, gen.issued, INNER_MAP_FD_OFF, CreateInner)
    ensures gen.error.None? ==> gen.issued == old(gen.issued) + [if mapIdx < 0 then CreateInner else CreateMap(mapIdx)]
  {
    hide Good, IsCleanup, Lands, Recorded;
    var attr := gen.AddData(72);
    EmitMapAttr(gen, attr, hasValueType, isMapOfMaps, mapIdx);
    EmitChecked(gen, BPF_MAP_CREATE, attr, 72, textLen, if mapIdx < 0 then CreateInner else CreateMap(mapIdx));
    if mapIdx < 0 {
      if gen.error.None? {
        RecordedStack(gen.flow.spec, gen.issued, INNER_MAP_FD_OFF, gen.nrMaps, gen.nrProgs, gen.nrObjMaps,
          gen.nrFuncPtrMaps);
      }
      gen.EmitStackRecord(INNER_MAP_FD_OFF);
    } else if mapIdx != gen.nrMaps {
      gen.GiveUp(Domain);
      return;
    } else if gen.nrMaps == MAX_USED_MAPS {
      gen.GiveUp(TooBig);
    } else {
      RecordMap(gen, mapIdx);
      gen.nrMaps := gen.nrMaps + 1;
    }
    if isMapOfMaps {
      EmitSysCloseStack(gen, INNER_MAP_FD_OFF);
    }
  }

  /** If the context has an initial value for a map, read it, from the kernel or from the user; the caller goes
      on with `more` slots of code for that case. */
  method EmitCopyInitialValue(gen: Gen, mapIdx: nat, value: int, size: nat, more: nat)
    requires gen.Valid() && more <= 30000
    requires gen.error.None? ==> Outside(FD_ARRAY, value, size) && gen.flow.live && gen.flow.pending == map[]
    modifies gen`insns, gen`error, gen`flow
    ensures gen.Valid() && (gen.error.None? ==> old(gen.error).None? && gen.flow.pending.Keys == {|gen.insns| + more})
    ensures gen.error.None? ==> gen.flow == old(gen.flow).(env := gen.flow.env, pending := gen.flow.pending)
  {
    hide Gen.Valid, Good, IsCleanup, Lands;
    gen.Emit(Load(DW, 3, 6, CTX_SIZE + MAP_DESC_SIZE * mapIdx + MAP_DESC_INITIAL_VALUE));
    gen.EmitJump(Eq, 3, 0, 8 + more);
    EmitReadArgs(gen, value, size);
    EmitReadValue(gen, value, size);
    if more > 0 {
      gen.LandHere();
    }
  }

  /** Where an initial value goes, how long it is, and who supplies it. */
  method EmitReadArgs(gen: Gen, value: int, size: nat)
    requires gen.Valid() && (gen.error.None? ==> gen.flow.live && Clear(gen.flow, |gen.insns|, 4))
    modifies gen`insns, gen`error, gen`flow
    ensures gen.Valid() && (gen.error.None? ==> old(gen.error).None? && |gen.insns| == |old(gen.insns)| + 4)
    ensures gen.error.None? ==> gen.flow == old(gen.flow).(env := gen.flow.env)
    ensures gen.error.None? ==>
      0 in gen.flow.env && gen.flow.env[0] == SomeNum && 1 in gen.flow.env && gen.flow.env[1] == Is(Ptr(Blob, value))
    ensures gen.error.None? ==> 2 in gen.flow.env && gen.flow.env[2] == Is(Num(size))
  {
    hide Gen.Valid, Good, IsCleanup, Lands;
    gen.EmitAddr(1, value);
    gen.Emit(MovImm(2, size));
    gen.Emit(Load(W, 0, 6, CTX_FLAGS));
  }

  /** Read an initial value, from the kernel or from the user, depending on R0. */
  method EmitReadValue(gen: Gen, ghost value: int, ghost size: nat)
    requires gen.Valid()
    requires gen.error.None? ==> Outside(FD_ARRAY, value, size) && gen.flow.live && Clear(gen.flow, |gen.insns|, 4)
    requires gen.error.None? ==>
      0 in gen.flow.env && gen.flow.env[0] == SomeNum && 1 in gen.flow.env && gen.flow.env[1] == Is(Ptr(Blob, value))
    requires gen.error.None? ==> 2 in gen.flow.env && gen.flow.env[2] == Is(Num(size))
    modifies gen`insns, gen`error, gen`flow
    ensures gen.Valid() && (gen.error.None? ==> old(gen.error).None? && |gen.insns| == |old(gen.insns)| + 4)
    ensures gen.error.None? ==> gen.flow.pending.Keys == old(gen.flow).pending.Keys + {|gen.insns|}
    ensures gen.error.None? ==> gen.flow == old(gen.flow).(env := gen.flow.env, pending := gen.flow.pending)
  {
    hide Good, IsCleanup, Lands;
    gen.EmitJump(SetLow, 0, 1, 2);
    gen.EmitCall(CopyFromUser);
    gen.EmitJa(1);
    gen.LandHere();
    gen.EmitCall(ProbeReadKernel);
  }

  /** Update the one element of the map in a slot. */
  method EmitMapUpdateElem(gen: Gen, slot: nat, key: int, value: int, textLen: nat)
    requires Ready(gen)
    modifies gen`insns, gen`error, gen`flow, gen`issued, gen`dataLen
    ensures Ready(gen) && (gen.error.None? ==> old(gen.error).None?)
    ensures gen.error.None? ==> gen.issued == old(gen.issued) + [UpdateElem]
  {
    hide Good, IsCleanup, Lands, Recorded;
    var attr := gen.AddData(32);
    MoveBlob2Blob(gen, attr, W, SlotOff(slot));
    EmitRelStore(gen, attr + 8, key);
    EmitRelStore(gen, attr + 16, value);
    EmitChecked(gen, BPF_MAP_UPDATE_ELEM, attr, 32, textLen, UpdateElem);
  }

  method MapUpdateElem(gen: Gen, mapIdx: nat, valueSize: nat, textLen: nat)
    requires Ready(gen)
    modifies gen`insns, gen`error, gen`flow, gen`issued, gen`dataLen
    ensures Ready(gen) && (gen.error.None? ==> old(gen.error).None?)
    ensures gen.error.None? ==> gen.issued == old(gen.issued) + [UpdateElem]
  {
    hide Good, IsCleanup, Lands, Recorded;
    var value := gen.AddData(valueSize);
    var key := gen.AddData(4);
    if !gen.hash {
      EmitCopyInitialValue(gen, mapIdx, value, valueSize, 0);
      gen.LandHere();
    }
    EmitMapUpdateElem(gen, mapIdx, key, value, textLen);
  }

  method PopulateOuterMap(gen: Gen, outer: nat, inner: nat, textLen: nat)
    requires Ready(gen)
    modifies gen`insns, gen`error, gen`flow, gen`issued, gen`dataLen
    ensures Ready(gen) && (gen.error.None? ==> old(gen.error).None?)
    ensures gen.error.None? ==> gen.issued == old(gen.issued) + [UpdateElem]
  {
    hide Good, IsCleanup, Lands, Recorded;
    var key := gen.AddData(4);
    var attr := gen.AddData(32);
    MoveBlob2Blob(gen, attr, W, SlotOff(outer));
    EmitRelStore(gen, attr + 8, key);
    EmitRelStore(gen, attr + 16, SlotOff(inner));
    EmitChecked(gen, BPF_MAP_UPDATE_ELEM, attr, 32, textLen, UpdateElem);
  }

  method MapFreeze(gen: Gen, slot: nat, textLen: nat)
    requires Ready(gen)
    modifies gen`insns, gen`error, gen`flow, gen`issued, gen`dataLen
    ensures Ready(gen) && (gen.error.None? ==> old(gen.error).None?)
    ensures gen.error.None? ==> gen.issued == old(gen.issued) + [Freeze]
  {
    hide Good, IsCleanup, Lands, Recorded;
    var attr := gen.AddData(4);
    MoveBlob2Blob(gen, attr, W, SlotOff(slot));
    EmitChecked(gen, BPF_MAP_FREEZE, attr, 4, textLen, Freeze);
  }

  /** Write function pointers into an initial value; runs without one jump past. */
  method EmitPointers(gen: Gen, value: int, ptrOffs: seq<nat>, ptrVals: seq<int>)
    requires gen.Valid() && |ptrVals| == |ptrOffs|
    requires gen.error.None? ==>
      value >= 4 * MAX_FD_ARRAY_SZ && gen.flow.live && gen.flow.pending.Keys == {|gen.insns| + 3 * |ptrOffs|}
    modifies gen`insns, gen`error, gen`flow
    ensures gen.Valid() && (gen.error.None? ==>
      old(gen.error).None? && |gen.insns| in gen.flow.pending && gen.flow.pending.Keys == {|gen.insns|})
    ensures gen.error.None? ==> gen.flow == old(gen.flow).(env := gen.flow.env)
  {
    hide Good, IsCleanup, Lands;
    var i := 0;
    while i < |ptrOffs|
      invariant 0 <= i <= |ptrOffs| && gen.Valid() && (gen.error.None? ==> old(gen.error).None?)
      invariant gen.error.None? ==>
        gen.flow == old(gen.flow).(env := gen.flow.env) && |gen.insns| == |old(gen.insns)| + 3 * i
    {
      gen.EmitAddr(1, value + ptrOffs[i]);
      gen.Emit(StoreImm(DW, 1, 0, ptrVals[i]));
      i := i + 1;
    }
  }

  /** Create a map with pointers to functions, in a slot behind those of the object. */
  method FuncPtrMapCreate(gen: Gen, objMapIdx: nat, valueSize: nat, ptrOffs: seq<nat>, ptrVals: seq<int>, textLen: nat)
    returns (slot: nat)
    requires Ready(gen) && |ptrVals| == |ptrOffs|
    modifies gen`insns, gen`error, gen`flow, gen`issued, gen`dataLen, gen`nrFuncPtrMaps
    ensures Ready(gen) && (gen.error.None? ==> old(gen.error).None?)
    ensures gen.error.None? ==>
      slot == gen.nrObjMaps + old(gen.nrFuncPtrMaps) && gen.nrFuncPtrMaps == old(gen.nrFuncPtrMaps) + 1
    ensures gen.error.None? ==> gen.issued == old(gen.issued) + [CreateMap(slot), UpdateElem, Freeze]
  {
    hide Good, IsCleanup, Lands, Recorded;
    slot := 0;
    if gen.nrFuncPtrMaps == gen.maxFuncPtrMaps {
      gen.GiveUp(Domain);
      return;
    }
    slot := gen.nrObjMaps + gen.nrFuncPtrMaps;
    var attr := gen.AddData(72);
    EmitChecked(gen, BPF_MAP_CREATE, attr, 72, textLen, CreateMap(slot));
    RecordMap(gen, slot);
    gen.nrFuncPtrMaps := gen.nrFuncPtrMaps + 1;
    var value := gen.AddData(valueSize);
    var key := gen.AddData(4);
    if !gen.hash {
      if |ptrOffs| > 10000 {
        gen.GiveUp(TooBig);
        return;
      }
      EmitHostValue(gen, objMapIdx, value, valueSize, ptrOffs, ptrVals);
    }
    EmitMapUpdateElem(gen, slot, key, value, textLen);
    MapFreeze(gen, slot, textLen);
  }

  /** Take over the value that the host supplies, if any, and put the pointers into it. */
  method EmitHostValue(gen: Gen, objMapIdx: nat, value: int, valueSize: nat, ptrOffs: seq<nat>, ptrVals: seq<int>)
    requires gen.Valid() && |ptrVals| == |ptrOffs| <= 10000
    requires gen.error.None? ==> value >= 4 * MAX_FD_ARRAY_SZ && gen.flow.live && gen.flow.pending == map[]
    modifies gen`insns, gen`error, gen`flow
    ensures gen.Valid() && (gen.error.None? ==> old(gen.error).None? && gen.flow == old(gen.flow).(env := gen.flow.env))
  {
    hide Good, IsCleanup, Lands;
    EmitCopyInitialValue(gen, objMapIdx, value, valueSize, 3 * |ptrOffs|);
    EmitPointers(gen, value, ptrOffs, ptrVals);
    gen.LandHere();
  }
}
