/** Whole loaders: any calls in any order between the start and the end. */
module LoaderRun {
  import opened LoaderGen
  import opened LoaderMaps
  import opened LoaderProgs
  import opened Loader

  datatype Pointer = Pointer(off: nat, val: int)

  /** Calls that the user of a generator can make between starting and finishing it. */
  datatype Op =
    | OpLoadBtf(rawSize: nat, textLen: nat)
    | OpMapCreate(hasValueType: bool, isMapOfMaps: bool, mapIdx: int, textLen: nat)
    | OpMapUpdateElem(updated: nat, valueSize: nat, textLen: nat)
    | OpPopulateOuterMap(outer: nat, inner: nat, textLen: nat)
    | OpMapFreeze(frozen: nat, textLen: nat)
    | OpFuncPtrMapCreate(objMapIdx: nat, valueSize: nat, pointers: seq<Pointer>, textLen: nat)
    | OpRecordAttachTarget(kind: nat, nameLen: nat)
    | OpRecordExtern(relo: Relo)
    | OpProgLoad(sizes: ProgSizes, mask: int, textLen: nat)

  /** Sizes of what comes with a program. */
  datatype ProgSizes = ProgSizes(license: nat, insns: nat, funcInfo: nat, lineInfo: nat, coreRelos: nat)

  /** How many calls have made something that is counted. */
  datatype Tally = Tally(maps: nat, funcPtrMaps: nat, progs: nat)

  function After(t: Tally, op: Op): Tally {
    match op
    case OpMapCreate(_, _, idx, _) => if idx < 0 then t else t.(maps := t.maps + 1)
    case OpFuncPtrMapCreate(_, _, _, _) => t.(funcPtrMaps := t.funcPtrMaps + 1)
    case OpProgLoad(_, _, _) => t.(progs := t.progs + 1)
    case _ => t
  }

  /** The commands that a call is for; `first` is the slot of the first map with pointers to functions. */
  function Commands(t: Tally, first: nat, op: Op): seq<Command> {
    match op
    case OpLoadBtf(_, _) => [BtfLoad]
    case OpMapCreate(_, _, idx, _) => [if idx < 0 then CreateInner else CreateMap(t.maps)]
    case OpMapUpdateElem(_, _, _) => [UpdateElem]
    case OpPopulateOuterMap(_, _, _) => [UpdateElem]
    case OpMapFreeze(_, _) => [Freeze]
    case OpFuncPtrMapCreate(_, _, _, _) => [CreateMap(first + t.funcPtrMaps), UpdateElem, Freeze]
    case OpRecordAttachTarget(_, _) => []
    case OpRecordExtern(_) => []
    case OpProgLoad(_, _, _) => [LoadProg(t.progs)]
  }

  function TallyOf(ops: seq<Op>): Tally {
    if ops == [] then Tally(0, 0, 0) else After(TallyOf(ops[..|ops| - 1]), ops[|ops| - 1])
  }

  function CommandsOf(first: nat, ops: seq<Op>): seq<Command> {
    if ops == [] then []
    else
      var before := ops[..|ops| - 1];
      CommandsOf(first, before) + Commands(TallyOf(before), first, ops[|ops| - 1])
  }

  lemma NextOp(first: nat, ops: seq<Op>, i: nat)
    requires i < |ops|
    ensures TallyOf(ops[..i + 1]) == After(TallyOf(ops[..i]), ops[i])
    ensures CommandsOf(first, ops[..i + 1]) == CommandsOf(first, ops[..i]) + Commands(TallyOf(ops[..i]), first, ops[i])
  {
    assert ops[..i + 1][..i] == ops[..i];
  }

  /** Between two calls, after those in `ops`. */
  ghost predicate Between(gen: Gen, ops: seq<Op>)
    reads gen
  {
    && Ready(gen) && (gen.error.None? ==> gen.ksyms == [] && gen.nrFdArray == 0)
    && (gen.error.None? ==>
          && TallyOf(ops) == Tally(gen.nrMaps, gen.nrFuncPtrMaps, gen.nrProgs)
          && gen.issued == CommandsOf(gen.nrObjMaps, ops))
  }

  /** One call. */
  method Call(gen: Gen, op: Op)
    requires Ready(gen) && (gen.error.None? ==> gen.ksyms == [] && gen.nrFdArray == 0)
    modifies gen
    ensures Ready(gen) && (gen.error.None? ==> old(gen.error).None? && gen.ksyms == [] && gen.nrFdArray == 0)
    ensures gen.error.None? ==>
      var t := Tally(old(gen.nrMaps), old(gen.nrFuncPtrMaps), old(gen.nrProgs));
      && After(t, op) == Tally(gen.nrMaps, gen.nrFuncPtrMaps, gen.nrProgs)
      && gen.issued == old(gen.issued) + Commands(t, gen.nrObjMaps, op)
  {
    hide Ready;
    match op
    case OpLoadBtf(size, n) => LoadBtf(gen, size, n);
    case OpMapCreate(hasValueType, isMapOfMaps, idx, n) => MapCreate(gen, hasValueType, isMapOfMaps, idx, n);
    case OpMapUpdateElem(idx, size, n) => MapUpdateElem(gen, idx, size, n);
    case OpPopulateOuterMap(outer, inner, n) => PopulateOuterMap(gen, outer, inner, n);
    case OpMapFreeze(idx, n) => MapFreeze(gen, idx, n);
    case OpFuncPtrMapCreate(idx, size, ps, n) =>
      var slot := FuncPtrMapCreate(gen, idx, size, seq(|ps|, i requires 0 <= i < |ps| => ps[i].off),
        seq(|ps|, i requires 0 <= i < |ps| => ps[i].val), n);
    case OpRecordAttachTarget(kind, len) => RecordAttachTarget(gen, kind, len);
    case OpRecordExtern(relo) => RecordExtern(gen, relo);
    case OpProgLoad(z, mask, n) =>
      ProgLoad(gen, z.license, z.insns, z.funcInfo, z.lineInfo, z.coreRelos, mask, n);
  }

  /** Start a loader, make any calls, and finish it. Without an error it has all the maps and no more programs than
      it was started for, it issues the commands of the calls in their order, and every run works or cleans up. */
  method Run(log: bool, hash: bool, nrProgs: nat, nrMaps: nat, maxFuncPtrMaps: nat, ops: seq<Op>)
    returns (gen: Gen)
    ensures gen.error.None? ==> TallyOf(ops).maps == nrMaps && TallyOf(ops).progs <= nrProgs && AllLand(gen.insns)
    ensures gen.error.None? ==>
      AlwaysDelivers(gen.insns, CommandsOf(nrMaps, ops), gen.flow.spec, nrMaps, TallyOf(ops).progs, gen.nrSlots,
        nrMaps + maxFuncPtrMaps)
  {
    hide Gen.Valid, Recorded, AllLand, AlwaysDelivers, Commands, After;
    gen := new Gen(log, hash, nrProgs, nrMaps, maxFuncPtrMaps);
    var i := 0;
    NoneRecorded(gen);
    while i < |ops|
      invariant 0 <= i <= |ops| && fresh(gen) && Between(gen, ops[..i])
    {
      NextOp(gen.nrObjMaps, ops, i);
      Call(gen, ops[i]);
      i := i + 1;
    }
    assert ops[..|ops|] == ops;
    Finish(gen, nrProgs, nrMaps);
  }

  lemma NoneRecorded(gen: Gen)
    requires gen.Valid() && gen.issued == [] && gen.nrMaps == gen.nrProgs == gen.nrFuncPtrMaps == 0
    requires gen.error.None? ==> Steady(gen.flow) && gen.flow.spec == NOTHING_YET
    ensures Ready(gen)
  {
    hide Gen.Valid;
  }
}
