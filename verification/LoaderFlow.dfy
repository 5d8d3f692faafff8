/** What all runs of a loader have in common at the end of the code emitted so far. */
module LoaderFlow {
  import opened LoaderVm

  /** What is known of a register: its value, or that it is a number, or that it is the outcome of the last
      command, or the low half of the outcome of an earlier one. */
  datatype Known = Is(v: Value) | SomeNum | LastResult | ResultAt(idx: nat)

  type Env = map<Reg, Known>

  ghost predicate Fits(k: Known, v: Value, results: seq<int>) {
    match k
    case Is(x) => v == x
    case SomeNum => v.Num?
    case LastResult => |results| > 0 && v == Num(results[|results| - 1])
    case ResultAt(idx) => idx < |results| && v == Num(Low32(results[idx]))
  }

  ghost predicate Agree(env: Env, s: State)
    requires Machine(s)
  {
    forall r :: r in env ==> Fits(env[r], s.regs[r], s.results)
  }

  /** What commands have been issued so far, how many of them are known to have succeeded, and which words
      hold their outcomes. `settled` says that no run has left for cleanup after the last command unless
      that command failed. */
  datatype Spec = Spec(cmds: seq<int>, checked: nat, settled: bool,
                       stackAt: map<int, nat>, blobAt: map<int, nat>, ctxAt: map<int, nat>)
  {
    function Count(): nat {
      |cmds|
    }
  }

  /** The state of the generator as far as runs are concerned: where the slots for map descriptors are and
      how many, where cleanup is, what is known at the end of the code, whether any run gets there, and
      which places further on runs have jumped to. */
  datatype Flow = Flow(fd: int, cleanup: int, env: Env, live: bool, pending: map<int, Env>, spec: Spec)

  const NR_MAP_SLOTS := 64
  const STACK_SIZE := 136

  predicate IsStackSlot(a: int) {
    -STACK_SIZE <= a < 0 && a % 4 == 0
  }

  predicate IsBlobSlot(fd: int, a: int) {
    fd <= a < fd + 4 * NR_MAP_SLOTS && (a - fd) % 4 == 0
  }

  /** An access that stays clear of the map slots. */
  predicate Outside(fd: int, a: int, n: int) {
    a + n <= fd || fd + 4 * NR_MAP_SLOTS <= a
  }

  /** A slot is empty or holds the outcome of a command that succeeded. */
  ghost predicate Owned(word: int, results: seq<int>) {
    word == 0 || exists j :: 0 <= j < |results| && results[j] >= 0 && word == Low32(results[j])
  }

  ghost predicate SlotsOwned(fd: int, s: State) {
    && (forall a :: IsStackSlot(a) ==> Owned(Word(s.stack, a), s.results))
    && (forall a :: IsBlobSlot(fd, a) ==> Owned(Word(s.blob, a), s.results))
  }

  ghost predicate Base(s: State) {
    Machine(s) && s.outcome == Running && s.regs[6] == Ptr(Ctx, 0) && s.regs[10] == Ptr(Stack, 0)
  }

  /** Words that hold outcomes. */
  ghost predicate Holding(at: map<int, nat>, m: Mem, results: seq<int>) {
    forall a :: a in at ==> at[a] < |results| && Word(m, a) == Low32(results[at[a]])
  }

  ghost predicate Proper(fd: int, spec: Spec) {
    && (forall a :: a in spec.stackAt ==> IsStackSlot(a))
    && (forall a :: a in spec.blobAt ==> IsBlobSlot(fd, a))
    && (forall a :: a in spec.ctxAt ==> a % 4 == 0)
  }

  /** All error checks have been passed. */
  ghost predicate AllPass(checks: seq<int>) {
    forall j :: 0 <= j < |checks| ==> checks[j] >= 0
  }

  /** The outcomes of the first `n` commands have been checked. */
  ghost predicate Accounted(results: seq<int>, n: nat, checks: seq<int>) {
    n <= |results| && forall j :: 0 <= j < n ==> results[j] in checks
  }

  /** A run that has got through. */
  ghost predicate Through(fd: int, spec: Spec, s: State) {
    && Proper(fd, spec) && |s.results| == spec.Count() && spec.checked <= spec.Count() && s.commands == spec.cmds
    && (forall j :: 0 <= j < spec.checked ==> s.results[j] >= 0)
    && AllPass(s.checks) && Accounted(s.results, spec.checked, s.checks)
    && Holding(spec.stackAt, s.stack, s.results) && Holding(spec.blobAt, s.blob, s.results)
    && Holding(spec.ctxAt, s.ctx, s.results) && SlotsOwned(fd, s)
  }

  /** Of the words for outcomes, those whose command has succeeded hold the outcome. */
  ghost predicate HoldingSome(at: map<int, nat>, m: Mem, results: seq<int>) {
    forall a :: a in at && at[a] < |results| && results[at[a]] >= 0 ==> Word(m, a) == Low32(results[at[a]])
  }

  /** The last error check has seen a negative value, and no earlier one has. */
  ghost predicate FailsWith(checks: seq<int>, value: int) {
    checks != [] && value < 0 && checks[|checks| - 1] == value && AllPass(checks[..|checks| - 1])
  }

  /** No command was issued after one that failed, and the outcome of each has been checked. */
  ghost predicate Orderly(results: seq<int>, checks: seq<int>) {
    (forall j :: 0 <= j < |results| - 1 ==> results[j] >= 0) && Accounted(results, |results|, checks)
  }

  /** A run that has failed and left for cleanup. */
  ghost predicate Failed(fd: int, spec: Spec, s: State)
    requires Machine(s)
  {
    && s.regs[7].Num? && FailsWith(s.checks, s.regs[7].n) && Orderly(s.results, s.checks)
    && |s.results| == |s.commands| && s.commands <= spec.cmds
    && (spec.settled && |s.results| == spec.Count() > 0 ==> s.results[spec.Count() - 1] < 0)
    && HoldingSome(spec.stackAt, s.stack, s.results) && HoldingSome(spec.blobAt, s.blob, s.results)
    && SlotsOwned(fd, s)
  }

  ghost predicate Arrived(f: Flow, len: nat, s: State) {
    Base(s) &&
    ( || (s.pc == len && f.live && Agree(f.env, s) && Through(f.fd, f.spec, s))
      || (s.pc in f.pending && s.pc >= len && Agree(f.pending[s.pc], s) && Through(f.fd, f.spec, s))
      || (s.pc == f.cleanup && f.cleanup < len && Failed(f.fd, f.spec, s)))
  }

  /** The machine as a loader finds it. */
  ghost predicate Starts(fd: int, s: State) {
    && Machine(s) && s.pc == 0 && s.outcome == Running
    && s.regs[1] == Ptr(Ctx, 0) && s.regs[10] == Ptr(Stack, 0)
    && s.results == [] && s.commands == [] && s.checks == [] && s.closed == [] &&
      forall a :: IsBlobSlot(fd, a) ==> Word(s.blob, a) == 0
  }

  ghost predicate Arrives(p: seq<Insn>, f: Flow, w: World, s: State)
    requires Machine(s)
  {
    exists s', n :: Runs(p, w, s, s', n) && Arrived(f, |p|, s')
  }

  /** All runs, whatever the helpers do, get to where the flow says. */
  ghost predicate Good(p: seq<Insn>, f: Flow) {
    forall w, s :: Starts(f.fd, s) ==> Arrives(p, f, w, s)
  }

  // ----- how code extends runs -----

  /** One more instruction, or two slots of one: runs that are there go on, and the others stay. */
  ghost predicate Extends(p: seq<Insn>, p': seq<Insn>, f: Flow, f': Flow) {
    p <= p' && f'.fd == f.fd && forall w, s :: Arrived(f, |p|, s) ==> Arrives(p', f', w, s)
  }

  lemma GoodExtends(p: seq<Insn>, p': seq<Insn>, f: Flow, f': Flow)
    requires Good(p, f) && Extends(p, p', f, f')
    ensures Good(p', f')
  {
    hide Arrived, Runs, Word, Step;
    forall w, s | Starts(f'.fd, s)
      ensures Arrives(p', f', w, s)
    {
      assert Arrives(p, f, w, s);
      var s1, n :| Runs(p, w, s, s1, n) && Arrived(f, |p|, s1);
      RunsMachine(p, w, s, s1, n);
      RunsInLonger(p, p', w, s, s1, n);
      assert Arrives(p', f', w, s1);
      var s2, m :| Runs(p', w, s1, s2, m) && Arrived(f', |p'|, s2);
      RunsOn(p', w, s, s1, s2, n, m);
    }
  }

  lemma StaysArrived(p': seq<Insn>, f': Flow, w: World, s: State)
    requires Machine(s) && Arrived(f', |p'|, s)
    ensures Arrives(p', f', w, s)
  {
    assert Runs(p', w, s, s, 0);
  }

  lemma OneStep(p': seq<Insn>, f': Flow, w: World, s: State)
    requires Machine(s) && s.outcome.Running? && 0 <= s.pc < |p'| && Arrived(f', |p'|, Step(p', w, s))
    ensures Arrives(p', f', w, s)
  {
    hide Arrived, Step;
    var s1 := Step(p', w, s);
    assert Runs(p', w, s1, s1, 0);
    assert Runs(p', w, s, s1, 1);
  }

  // ----- instructions that neither jump nor call -----

  predicate IsFree(r: Reg) {
    r != 6 && r != 10
  }

  predicate IsNumber(k: Known) {
    k.SomeNum? || k.LastResult? || k.ResultAt? || (k.Is? && k.v.Num?)
  }

  predicate IsBlobPtr(env: Env, r: Reg) {
    r in env && env[r].Is? && env[r].v.Ptr? && env[r].v.region.Blob?
  }

  /** Instructions that work on registers, read memory, or write to the blob clear of the map slots. */
  predicate IsPlain(fd: int, env: Env, i: Insn) {
    match i
    case Mov(dst, src) => IsFree(dst) && IsFree(src)
    case MovImm(dst, _) => IsFree(dst)
    case Rsh32(dst) => IsFree(dst)
    case AndImm(dst, _) => IsFree(dst)
    case Load(_, dst, base, _) => IsFree(dst) && (base == 6 || base == 10 || IsBlobPtr(env, base))
    case Store(size, base, _, off) => IsBlobPtr(env, base) && Outside(fd, env[base].v.at + off, Bytes(size))
    case StoreImm(size, base, off, _) => IsBlobPtr(env, base) && Outside(fd, env[base].v.at + off, Bytes(size))
    case _ => false
  }

  function AfterPlain(env: Env, i: Insn): Env {
    match i
    case Mov(dst, src) => if src in env then env[dst := env[src]] else env - {dst}
    case MovImm(dst, imm) => env[dst := Is(Num(imm))]
    case Rsh32(dst) => env[dst := SomeNum]
    case AndImm(dst, _) => env[dst := SomeNum]
    case Load(_, dst, _, _) => env[dst := SomeNum]
    case _ => env
  }

  /** Nothing changes where outcomes are held. */
  ghost predicate Undisturbed(fd: int, s: State, s': State) {
    && s'.results == s.results && s'.commands == s.commands && s'.checks == s.checks && s'.ctx == s.ctx &&
      s'.stack == s.stack
    && (forall a :: IsBlobSlot(fd, a) ==> Word(s'.blob, a) == Word(s.blob, a))
  }

  lemma StillThrough(fd: int, spec: Spec, s: State, s': State)
    requires Through(fd, spec, s) && Undisturbed(fd, s, s')
    ensures Through(fd, spec, s')
  {
    hide Word, Owned;
  }

  lemma ClearStore(fd: int, m: Mem, a: int, n: nat, x: int)
    requires n <= 8 && Outside(fd, a, n)
    ensures forall b :: IsBlobSlot(fd, b) ==> Word(StoreAt(m, a, n, x), b) == Word(m, b)
  {
    forall b | IsBlobSlot(fd, b)
      ensures Word(StoreAt(m, a, n, x), b) == Word(m, b)
    {
      WordKept(m, StoreAt(m, a, n, x), b);
    }
  }

  lemma PlainStep(p: seq<Insn>, w: World, s: State, f: Flow, i: Insn)
    requires Base(s) && 0 <= s.pc < |p| && p[s.pc] == i && IsPlain(f.fd, f.env, i)
    requires Agree(f.env, s) && Through(f.fd, f.spec, s)
    ensures var s' := Step(p, w, s);
      s'.pc == s.pc + 1 && Base(s') && Agree(AfterPlain(f.env, i), s') && Through(f.fd, f.spec, s')
  {
    hide Word, Through, StoreAt, LoadAt, Outside;
    var s' := Step(p, w, s);
    if i.Store? {
      ClearStore(f.fd, s.blob, f.env[i.base].v.at + i.off, Bytes(i.size), NumOf(s.regs[i.src]));
    } else if i.StoreImm? {
      ClearStore(f.fd, s.blob, f.env[i.base].v.at + i.off, Bytes(i.size), i.imm);
    }
    StillThrough(f.fd, f.spec, s, s');
  }

  lemma ExtendPlain(p: seq<Insn>, f: Flow, i: Insn)
    requires Good(p, f) && |p| !in f.pending && (f.live ==> IsPlain(f.fd, f.env, i))
    ensures Good(p + [i], f.(env := AfterPlain(f.env, i)))
  {
    hide Runs, Step, Good, Agree, Through, Failed, IsPlain;
    var p', f' := p + [i], f.(env := AfterPlain(f.env, i));
    forall w, s | Arrived(f, |p|, s)
      ensures Arrives(p', f', w, s)
    {
      if s.pc == |p| && f.live && Agree(f.env, s) && Through(f.fd, f.spec, s) {
        PlainStep(p', w, s, f, i);
        OneStep(p', f', w, s);
      } else {
        StaysArrived(p', f', w, s);
      }
    }
    GoodExtends(p, p', f, f');
  }

  /** The address of a place in the blob takes two slots. */
  lemma ExtendWide(p: seq<Insn>, f: Flow, dst: Reg, off: int)
    requires Good(p, f) && |p| !in f.pending && |p| + 1 !in f.pending && IsFree(dst)
    ensures Good(p + [LdBlob(dst, off), Wide], f.(env := f.env[dst := Is(Ptr(Blob, off))]))
  {
    hide Runs, Good, Through, Failed, Word;
    var p', f' := p + [LdBlob(dst, off), Wide], f.(env := f.env[dst := Is(Ptr(Blob, off))]);
    forall w, s | Arrived(f, |p|, s)
      ensures Arrives(p', f', w, s)
    {
      if s.pc == |p| && f.live && Agree(f.env, s) && Through(f.fd, f.spec, s) {
        assert p'[|p|] == LdBlob(dst, off);
        StillThrough(f.fd, f.spec, s, Step(p', w, s));
        OneStep(p', f', w, s);
      } else {
        StaysArrived(p', f', w, s);
      }
    }
    GoodExtends(p, p', f, f');
  }

  // ----- jumps -----

  /** What is known however one gets to a place. */
  function Meet(a: Env, b: Env): (e: Env)
    ensures forall r :: r in e ==> r in a && r in b && a[r] == b[r] == e[r]
  {
    map r | r in a && r in b && a[r] == b[r] :: a[r]
  }

  function Park(f: Flow, t: int): Flow {
    f.(pending := f.pending[t := if t in f.pending then Meet(f.pending[t], f.env) else f.env])
  }

  lemma ParkKeeps(f: Flow, len: nat, t: int, s: State)
    requires Arrived(f, len, s) && !(s.pc == len && f.live && Agree(f.env, s) && Through(f.fd, f.spec, s)) &&
      len !in f.pending
    ensures Arrived(Park(f, t), len + 1, s) && Arrived(Park(f, t).(live := false), len + 1, s)
  {
    hide Through, Failed, Fits;
  }

  lemma ParkTakes(f: Flow, len: nat, t: int, s: State)
    requires Base(s) && f.live && Agree(f.env, s) && Through(f.fd, f.spec, s) && s.pc == t >= len
    ensures Arrived(Park(f, t), len, s) && Arrived(Park(f, t).(live := false), len, s)
  {
    hide Through, Failed, Fits;
  }

  /** A conditional jump forward. */
  lemma ExtendJump(p: seq<Insn>, f: Flow, c: Cond, r: Reg, imm: int, jump: nat)
    requires Good(p, f) && |p| !in f.pending && f.live && r in f.env && IsNumber(f.env[r]) && !IsCheck(c, r, imm)
    ensures Good(p + [JumpIf(c, r, imm, jump)], Park(f, |p| + 1 + jump))
  {
    hide Runs, Good, Through, Failed, Word;
    var p', t := p + [JumpIf(c, r, imm, jump)], |p| + 1 + jump;
    forall w, s | Arrived(f, |p|, s)
      ensures Arrives(p', Park(f, t), w, s)
    {
      if s.pc == |p| && f.live && Agree(f.env, s) && Through(f.fd, f.spec, s) {
        assert p'[|p|] == JumpIf(c, r, imm, jump);
        assert Fits(f.env[r], s.regs[r], s.results);
        var s' := Step(p', w, s);
        StillThrough(f.fd, f.spec, s, s');
        assert Agree(f.env, s');
        if s'.pc == t {
          ParkTakes(f, |p| + 1, t, s');
        }
        OneStep(p', Park(f, t), w, s);
      } else {
        ParkKeeps(f, |p|, t, s);
        StaysArrived(p', Park(f, t), w, s);
      }
    }
    GoodExtends(p, p', f, Park(f, t));
  }

  /** A jump forward: nothing falls through. */
  lemma ExtendJa(p: seq<Insn>, f: Flow, jump: nat)
    requires Good(p, f) && |p| !in f.pending && f.live
    ensures Good(p + [Ja(jump)], Park(f, |p| + 1 + jump).(live := false))
  {
    hide Runs, Good, Through, Failed, Word;
    var p', t := p + [Ja(jump)], |p| + 1 + jump;
    var f' := Park(f, t).(live := false);
    forall w, s | Arrived(f, |p|, s)
      ensures Arrives(p', f', w, s)
    {
      if s.pc == |p| && f.live && Agree(f.env, s) && Through(f.fd, f.spec, s) {
        assert p'[|p|] == Ja(jump);
        var s' := Step(p', w, s);
        StillThrough(f.fd, f.spec, s, s');
        assert Agree(f.env, s');
        ParkTakes(f, |p| + 1, t, s');
        OneStep(p', f', w, s);
      } else {
        ParkKeeps(f, |p|, t, s);
        StaysArrived(p', f', w, s);
      }
    }
    GoodExtends(p, p', f, f');
  }

  /** The flow where a jump lands. */
  function Landed(f: Flow, len: int): Flow
    requires len in f.pending
  {
    f.(env := if f.live then Meet(f.env, f.pending[len]) else f.pending[len],
       live := true, pending := f.pending - {len})
  }

  lemma Land(p: seq<Insn>, f: Flow)
    requires Good(p, f) && |p| in f.pending
    ensures Good(p, Landed(f, |p|))
  {
    hide Runs, Good, Through, Failed, Word, Fits;
    var f' := Landed(f, |p|);
    forall w, s | Arrived(f, |p|, s)
      ensures Arrives(p, f', w, s)
    {
      StaysArrived(p, f', w, s);
    }
    GoodExtends(p, p, f, f');
  }

  /** Code that no run gets to may be anything. */
  lemma ExtendDead(p: seq<Insn>, f: Flow, q: seq<Insn>)
    requires Good(p, f) && !f.live && forall t :: |p| <= t < |p| + |q| ==> t !in f.pending
    ensures Good(p + q, f)
  {
    hide Runs, Good, Through, Failed, Word, Agree;
    forall w, s | Arrived(f, |p|, s)
      ensures Arrives(p + q, f, w, s)
    {
      StaysArrived(p + q, f, w, s);
    }
    GoodExtends(p, p + q, f, f);
  }

  /** An error check: a negative R7 goes to cleanup. */
  function Checked(f: Flow): Flow
    requires 7 in f.env
  {
    if f.env[7].LastResult? then f.(spec := f.spec.(checked := f.spec.Count()))
    else f.(spec := f.spec.(settled := false))
  }

  lemma ExtendCheck(p: seq<Insn>, f: Flow, jump: int)
    requires Good(p, f) && |p| !in f.pending && f.live && 0 <= f.cleanup < |p| && |p| + 1 + jump == f.cleanup
    requires 7 in f.env && IsNumber(f.env[7])
    requires
      if f.env[7].LastResult? then f.pending == map[] && f.spec.checked + 1 == f.spec.Count()
      else f.spec.checked == f.spec.Count()
    ensures Good(p + [JumpIf(Slt, 7, 0, jump)], Checked(f))
  {
    hide Runs, Good, Word;
    var p', f' := p + [JumpIf(Slt, 7, 0, jump)], Checked(f);
    forall w, s | Arrived(f, |p|, s)
      ensures Arrives(p', f', w, s)
    {
      if s.pc == |p| && f.live && Agree(f.env, s) && Through(f.fd, f.spec, s) {
        assert p'[|p|] == JumpIf(Slt, 7, 0, jump);
        CheckStep(p', w, s, f, jump);
        OneStep(p', f', w, s);
      } else {
        CheckOthers(f, |p|, s);
        StaysArrived(p', f', w, s);
      }
    }
    GoodExtends(p, p', f, f');
  }

  lemma CheckOthers(f: Flow, len: nat, s: State)
    requires Arrived(f, len, s) && len !in f.pending && 7 in f.env && (f.env[7].LastResult? ==> f.pending == map[])
    requires !(s.pc == len && f.live && Agree(f.env, s) && Through(f.fd, f.spec, s))
    ensures Arrived(Checked(f), len + 1, s)
  {
    hide Word, Owned, Agree, SlotsOwned, Holding, HoldingSome;
  }

  lemma CheckStep(p: seq<Insn>, w: World, s: State, f: Flow, jump: int)
    requires Base(s) && 0 <= s.pc < |p| && p[s.pc] == JumpIf(Slt, 7, 0, jump) && s.pc + 1 + jump == f.cleanup < s.pc + 1
    requires Agree(f.env, s) && Through(f.fd, f.spec, s) && 7 in f.env && IsNumber(f.env[7])
    requires f.live && f.spec.checked + (if f.env[7].LastResult? then 1 else 0) == f.spec.Count()
    ensures Arrived(Checked(f), s.pc + 1, Step(p, w, s))
  {
    hide Word, Through, Failed;
    assert Fits(f.env[7], s.regs[7], s.results);
    var s' := Step(p, w, s);
    assert Agree(f.env, s');
    if s.regs[7].n < 0 {
      FailsHere(f, s, s');
    } else {
      PassesHere(f, s, s');
    }
  }

  lemma FailsHere(f: Flow, s: State, s': State)
    requires Machine(s) && Through(f.fd, f.spec, s) && 7 in f.env && Fits(f.env[7], s.regs[7], s.results)
    requires s.regs[7].Num? && s.regs[7].n < 0 && f.spec.checked + (if f.env[7].LastResult? then 1 else 0) ==
      f.spec.Count()
    requires s' == s.(pc := s'.pc, checks := s.checks + [s.regs[7].n])
    ensures Failed(f.fd, Checked(f).spec, s')
  {
    hide Word, SlotsOwned, Holding, HoldingSome;
    assert s'.checks[..|s.checks|] == s.checks;
    AccountedMore(s.results, f.spec.checked, s.checks, s.regs[7].n);
    SameSlots(f.fd, s, s');
    HoldsSome(f.spec.stackAt, s.stack, s.results);
    HoldsSome(f.spec.blobAt, s.blob, s.results);
  }

  lemma SameSlots(fd: int, s: State, s': State)
    requires SlotsOwned(fd, s) && s'.stack == s.stack && s'.blob == s.blob && s'.results == s.results
    ensures SlotsOwned(fd, s')
  {
    hide Word, Owned;
  }

  lemma HoldsSome(at: map<int, nat>, m: Mem, results: seq<int>)
    requires Holding(at, m, results)
    ensures HoldingSome(at, m, results)
  {
    hide Word;
  }

  lemma PassMore(checks: seq<int>, v: int)
    requires AllPass(checks) && v >= 0
    ensures AllPass(checks + [v])
  {
  }

  lemma AccountedMore(results: seq<int>, n: nat, checks: seq<int>, v: int)
    requires Accounted(results, n, checks)
    ensures Accounted(results, n, checks + [v])
    ensures n < |results| && results[n] == v ==> Accounted(results, n + 1, checks + [v])
  {
    assert v == (checks + [v])[|checks|];
  }

  lemma PassesHere(f: Flow, s: State, s': State)
    requires Machine(s) && Through(f.fd, f.spec, s) && 7 in f.env && Fits(f.env[7], s.regs[7], s.results)
    requires s.regs[7].Num? && s.regs[7].n >= 0 && f.spec.checked + (if f.env[7].LastResult? then 1 else 0) ==
      f.spec.Count()
    requires s' == s.(pc := s'.pc, checks := s.checks + [s.regs[7].n])
    ensures Through(f.fd, Checked(f).spec, s')
  {
    hide Word, SlotsOwned, Holding, Accounted, AllPass;
    SameSlots(f.fd, s, s');
    PassMore(s.checks, s.regs[7].n);
    AccountedMore(s.results, f.spec.checked, s.checks, s.regs[7].n);
  }

  // ----- helper calls -----

  function AfterHelper(env: Env): Env {
    (env - {0, 1, 2, 3, 4, 5})[0 := SomeNum]
  }

  predicate PointsClear(fd: int, env: Env, p: Reg, n: int) {
    IsBlobPtr(env, p) && Outside(fd, env[p].v.at, n)
  }

  predicate IsNum(env: Env, r: Reg) {
    r in env && env[r].Is? && env[r].v.Num? && env[r].v.n >= 0
  }

  /** Helpers, other than commands, that leave the map slots alone. */
  predicate IsHarmless(fd: int, env: Env, h: Helper) {
    match h
    case SysBpf => false
    case ProbeReadKernel => IsNum(env, 2) && PointsClear(fd, env, 1, env[2].v.n)
    case CopyFromUser => IsNum(env, 2) && PointsClear(fd, env, 1, env[2].v.n)
    case KallsymsLookup => PointsClear(fd, env, 4, 8)
    case _ => true
  }

  lemma ClearFill(fd: int, m: Mem, a: int, n: nat, content: Mem)
    requires Outside(fd, a, n)
    ensures forall b :: IsBlobSlot(fd, b) ==> Word(Fill(m, a, n, content), b) == Word(m, b)
  {
    forall b | IsBlobSlot(fd, b)
      ensures Word(Fill(m, a, n, content), b) == Word(m, b)
    {
      WordKept(m, Fill(m, a, n, content), b);
    }
  }

  lemma CallStep(p: seq<Insn>, w: World, s: State, f: Flow, h: Helper)
    requires Base(s) && 0 <= s.pc < |p| && p[s.pc] == Call(h) && IsHarmless(f.fd, f.env, h)
    requires Agree(f.env, s) && Through(f.fd, f.spec, s)
    ensures var s' := Step(p, w, s);
      s'.pc == s.pc + 1 && Base(s') && Agree(AfterHelper(f.env), s') && Through(f.fd, f.spec, s')
  {
    hide Word, Through, Step, Agree, IsHarmless;
    var s' := Step(p, w, s);
    CallTarget(s, f, h);
    CallState(p, w, s, f.fd, h);
    CallAgrees(f.env, s, s');
    StillThrough(f.fd, f.spec, s, s');
  }

  /** A harmless helper writes nowhere, or to the blob clear of the map slots. */
  predicate IsClear(fd: int, to: Target) {
    to.Nowhere? || (to.Range? && to.region.Blob? && Outside(fd, to.at, to.size))
  }

  lemma CallTarget(s: State, f: Flow, h: Helper)
    requires Machine(s) && IsHarmless(f.fd, f.env, h) && Agree(f.env, s)
    ensures !h.SysBpf? && IsClear(f.fd, WritesTo(s, h))
  {
    hide Outside;
    assert forall r :: r in f.env ==> Fits(f.env[r], s.regs[r], s.results);
  }

  lemma CallState(p: seq<Insn>, w: World, s: State, fd: int, h: Helper)
    requires Base(s) && 0 <= s.pc < |p| && p[s.pc] == Call(h) && !h.SysBpf? && IsClear(fd, WritesTo(s, h))
    ensures var s' := Step(p, w, s);
      s'.pc == s.pc + 1 && Base(s') && Undisturbed(fd, s, s') && s'.regs[0].Num? &&
        forall r: Reg :: 6 <= r ==> s'.regs[r] == s.regs[r]
  {
    hide Word, Fill, Outside, WritesTo;
    var to := WritesTo(s, h);
    if to.Range? {
      ClearFill(fd, s.blob, to.at, to.size, Content(w, s, h));
    }
  }

  lemma CallAgrees(env: Env, s: State, s': State)
    requires Machine(s) && Machine(s') && Agree(env, s) && s'.results == s.results
    requires s'.regs[0].Num? && forall r: Reg :: 6 <= r ==> s'.regs[r] == s.regs[r]
    ensures Agree(AfterHelper(env), s')
  {
    forall r | r in AfterHelper(env)
      ensures Fits(AfterHelper(env)[r], s'.regs[r], s'.results)
    {
      if r != 0 {
        assert Fits(env[r], s.regs[r], s.results);
      }
    }
  }

  lemma ExtendCall(p: seq<Insn>, f: Flow, h: Helper)
    requires Good(p, f) && |p| !in f.pending && f.live && IsHarmless(f.fd, f.env, h)
    ensures Good(p + [Call(h)], f.(env := AfterHelper(f.env)))
  {
    hide Runs, Good, Word, Step, Agree, Through, Failed, IsHarmless;
    var p', f' := p + [Call(h)], f.(env := AfterHelper(f.env));
    forall w, s | Arrived(f, |p|, s)
      ensures Arrives(p', f', w, s)
    {
      if s.pc == |p| && f.live && Agree(f.env, s) && Through(f.fd, f.spec, s) {
        CallStep(p', w, s, f, h);
        OneStep(p', f', w, s);
      } else {
        StaysArrived(p', f', w, s);
      }
    }
    GoodExtends(p, p', f, f');
  }

  /** What is known after a command: its outcome is in R0. */
  function Commanded(f: Flow): Flow
    requires IsNum(f.env, 1)
  {
    f.(env := (map r | r in f.env && r > 5 && !f.env[r].LastResult? :: f.env[r])[0 := LastResult],
       spec := f.spec.(cmds := f.spec.cmds + [f.env[1].v.n], settled := true))
  }

  lemma CommandStep(p: seq<Insn>, w: World, s: State, f: Flow)
    requires Base(s) && 0 <= s.pc < |p| && p[s.pc] == Call(SysBpf) && IsNum(f.env, 1) && IsNum(f.env, 3) &&
      PointsClear(f.fd, f.env, 2, f.env[3].v.n)
    requires Agree(f.env, s) && Through(f.fd, f.spec, s)
    ensures var s' := Step(p, w, s);
      s'.pc == s.pc + 1 && Base(s') && Agree(Commanded(f).env, s') && Through(f.fd, Commanded(f).spec, s')
  {
    hide Word, Through, Step, Agree;
    var s' := Step(p, w, s);
    CommandState(p, w, s, f);
    CommandAgrees(f, s, s');
    ThroughMore(f.fd, f.spec, s, s', f.env[1].v.n);
  }

  lemma CommandState(p: seq<Insn>, w: World, s: State, f: Flow)
    requires Base(s) && 0 <= s.pc < |p| && p[s.pc] == Call(SysBpf) && IsNum(f.env, 1) && IsNum(f.env, 3) &&
      PointsClear(f.fd, f.env, 2, f.env[3].v.n)
    requires Agree(f.env, s)
    ensures var s' := Step(p, w, s);
      && s'.pc == s.pc + 1 && s'.outcome == Running && s'.stack == s.stack && s'.ctx == s.ctx
      && |s'.results| == |s.results| + 1 && s.results <= s'.results && s'.regs[0] == Num(s'.results[|s.results|])
      && s'.commands == s.commands + [f.env[1].v.n] && s'.checks == s.checks
      && (forall r: Reg :: 6 <= r ==> s'.regs[r] == s.regs[r])
      && (forall a :: IsBlobSlot(f.fd, a) ==> Word(s'.blob, a) == Word(s.blob, a))
  {
    hide Word, Fill, Outside;
    assert Fits(f.env[1], s.regs[1], s.results) && Fits(f.env[2], s.regs[2], s.results) &&
      Fits(f.env[3], s.regs[3], s.results);
    var to := WritesTo(s, SysBpf);
    ClearFill(f.fd, s.blob, to.at, to.size, Content(w, s, SysBpf));
  }

  lemma CommandAgrees(f: Flow, s: State, s': State)
    requires Machine(s) && Machine(s') && IsNum(f.env, 1) && Agree(f.env, s) && |s'.results| == |s.results| + 1 &&
      s.results <= s'.results
    requires s'.regs[0] == Num(s'.results[|s.results|]) && forall r: Reg :: 6 <= r ==> s'.regs[r] == s.regs[r]
    ensures Agree(Commanded(f).env, s')
  {
    forall r | r in Commanded(f).env
      ensures Fits(Commanded(f).env[r], s'.regs[r], s'.results)
    {
      if r != 0 {
        assert Fits(f.env[r], s.regs[r], s.results);
      }
    }
  }

  lemma ThroughMore(fd: int, spec: Spec, s: State, s': State, cmd: int)
    requires Through(fd, spec, s) && s.results <= s'.results && |s'.results| == |s.results| + 1
    requires s'.commands == s.commands + [cmd] && s'.checks == s.checks
    requires s'.stack == s.stack && s'.ctx == s.ctx &&
      forall a :: IsBlobSlot(fd, a) ==> Word(s'.blob, a) == Word(s.blob, a)
    ensures Through(fd, spec.(cmds := spec.cmds + [cmd], settled := true), s')
  {
    hide Word, SlotsOwned;
    OwnedLater(fd, s, s');
    assert forall j :: 0 <= j < |s.results| ==> s'.results[j] == s.results[j];
  }

  lemma OwnedLater(fd: int, s: State, s': State)
    requires SlotsOwned(fd, s) && s.results <= s'.results && s'.stack == s.stack
    requires forall a :: IsBlobSlot(fd, a) ==> Word(s'.blob, a) == Word(s.blob, a)
    ensures SlotsOwned(fd, s')
  {
    hide Word;
    forall word | Owned(word, s.results)
      ensures Owned(word, s'.results)
    {
      if word != 0 {
        var j :| 0 <= j < |s.results| && s.results[j] >= 0 && word == Low32(s.results[j]);
        assert s'.results[j] == s.results[j];
      }
    }
  }

  /** A command, issued when all earlier ones are known to have succeeded. */
  lemma ExtendCommand(p: seq<Insn>, f: Flow)
    requires Good(p, f) && f.live && f.pending == map[] && f.spec.checked == f.spec.Count()
    requires IsNum(f.env, 1) && IsNum(f.env, 3) && PointsClear(f.fd, f.env, 2, f.env[3].v.n)
    ensures Good(p + [Call(SysBpf)], Commanded(f))
  {
    hide Runs, Good, Word, Step, Agree, Through, SlotsOwned, IsNum, PointsClear, HoldingSome;
    var p', f' := p + [Call(SysBpf)], Commanded(f);
    forall w, s | Arrived(f, |p|, s)
      ensures Arrives(p', f', w, s)
    {
      if s.pc == |p| && f.live && Agree(f.env, s) && Through(f.fd, f.spec, s) {
        CommandStep(p', w, s, f);
        OneStep(p', f', w, s);
      } else {
        StaysArrived(p', f', w, s);
      }
    }
    GoodExtends(p, p', f, f');
  }

  // ----- outcomes are stored -----

  function StackRecorded(f: Flow, off: int): Flow
    requires f.spec.Count() > 0
  {
    f.(spec := f.spec.(stackAt := f.spec.stackAt[off := f.spec.Count() - 1]))
  }

  function BlobRecorded(f: Flow, a: int): Flow
    requires f.spec.Count() > 0
  {
    f.(spec := f.spec.(blobAt := f.spec.blobAt[a := f.spec.Count() - 1]))
  }

  /** The last command has succeeded, and its outcome is in R7. */
  predicate HasOutcome(f: Flow) {
    && f.live && f.pending == map[] && f.spec.settled && f.spec.checked == f.spec.Count() > 0
    && 7 in f.env && f.env[7].LastResult?
  }

  lemma StoredWord(m: Mem, a: int, x: int)
    ensures Word(StoreAt(m, a, 4, x), a) == Low32(x)
    ensures forall b :: b % 4 == a % 4 && b != a ==> Word(StoreAt(m, a, 4, x), b) == Word(m, b)
  {
    WordStored(m, a, x);
    forall b | b % 4 == a % 4 && b != a
      ensures Word(StoreAt(m, a, 4, x), b) == Word(m, b)
    {
      assert b + 4 <= a || a + 4 <= b;
      WordKept(m, StoreAt(m, a, 4, x), b);
    }
  }

  lemma HeldAfterStore(at: map<int, nat>, m: Mem, a: int, results: seq<int>, idx: nat)
    requires Holding(at, m, results) && idx < |results| && forall b :: b in at ==> b % 4 == a % 4
    ensures Holding(at[a := idx], StoreAt(m, a, 4, results[idx]), results)
  {
    hide Word, StoreAt;
    StoredWord(m, a, results[idx]);
  }

  lemma StackRecordStep(p: seq<Insn>, w: World, s: State, f: Flow, off: int)
    requires Base(s) && 0 <= s.pc < |p| && p[s.pc] == Store(W, 10, 7, off) && HasOutcome(f) && IsStackSlot(off)
    requires Agree(f.env, s) && Through(f.fd, f.spec, s)
    ensures var s' := Step(p, w, s);
      s'.pc == s.pc + 1 && Base(s') && Agree(f.env, s') && Through(f.fd, StackRecorded(f, off).spec, s')
  {
    hide Word, StoreAt, Holding, SlotsOwned, Accounted, AllPass;
    var idx := f.spec.Count() - 1;
    assert Fits(f.env[7], s.regs[7], s.results);
    HeldAfterStore(f.spec.stackAt, s.stack, off, s.results, idx);
    StackOwned(f.fd, s, Step(p, w, s), off, idx);
  }

  lemma StackOwned(fd: int, s: State, s': State, off: int, idx: nat)
    requires SlotsOwned(fd, s) && idx < |s.results| && s.results[idx] >= 0 && IsStackSlot(off)
    requires s'.results == s.results && s'.blob == s.blob && s'.stack == StoreAt(s.stack, off, 4, s.results[idx])
    ensures SlotsOwned(fd, s')
  {
    hide Word, StoreAt;
    StoredWord(s.stack, off, s.results[idx]);
    forall a | IsStackSlot(a)
      ensures Owned(Word(s'.stack, a), s'.results)
    {
      assert a == off ==> Word(s'.stack, a) == Low32(s.results[idx]);
      assert a != off ==> Owned(Word(s.stack, a), s.results);
    }
  }

  lemma BlobOwned(fd: int, s: State, s': State, a: int, idx: nat)
    requires SlotsOwned(fd, s) && idx < |s.results| && s.results[idx] >= 0 && IsBlobSlot(fd, a)
    requires s'.results == s.results && s'.stack == s.stack && s'.blob == StoreAt(s.blob, a, 4, s.results[idx])
    ensures SlotsOwned(fd, s')
  {
    hide Word, StoreAt;
    StoredWord(s.blob, a, s.results[idx]);
    forall b | IsBlobSlot(fd, b)
      ensures Owned(Word(s'.blob, b), s'.results)
    {
      assert b == a ==> Word(s'.blob, b) == Low32(s.results[idx]);
      assert b != a ==> Owned(Word(s.blob, b), s.results);
    }
  }

  lemma RecordOthers(f: Flow, f': Flow, len: nat, s: State)
    requires Arrived(f, len, s) && HasOutcome(f) && !(s.pc == len && Agree(f.env, s) && Through(f.fd, f.spec, s))
    requires (exists off :: f' == StackRecorded(f, off)) || (exists a :: f' == BlobRecorded(f, a))
    ensures Arrived(f', len + 1, s)
  {
    hide Word, SlotsOwned, Agree, Through;
  }

  /** Remember an outcome in a slot of the stack. */
  lemma ExtendStackRecord(p: seq<Insn>, f: Flow, off: int)
    requires Good(p, f) && HasOutcome(f) && IsStackSlot(off)
    ensures Good(p + [Store(W, 10, 7, off)], StackRecorded(f, off))
  {
    hide Runs, Good, Word, Step, Agree, Through, Failed;
    var p', f' := p + [Store(W, 10, 7, off)], StackRecorded(f, off);
    forall w, s | Arrived(f, |p|, s)
      ensures Arrives(p', f', w, s)
    {
      if s.pc == |p| && Agree(f.env, s) && Through(f.fd, f.spec, s) {
        StackRecordStep(p', w, s, f, off);
        OneStep(p', f', w, s);
      } else {
        RecordOthers(f, f', |p|, s);
        StaysArrived(p', f', w, s);
      }
    }
    GoodExtends(p, p', f, f');
  }

  lemma BlobRecordStep(p: seq<Insn>, w: World, s: State, f: Flow, a: int)
    requires Base(s) && 0 <= s.pc < |p| && p[s.pc] == Store(W, 1, 7, 0) && HasOutcome(f) && IsBlobSlot(f.fd, a)
    requires 1 in f.env && f.env[1] == Is(Ptr(Blob, a)) && Agree(f.env, s) && Through(f.fd, f.spec, s)
    ensures var s' := Step(p, w, s);
      s'.pc == s.pc + 1 && Base(s') && Agree(f.env, s') && Through(f.fd, BlobRecorded(f, a).spec, s')
  {
    hide Word, StoreAt, Holding, SlotsOwned, Accounted, AllPass;
    var idx := f.spec.Count() - 1;
    assert Fits(f.env[7], s.regs[7], s.results) && Fits(f.env[1], s.regs[1], s.results);
    HeldAfterStore(f.spec.blobAt, s.blob, a, s.results, idx);
    BlobOwned(f.fd, s, Step(p, w, s), a, idx);
  }

  /** Remember an outcome in a map slot. */
  lemma ExtendBlobRecord(p: seq<Insn>, f: Flow, a: int)
    requires Good(p, f) && HasOutcome(f) && IsBlobSlot(f.fd, a) && 1 in f.env && f.env[1] == Is(Ptr(Blob, a))
    ensures Good(p + [Store(W, 1, 7, 0)], BlobRecorded(f, a))
  {
    hide Runs, Good, Word, Step, Agree, Through, Failed;
    var p', f' := p + [Store(W, 1, 7, 0)], BlobRecorded(f, a);
    forall w, s | Arrived(f, |p|, s)
      ensures Arrives(p', f', w, s)
    {
      if s.pc == |p| && Agree(f.env, s) && Through(f.fd, f.spec, s) {
        BlobRecordStep(p', w, s, f, a);
        OneStep(p', f', w, s);
      } else {
        RecordOthers(f, f', |p|, s);
        StaysArrived(p', f', w, s);
      }
    }
    GoodExtends(p, p', f, f');
  }

  // ----- outcomes are handed out -----

  /** Read an outcome back from where it is held. */
  predicate ReadsOutcome(f: Flow, i: Insn, idx: nat) {
    i.Load? && i.size.W? && i.dst == 0 &&
    if i.base == 10 then i.off in f.spec.stackAt && f.spec.stackAt[i.off] == idx
    else
      IsBlobPtr(f.env, i.base) && f.env[i.base].v.at + i.off in f.spec.blobAt &&
      f.spec.blobAt[f.env[i.base].v.at + i.off] == idx
  }

  lemma ExtendRead(p: seq<Insn>, f: Flow, i: Insn, idx: nat)
    requires Good(p, f) && |p| !in f.pending && f.live && ReadsOutcome(f, i, idx)
    ensures Good(p + [i], f.(env := f.env[0 := ResultAt(idx)]))
  {
    hide Runs, Good, Word, Failed, LoadAt;
    var p', f' := p + [i], f.(env := f.env[0 := ResultAt(idx)]);
    forall w, s | Arrived(f, |p|, s)
      ensures Arrives(p', f', w, s)
    {
      if s.pc == |p| && f.live && Agree(f.env, s) && Through(f.fd, f.spec, s) {
        assert p'[|p|] == i;
        ReadStep(p', w, s, f, i, idx);
        OneStep(p', f', w, s);
      } else {
        StaysArrived(p', f', w, s);
      }
    }
    GoodExtends(p, p', f, f');
  }

  lemma ReadStep(p: seq<Insn>, w: World, s: State, f: Flow, i: Insn, idx: nat)
    requires Base(s) && 0 <= s.pc < |p| && p[s.pc] == i && ReadsOutcome(f, i, idx)
    requires Agree(f.env, s) && Through(f.fd, f.spec, s)
    ensures var s' := Step(p, w, s);
      s'.pc == s.pc + 1 && Base(s') && Agree(f.env[0 := ResultAt(idx)], s') && Through(f.fd, f.spec, s')
  {
    hide LoadAt, SlotsOwned;
    var s' := Step(p, w, s);
    assert i.base in f.env ==> Fits(f.env[i.base], s.regs[i.base], s.results);
    StillThrough(f.fd, f.spec, s, s');
  }

  function CtxRecorded(f: Flow, off: int, idx: nat): Flow {
    f.(spec := f.spec.(ctxAt := f.spec.ctxAt[off := idx]))
  }

  /** Copy an outcome to the context. */
  lemma ExtendCtxRecord(p: seq<Insn>, f: Flow, off: int, idx: nat)
    requires Good(p, f) && f.live && f.pending == map[] && off % 4 == 0 && 0 in f.env && f.env[0] == ResultAt(idx)
    ensures Good(p + [Store(W, 6, 0, off)], CtxRecorded(f, off, idx))
  {
    hide Runs, Good, Word, Step, Agree, Through, SlotsOwned, HoldingSome;
    var p', f' := p + [Store(W, 6, 0, off)], CtxRecorded(f, off, idx);
    forall w, s | Arrived(f, |p|, s)
      ensures Arrives(p', f', w, s)
    {
      if s.pc == |p| && Agree(f.env, s) && Through(f.fd, f.spec, s) {
        CtxRecordStep(p', w, s, f, off, idx);
        OneStep(p', f', w, s);
      } else {
        StaysArrived(p', f', w, s);
      }
    }
    GoodExtends(p, p', f, f');
  }

  lemma CtxRecordStep(p: seq<Insn>, w: World, s: State, f: Flow, off: int, idx: nat)
    requires Base(s) && 0 <= s.pc < |p| && p[s.pc] == Store(W, 6, 0, off) && off % 4 == 0
    requires 0 in f.env && f.env[0] == ResultAt(idx) && Agree(f.env, s) && Through(f.fd, f.spec, s)
    ensures var s' := Step(p, w, s);
      s'.pc == s.pc + 1 && Base(s') && Agree(f.env, s') && Through(f.fd, CtxRecorded(f, off, idx).spec, s')
  {
    hide Word, StoreAt, Owned;
    assert Fits(f.env[0], s.regs[0], s.results);
    StoredWord(s.ctx, off, Low32(s.results[idx]));
    assert Low32(Low32(s.results[idx])) == Low32(s.results[idx]);
  }
}
