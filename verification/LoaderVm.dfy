/** The machine that runs a loader program: BPF instructions over the loader's context, its stack and its
    blob of data, with helper calls whose outcomes are arbitrary. */
module LoaderVm {

  datatype Size = B | H | W | DW

  function Bytes(z: Size): (n: nat)
    ensures 1 <= n <= 8
  {
    match z case B => 1 case H => 2 case W => 4 case DW => 8
  }

  datatype Cond = Eq | Ne | Sge | Slt | Sle | SetLow

  datatype Helper = SysBpf | SysClose | TracePrintk | ProbeReadKernel | CopyFromUser | FindByNameKind | KallsymsLookup

  type Reg = r: nat | r <= 10

  /** A wide load takes two slots; the second one is no instruction of its own. */
  datatype Insn =
    | Mov(dst: Reg, src: Reg)
    | MovImm(dst: Reg, imm: int)
    | AddImm(dst: Reg, imm: int)
    | Rsh32(dst: Reg)
    | AndImm(dst: Reg, imm: int)
    | LdBlob(dst: Reg, blobOff: int)
    | Wide
    | Load(size: Size, dst: Reg, base: Reg, off: int)
    | Store(size: Size, base: Reg, src: Reg, off: int)
    | StoreImm(size: Size, base: Reg, off: int, imm: int)
    | Ja(jump: int)
    | JumpIf(cond: Cond, reg: Reg, imm: int, jump: int)
    | Call(helper: Helper)
    | Exit

  datatype Region = Ctx | Stack | Blob

  datatype Value = Num(n: int) | Ptr(region: Region, at: int) | Unknown

  datatype Outcome = Running | Exited(value: int) | Trapped

  type Mem = map<int, int>

  /** Apart from the machine itself: the number and the outcome of every command, the values that error
      checks have looked at, and the descriptors that have been closed. */
  datatype State = State(pc: int, regs: seq<Value>, ctx: Mem, stack: Mem, blob: Mem, commands: seq<int>,
                         results: seq<int>, checks: seq<int>, closed: seq<int>, calls: nat, outcome: Outcome)

  /** What helpers return and what they write, call by call. */
  datatype World = World(result: nat -> int, written: nat -> Mem)

  // ----- memory, byte by byte -----

  function ByteAt(m: Mem, a: int): int {
    if a in m then m[a] % 256 else 0
  }

  /** Byte `i` of a number in two's complement. */
  function NumByte(x: int, i: nat): int
    requires i < 8
  {
    x / Pow256(i) % 256
  }

  function Pow256(i: nat): (p: nat)
    requires i < 8
    ensures p > 0
  {
    match i
    case 0 => 1
    case 1 => 0x100
    case 2 => 0x1_0000
    case 3 => 0x100_0000
    case 4 => 0x1_0000_0000
    case 5 => 0x100_0000_0000
    case 6 => 0x1_0000_0000_0000
    case 7 => 0x100_0000_0000_0000
  }

  function StoreAt(m: Mem, a: int, n: nat, x: int): (m': Mem)
    requires n <= 8
    ensures forall c :: !(a <= c < a + n) ==> ByteAt(m', c) == ByteAt(m, c)
    ensures forall c :: a <= c < a + n ==> ByteAt(m', c) == NumByte(x, c - a)
  {
    m + map c | a <= c < a + n :: ByteFrom(x, a, c)
  }

  function ByteFrom(x: int, a: int, c: int): int
    requires a <= c < a + 8
  {
    NumByte(x, c - a)
  }

  function LoadAt(m: Mem, a: int, n: nat): int
    requires n <= 8
  {
    if n == 0 then 0 else LoadAt(m, a, n - 1) + ByteAt(m, a + n - 1) * Pow256(n - 1)
  }

  /** A region of memory filled by a helper. */
  function Fill(m: Mem, a: int, n: nat, content: Mem): (m': Mem)
    ensures forall c :: !(a <= c < a + n) ==> ByteAt(m', c) == ByteAt(m, c)
    ensures forall c :: a <= c < a + n ==> ByteAt(m', c) == ByteAt(content, c)
  {
    m + map c | a <= c < a + n :: ByteAt(content, c)
  }

  function Word(m: Mem, a: int): int {
    LoadAt(m, a, 4)
  }

  function Low32(x: int): int {
    x % 0x1_0000_0000
  }

  lemma WordParts(m: Mem, a: int)
    ensures Word(m, a) == ByteAt(m, a) + ByteAt(m, a + 1) * 0x100 + ByteAt(m, a + 2) * 0x1_0000 + ByteAt(m,
      a + 3) * 0x100_0000
    ensures Word(m, a) >= 0
  {
    assert LoadAt(m, a, 1) == ByteAt(m, a);
    assert LoadAt(m, a, 2) == LoadAt(m, a, 1) + ByteAt(m, a + 1) * 0x100;
    assert LoadAt(m, a, 3) == LoadAt(m, a, 2) + ByteAt(m, a + 2) * 0x1_0000;
  }

  lemma BytesMakeLow32(x: int)
    ensures Low32(x) == NumByte(x, 0) + NumByte(x, 1) * 0x100 + NumByte(x, 2) * 0x1_0000 + NumByte(x, 3) * 0x100_0000
  {
    var y, y1, y2, y3 := Low32(x), x / 0x100, x / 0x1_0000, x / 0x100_0000;
    assert y1 / 0x100 == y2 && y2 / 0x100 == y3;
    assert x == x % 0x100 + y1 * 0x100;
    assert y1 == y1 % 0x100 + y2 * 0x100;
    assert y2 == y2 % 0x100 + y3 * 0x100;
    assert y3 == y3 % 0x100 + (y3 / 0x100) * 0x100;
    var r := x % 0x100 + y1 % 0x100 * 0x100 + y2 % 0x100 * 0x1_0000 + y3 % 0x100 * 0x100_0000;
    assert x == r + (y3 / 0x100) * 0x1_0000_0000;
    assert 0 <= r < 0x1_0000_0000;
  }

  /** A word reads as the number that was stored, to 32 bits. */
  lemma WordStored(m: Mem, a: int, x: int)
    ensures Word(StoreAt(m, a, 4, x), a) == Low32(x)
  {
    var m' := StoreAt(m, a, 4, x);
    assert ByteAt(m', a) == NumByte(x, 0) && ByteAt(m', a + 1) == NumByte(x, 1);
    assert ByteAt(m', a + 2) == NumByte(x, 2) && ByteAt(m', a + 3) == NumByte(x, 3);
    WordParts(m', a);
    BytesMakeLow32(x);
  }

  /** A word is the same in memories that agree on its bytes. */
  lemma WordKept(m: Mem, m': Mem, a: int)
    requires forall c :: a <= c < a + 4 ==> ByteAt(m', c) == ByteAt(m, c)
    ensures Word(m', a) == Word(m, a)
  {
    WordParts(m, a);
    WordParts(m', a);
  }

  // ----- execution -----

  function NumOf(v: Value): int {
    if v.Num? then v.n else 0
  }

  function Get(s: State, region: Region): Mem {
    match region case Ctx => s.ctx case Stack => s.stack case Blob => s.blob
  }

  function Put(s: State, region: Region, m: Mem): State {
    match region case Ctx => s.(ctx := m) case Stack => s.(stack := m) case Blob => s.(blob := m)
  }

  predicate Holds(c: Cond, n: int, imm: int) {
    match c
    case Eq => n == imm
    case Ne => n != imm
    case Sge => n >= imm
    case Slt => n < imm
    case Sle => n <= imm
    case SetLow => n % 2 == 1
  }

  /** The jump of an error check: on a negative R7. */
  predicate IsCheck(c: Cond, r: Reg, imm: int) {
    c.Slt? && r == 7 && imm == 0
  }

  function Mask(n: int, imm: int): int {
    if imm == 0x0f then n % 16 else n % 256 - n % 16
  }

  predicate Machine(s: State) {
    |s.regs| == 11
  }

  function Set(s: State, r: Reg, v: Value): (s': State)
    requires Machine(s)
    ensures Machine(s')
  {
    s.(pc := s.pc + 1, regs := s.regs[r := v])
  }

  /** The memory that a helper writes to: where, and how much. */
  datatype Target = Nowhere | Range(region: Region, at: int, size: nat) | Bad

  function WritesTo(s: State, h: Helper): Target
    requires Machine(s)
  {
    match h
    case SysBpf => RangeOf(s.regs[2], s.regs[3])
    case ProbeReadKernel => RangeOf(s.regs[1], s.regs[2])
    case CopyFromUser => RangeOf(s.regs[1], s.regs[2])
    case KallsymsLookup => RangeOf(s.regs[4], Num(8))
    case _ => Nowhere
  }

  function RangeOf(p: Value, n: Value): Target {
    if p.Ptr? && n.Num? && n.n >= 0 then Range(p.region, p.at, n.n) else Bad
  }

  /** Reading kernel memory at address 0 fails and clears the target. */
  function Content(w: World, s: State, h: Helper): Mem
    requires Machine(s)
  {
    if h.ProbeReadKernel? && s.regs[3] == Num(0) then map[] else w.written(s.calls)
  }

  function AfterCall(w: World, s: State, h: Helper): (s': State)
    requires Machine(s)
    ensures Machine(s')
  {
    var r := w.result(s.calls);
    var to := WritesTo(s, h);
    var regs := [Num(r), Unknown, Unknown, Unknown, Unknown, Unknown] + s.regs[6..];
    var s1 := s.(pc := s.pc + 1, calls := s.calls + 1, regs := regs);
    match to
    case Bad => s.(outcome := Trapped)
    case Nowhere => if h.SysClose? then s1.(closed := s.closed + [NumOf(s.regs[1])]) else s1
    case Range(region, at, size) =>
      var s2 := Put(s1, region, Fill(Get(s, region), at, size, Content(w, s, h)));
      if h.SysBpf? then s2.(commands := s.commands + [NumOf(s.regs[1])], results := s.results + [r]) else s2
  }

  function Step(p: seq<Insn>, w: World, s: State): (s': State)
    requires Machine(s) && 0 <= s.pc < |p|
    ensures Machine(s')
  {
    match p[s.pc]
    case Mov(dst, src) => Set(s, dst, s.regs[src])
    case MovImm(dst, imm) => Set(s, dst, Num(imm))
    case AddImm(dst, imm) =>
      Set(s, dst, match s.regs[dst]
                  case Num(n) => Num(n + imm)
                  case Ptr(r, a) => Ptr(r, a + imm)
                  case Unknown => Unknown)
    case Rsh32(dst) => Set(s, dst, Num(NumOf(s.regs[dst]) % 0x1_0000_0000_0000_0000 / 0x1_0000_0000))
    case AndImm(dst, imm) => Set(s, dst, Num(Mask(NumOf(s.regs[dst]), imm)))
    case LdBlob(dst, off) => Set(s, dst, Ptr(Blob, off)).(pc := s.pc + 2)
    case Wide => s.(outcome := Trapped)
    case Load(size, dst, base, off) =>
      var b := s.regs[base];
      if b.Ptr? then Set(s, dst, Num(LoadAt(Get(s, b.region), b.at + off, Bytes(size)))) else s.(outcome := Trapped)
    case Store(size, base, src, off) => StoreTo(s, size, base, off, NumOf(s.regs[src]))
    case StoreImm(size, base, off, imm) => StoreTo(s, size, base, off, imm)
    case Ja(jump) => s.(pc := s.pc + 1 + jump)
    case JumpIf(cond, reg, imm, jump) =>
      if !s.regs[reg].Num? then s.(outcome := Trapped)
      else
        var n := s.regs[reg].n;
        s.(pc := s.pc + 1 + (if Holds(cond, n, imm) then jump else 0),
          checks := if IsCheck(cond, reg, imm) then s.checks + [n] else s.checks)
    case Call(h) => AfterCall(w, s, h)
    case Exit => s.(outcome := Exited(NumOf(s.regs[0])))
  }

  function StoreTo(s: State, size: Size, base: Reg, off: int, x: int): (s': State)
    requires Machine(s)
    ensures Machine(s')
  {
    var b := s.regs[base];
    if b.Ptr? then Put(s, b.region, StoreAt(Get(s, b.region), b.at + off, Bytes(size), x)).(pc := s.pc + 1)
    else s.(outcome := Trapped)
  }

  /** `n` steps lead from one state to the other, without leaving the program on the way. */
  ghost predicate Runs(p: seq<Insn>, w: World, s: State, s': State, n: nat)
    requires Machine(s)
    decreases n
  {
    if n == 0 then s == s'
    else s.outcome.Running? && 0 <= s.pc < |p| && Runs(p, w, Step(p, w, s), s', n - 1)
  }

  lemma {:induction false} RunsMachine(p: seq<Insn>, w: World, s: State, s': State, n: nat)
    requires Machine(s) && Runs(p, w, s, s', n)
    ensures Machine(s')
    decreases n
  {
    hide Step;
    if n > 0 {
      RunsMachine(p, w, Step(p, w, s), s', n - 1);
    }
  }

  lemma {:induction false} RunsOn(p: seq<Insn>, w: World, s: State, s1: State, s2: State, n: nat, m: nat)
    requires Machine(s) && Runs(p, w, s, s1, n) && Machine(s1) && Runs(p, w, s1, s2, m)
    ensures Runs(p, w, s, s2, n + m)
    decreases n
  {
    hide Step;
    if n > 0 {
      RunsOn(p, w, Step(p, w, s), s1, s2, n - 1, m);
    }
  }

  /** Code that comes later does not change a run. */
  lemma StepInLonger(p: seq<Insn>, p': seq<Insn>, w: World, s: State)
    requires Machine(s) && s.outcome.Running? && 0 <= s.pc < |p| && p <= p'
    ensures Step(p', w, s) == Step(p, w, s)
  {
    assert p'[s.pc] == p[s.pc];
  }

  lemma {:induction false} RunsInLonger(p: seq<Insn>, p': seq<Insn>, w: World, s: State, s': State, n: nat)
    requires Machine(s) && Runs(p, w, s, s', n) && p <= p'
    ensures Runs(p', w, s, s', n)
    decreases n
  {
    hide Step;
    if n > 0 {
      StepInLonger(p, p', w, s);
      RunsInLonger(p, p', w, Step(p, w, s), s', n - 1);
    }
  }

  /** A run has one end. */
  lemma {:induction false} OneEnd(p: seq<Insn>, w: World, s: State, s1: State, n1: nat, s2: State, n2: nat)
    requires Machine(s) && Runs(p, w, s, s1, n1) && Runs(p, w, s, s2, n2) && !s1.outcome.Running? &&
      !s2.outcome.Running?
    ensures s1 == s2
    decreases n1
  {
    hide Step;
    if n1 > 0 {
      OneEnd(p, w, Step(p, w, s), s1, n1 - 1, s2, n2 - 1);
    }
  }
}
